/**
 Puts and gets of any number of threads on one store (`src/database/store.c`), interleaved step by
 step under the per-bucket locks. A step is what a thread does between two points at which another
 thread could notice: taking a lock, looking at one entry, linking one entry, giving the lock back,
 and the read of `data_length` that `kv_store_get` makes after giving it back.
 */
module StoreThreads {
  import opened Bytes
  import opened Options
  import opened Buckets
  import opened Chains

  datatype Op = PutOp(digest: seq<byte>, data: seq<byte>) | GetOp(digest: seq<byte>)

  /** `entry` is the operation's place in the order of lock acquisitions; `found` the position of the
      entry it stopped at, and `output` the copy a get made. */
  datatype Thread =
    | Idle
    | Called(op: Op)
    | Walking(op: Op, entry: nat, at: nat)
    | Locked(op: Op, entry: nat, found: Option<nat>, output: Option<seq<byte>>)
    | Unlocked(op: Op, entry: nat, found: Option<nat>, output: Option<seq<byte>>)

  datatype Returned = Returned(entry: nat, output: Option<seq<byte>>, len: nat)

  datatype State = State(
    chains: seq<seq<Record>>,
    owner: seq<Option<nat>>,
    threads: seq<Thread>,
    log: seq<Op>,
    returned: seq<Returned>)

  datatype Step =
    | Call(t: nat, op: Op)
    | Acquire(t: nat)
    | Advance(t: nat)
    | Stop(t: nat)
    | LinkNew(t: nat)
    | Miss(t: nat)
    | Release(t: nat)
    | Return(t: nat)

  predicate Initial(s: State) {
    && |s.chains| > 0 && |s.owner| == |s.chains|
    && (forall b :: 0 <= b < |s.chains| ==> s.chains[b] == [] && s.owner[b].None?)
    && (forall t :: 0 <= t < |s.threads| ==> s.threads[t].Idle?)
    && s.log == [] && s.returned == []
  }

  function Bucket(s: State, op: Op): (b: nat)
    requires |s.chains| > 0
    ensures b < |s.chains|
  {
    BucketOf(op.digest, |s.chains|)
  }

  /** A walk is over once its entry is the last one, or the chain is empty. */
  predicate AtEnd(chain: seq<Record>, digest: seq<byte>, at: nat) {
    chain == [] || (at + 1 == |chain| && chain[at].key != digest)
  }

  predicate Enabled(s: State, step: Step)
    requires |s.chains| > 0 && |s.owner| == |s.chains|
  {
    && step.t < |s.threads|
    && var th := s.threads[step.t];
       match step
       case Call(_, op) => th.Idle? && |op.digest| == 20
       case Acquire(_) => th.Called? && s.owner[Bucket(s, th.op)].None?
       case Advance(_) => th.Walking? && var chain := s.chains[Bucket(s, th.op)];
                          th.at + 1 < |chain| && chain[th.at].key != th.op.digest
       case Stop(_) => th.Walking? && var chain := s.chains[Bucket(s, th.op)];
                       th.at < |chain| && chain[th.at].key == th.op.digest
       case LinkNew(_) => th.Walking? && th.op.PutOp? && AtEnd(s.chains[Bucket(s, th.op)], th.op.digest, th.at)
       case Miss(_) => th.Walking? && th.op.GetOp? && AtEnd(s.chains[Bucket(s, th.op)], th.op.digest, th.at)
       case Release(_) => th.Locked?
       case Return(_) => th.Unlocked? &&
                         (th.found.Some? ==> th.found.value < |s.chains[Bucket(s, th.op)]|)
  }

  function Apply(s: State, step: Step): State
    requires |s.chains| > 0 && |s.owner| == |s.chains| && Enabled(s, step)
  {
    var th := s.threads[step.t];
    match step
    case Call(t, op) => s.(threads := s.threads[t := Called(op)])
    case Acquire(t) =>
      s.(owner := s.owner[Bucket(s, th.op) := Some(t)],
         threads := s.threads[t := Walking(th.op, |s.log|, 0)],
         log := s.log + [th.op])
    case Advance(t) => s.(threads := s.threads[t := th.(at := th.at + 1)])
    case Stop(t) =>
      var output := if th.op.GetOp? then Some(s.chains[Bucket(s, th.op)][th.at].data) else None;
      s.(threads := s.threads[t := Locked(th.op, th.entry, Some(th.at), output)])
    case LinkNew(t) =>
      var b := Bucket(s, th.op);
      s.(chains := s.chains[b := s.chains[b] + [Record(th.op.digest, th.op.data)]],
         threads := s.threads[t := Locked(th.op, th.entry, None, None)])
    case Miss(t) => s.(threads := s.threads[t := Locked(th.op, th.entry, None, None)])
    case Release(t) =>
      s.(owner := s.owner[Bucket(s, th.op) := None],
         threads := s.threads[t := Unlocked(th.op, th.entry, th.found, th.output)])
    case Return(t) =>
      var len := if th.found.Some? then |s.chains[Bucket(s, th.op)][th.found.value].data| else 0;
      var results := if th.op.GetOp? then [Returned(th.entry, th.output, len)] else [];
      s.(threads := s.threads[t := Idle], returned := s.returned + results)
  }

  // ----- the sequential meaning -----

  /** The map left by running the operations of `log` one after the other. */
  function Replay(log: seq<Op>): map<seq<byte>, seq<byte>> {
    if log == [] then map[]
    else
      var op, before := log[|log| - 1], Replay(log[..|log| - 1]);
      if op.PutOp? then FirstPut(before, op.digest, op.data) else before
  }

  /** What a get at place `k` of `log` sees when the operations before it have run in that order. */
  function Expected(log: seq<Op>, k: nat): Option<seq<byte>>
    requires k < |log|
  {
    MapGet(Replay(log[..k]), log[k].digest)
  }

  // ----- the invariant -----

  /** What a bucket's lock holder still has to do, applied to what the chain says about `d`. */
  function Pending(s: State, b: nat, d: seq<byte>, seen: Option<seq<byte>>): Option<seq<byte>>
    requires b < |s.owner|
  {
    if s.owner[b].Some? && s.owner[b].value < |s.threads| && s.threads[s.owner[b].value].Walking?
       && s.threads[s.owner[b].value].op.PutOp? && s.threads[s.owner[b].value].op.digest == d && seen.None?
    then Some(s.threads[s.owner[b].value].op.data)
    else seen
  }

  ghost predicate AgreesAt(s: State, d: seq<byte>)
    requires |s.chains| > 0 && |s.owner| == |s.chains|
  {
    var b := BucketOf(d, |s.chains|);
    MapGet(Replay(s.log), d) == Pending(s, b, d, Lookup(s.chains[b], d))
  }

  predicate Busy(th: Thread) {
    th.Walking? || th.Locked?
  }

  ghost predicate OwnerOk(s: State, b: nat)
    requires |s.chains| > 0 && |s.owner| == |s.chains| && b < |s.chains|
  {
    s.owner[b].Some? ==>
      var t := s.owner[b].value;
      t < |s.threads| && Busy(s.threads[t]) && Bucket(s, s.threads[t].op) == b
  }

  ghost predicate ResultOk(s: State, op: Op, entry: nat, found: Option<nat>, output: Option<seq<byte>>)
    requires |s.chains| > 0
  {
    && entry < |s.log| && s.log[entry] == op
    && (op.GetOp? ==> output == Expected(s.log, entry))
    && (op.GetOp? ==> (found.Some? <==> output.Some?))
    && (found.Some? ==> found.value < |s.chains[Bucket(s, op)]|)
    && (found.Some? && op.GetOp? ==> output.value == s.chains[Bucket(s, op)][found.value].data)
  }

  ghost predicate ThreadOk(s: State, t: nat)
    requires |s.chains| > 0 && |s.owner| == |s.chains| && t < |s.threads|
  {
    var th := s.threads[t];
    && (!th.Idle? ==> |th.op.digest| == 20)
    && (Busy(th) ==> s.owner[Bucket(s, th.op)] == Some(t))
    && (th.Walking? ==>
          var chain := s.chains[Bucket(s, th.op)];
          && th.entry < |s.log| && s.log[th.entry] == th.op
          && Unseen(chain, th.op.digest, th.at)
          && (chain != [] ==> th.at < |chain|)
          && (th.op.GetOp? ==> Expected(s.log, th.entry) == Lookup(chain, th.op.digest)))
    && (th.Locked? || th.Unlocked? ==> ResultOk(s, th.op, th.entry, th.found, th.output))
  }

  /** A returned get reports what the sequential order prescribes, with the length of what it copied. */
  ghost predicate ReturnedOk(log: seq<Op>, r: Returned) {
    && r.entry < |log| && log[r.entry].GetOp?
    && r.output == Expected(log, r.entry)
    && r.len == if r.output.Some? then |r.output.value| else 0
  }

  ghost predicate Inv(s: State) {
    && |s.chains| > 0 && |s.owner| == |s.chains|
    && (forall b :: 0 <= b < |s.chains| ==> ChainOk(s.chains[b], b, |s.chains|))
    && (forall b :: 0 <= b < |s.chains| ==> OwnerOk(s, b))
    && (forall t :: 0 <= t < |s.threads| ==> ThreadOk(s, t))
    && (forall d: seq<byte> :: AgreesAt(s, d))
    && (forall i :: 0 <= i < |s.returned| ==> ReturnedOk(s.log, s.returned[i]))
  }

  lemma InitialInv(s: State)
    requires Initial(s)
    ensures Inv(s)
  {
  }

  lemma ReplaySnoc(log: seq<Op>, op: Op)
    ensures Replay(log + [op]) == if op.PutOp? then FirstPut(Replay(log), op.digest, op.data) else Replay(log)
  {
    assert (log + [op])[..|log|] == log;
  }

  lemma ExpectedStable(log: seq<Op>, op: Op, k: nat)
    requires k < |log|
    ensures Expected(log + [op], k) == Expected(log, k)
  {
    assert (log + [op])[..k] == log[..k];
  }

  // ----- every step keeps the invariant -----

  /** Steps of a thread that leave chains, owners and log alone and put nothing on hold. */
  lemma LocalStep(s: State, s': State, t: nat)
    requires Inv(s) && t < |s.threads|
    requires |s'.threads| == |s.threads|
    requires s' == s.(threads := s.threads[t := s'.threads[t]], returned := s'.returned)
    requires ThreadOk(s', t)
    requires Busy(s.threads[t]) ==> Busy(s'.threads[t]) && s'.threads[t].op == s.threads[t].op
    requires forall d: seq<byte> :: AgreesAt(s', d)
    requires forall i :: 0 <= i < |s'.returned| ==> ReturnedOk(s'.log, s'.returned[i])
    ensures Inv(s')
  {
    forall b | 0 <= b < |s.chains|
      ensures OwnerOk(s', b)
    {
      assert OwnerOk(s, b);
    }
    forall u | 0 <= u < |s.threads|
      ensures ThreadOk(s', u)
    {
      assert ThreadOk(s, u);
    }
  }

  lemma CallKeeps(s: State, t: nat, op: Op)
    requires Inv(s) && Enabled(s, Call(t, op))
    ensures Inv(Apply(s, Call(t, op)))
  {
    var s' := Apply(s, Call(t, op));
    forall d: seq<byte>
      ensures AgreesAt(s', d)
    {
      assert AgreesAt(s, d) && OwnerOk(s, BucketOf(d, |s.chains|));
    }
    LocalStep(s, s', t);
  }

  lemma AdvanceKeeps(s: State, t: nat)
    requires Inv(s) && Enabled(s, Advance(t))
    ensures Inv(Apply(s, Advance(t)))
  {
    var s' := Apply(s, Advance(t));
    assert ThreadOk(s, t);
    forall d: seq<byte>
      ensures AgreesAt(s', d)
    {
      assert AgreesAt(s, d) && OwnerOk(s, BucketOf(d, |s.chains|));
    }
    LocalStep(s, s', t);
  }

  lemma StopKeeps(s: State, t: nat)
    requires Inv(s) && Enabled(s, Stop(t))
    ensures Inv(Apply(s, Stop(t)))
  {
    var s' := Apply(s, Stop(t));
    var th := s.threads[t];
    assert ThreadOk(s, t);
    LookupFrom(s.chains[Bucket(s, th.op)], th.op.digest, th.at);
    forall d: seq<byte>
      ensures AgreesAt(s', d)
    {
      assert AgreesAt(s, d) && OwnerOk(s, BucketOf(d, |s.chains|));
    }
    LocalStep(s, s', t);
  }

  lemma MissKeeps(s: State, t: nat)
    requires Inv(s) && Enabled(s, Miss(t))
    ensures Inv(Apply(s, Miss(t)))
  {
    var s' := Apply(s, Miss(t));
    var th := s.threads[t];
    var chain := s.chains[Bucket(s, th.op)];
    assert ThreadOk(s, t);
    LookupFrom(chain, th.op.digest, |chain|);
    forall d: seq<byte>
      ensures AgreesAt(s', d)
    {
      assert AgreesAt(s, d) && OwnerOk(s, BucketOf(d, |s.chains|));
    }
    LocalStep(s, s', t);
  }

  lemma ReturnKeeps(s: State, t: nat)
    requires Inv(s) && Enabled(s, Return(t))
    ensures Inv(Apply(s, Return(t)))
  {
    var s' := Apply(s, Return(t));
    assert ThreadOk(s, t);
    forall d: seq<byte>
      ensures AgreesAt(s', d)
    {
      assert AgreesAt(s, d) && OwnerOk(s, BucketOf(d, |s.chains|));
    }
    LocalStep(s, s', t);
  }

  lemma AcquireAgrees(s: State, t: nat, d: seq<byte>)
    requires Inv(s) && Enabled(s, Acquire(t))
    ensures AgreesAt(Apply(s, Acquire(t)), d)
  {
    var s', op, b := Apply(s, Acquire(t)), s.threads[t].op, BucketOf(d, |s.chains|);
    var seen := Lookup(s.chains[b], d);
    assert AgreesAt(s, d) && OwnerOk(s, b);
    ReplaySnoc(s.log, op);
    if op.PutOp? && op.digest == d {
      assert Pending(s, b, d, seen) == seen;
      assert Pending(s', b, d, seen) == if seen.None? then Some(op.data) else seen;
    } else {
      assert MapGet(Replay(s'.log), d) == MapGet(Replay(s.log), d);
      assert Pending(s', b, d, seen) == Pending(s, b, d, seen);
    }
  }

  lemma AcquireThread(s: State, t: nat, u: nat)
    requires Inv(s) && Enabled(s, Acquire(t)) && u < |s.threads|
    ensures ThreadOk(Apply(s, Acquire(t)), u)
  {
    var s' := Apply(s, Acquire(t));
    var th := s.threads[u];
    assert ThreadOk(s, u);
    if u == t {
      assert AgreesAt(s, th.op.digest);
      assert s'.log[..|s.log|] == s.log;
    } else if !th.Idle? && !th.Called? {
      ExpectedStable(s.log, s.threads[t].op, th.entry);
    }
  }

  lemma AcquireKeeps(s: State, t: nat)
    requires Inv(s) && Enabled(s, Acquire(t))
    ensures Inv(Apply(s, Acquire(t)))
  {
    var s' := Apply(s, Acquire(t));
    forall b | 0 <= b < |s.chains|
      ensures OwnerOk(s', b)
    {
      assert OwnerOk(s, b);
    }
    forall u | 0 <= u < |s.threads|
      ensures ThreadOk(s', u)
    {
      AcquireThread(s, t, u);
    }
    forall d: seq<byte>
      ensures AgreesAt(s', d)
    {
      AcquireAgrees(s, t, d);
    }
    forall i | 0 <= i < |s.returned|
      ensures ReturnedOk(s'.log, s'.returned[i])
    {
      assert ReturnedOk(s.log, s.returned[i]);
      ExpectedStable(s.log, s.threads[t].op, s.returned[i].entry);
    }
  }

  lemma LinkNewAgrees(s: State, t: nat, d: seq<byte>)
    requires Inv(s) && Enabled(s, LinkNew(t))
    ensures AgreesAt(Apply(s, LinkNew(t)), d)
  {
    var op := s.threads[t].op;
    var b := Bucket(s, op);
    assert ThreadOk(s, t);
    assert AgreesAt(s, d) && OwnerOk(s, BucketOf(d, |s.chains|));
    LookupAppend(s.chains[b], Record(op.digest, op.data), d);
  }

  lemma LinkNewKeeps(s: State, t: nat)
    requires Inv(s) && Enabled(s, LinkNew(t))
    ensures Inv(Apply(s, LinkNew(t)))
  {
    var s' := Apply(s, LinkNew(t));
    var op := s.threads[t].op;
    var b := Bucket(s, op);
    assert ThreadOk(s, t);
    ChainOkAppend(s.chains[b], Record(op.digest, op.data), b, |s.chains|);
    forall c | 0 <= c < |s.chains|
      ensures OwnerOk(s', c)
    {
      assert OwnerOk(s, c);
    }
    forall u | 0 <= u < |s.threads|
      ensures ThreadOk(s', u)
    {
      assert ThreadOk(s, u);
    }
    forall d: seq<byte>
      ensures AgreesAt(s', d)
    {
      LinkNewAgrees(s, t, d);
    }
  }

  lemma ReleaseKeeps(s: State, t: nat)
    requires Inv(s) && Enabled(s, Release(t))
    ensures Inv(Apply(s, Release(t)))
  {
    var s' := Apply(s, Release(t));
    assert ThreadOk(s, t);
    forall c | 0 <= c < |s.chains|
      ensures OwnerOk(s', c)
    {
      assert OwnerOk(s, c);
    }
    forall u | 0 <= u < |s.threads|
      ensures ThreadOk(s', u)
    {
      assert ThreadOk(s, u);
    }
    forall d: seq<byte>
      ensures AgreesAt(s', d)
    {
      assert AgreesAt(s, d) && OwnerOk(s, BucketOf(d, |s.chains|));
    }
  }

  lemma StepKeeps(s: State, step: Step)
    requires Inv(s) && Enabled(s, step)
    ensures Inv(Apply(s, step))
  {
    match step {
      case Call(t, op) => CallKeeps(s, t, op);
      case Acquire(t) => AcquireKeeps(s, t);
      case Advance(t) => AdvanceKeeps(s, t);
      case Stop(t) => StopKeeps(s, t);
      case LinkNew(t) => LinkNewKeeps(s, t);
      case Miss(t) => MissKeeps(s, t);
      case Release(t) => ReleaseKeeps(s, t);
      case Return(t) => ReturnKeeps(s, t);
    }
  }

  // ----- whole runs -----

  ghost predicate IsStep(s: State, step: Step, s': State) {
    |s.chains| > 0 && |s.owner| == |s.chains| && Enabled(s, step) && s' == Apply(s, step)
  }

  ghost predicate IsRun(states: seq<State>, steps: seq<Step>) {
    && |states| == |steps| + 1 && Initial(states[0])
    && forall i :: 0 <= i < |steps| ==> IsStep(states[i], steps[i], states[i + 1])
  }

  lemma {:induction false} RunKeeps(states: seq<State>, steps: seq<Step>, n: nat)
    requires IsRun(states, steps) && n < |states|
    ensures Inv(states[n])
  {
    if n == 0 {
      InitialInv(states[0]);
    } else {
      RunKeeps(states, steps, n - 1);
      assert IsStep(states[n - 1], steps[n - 1], states[n]);
      StepKeeps(states[n - 1], steps[n - 1]);
    }
  }

  /** In every interleaving each get that has returned has the result, and the length, that running the
      operations one after the other in the order of their lock acquisitions gives; whenever no lock
      is held the chains are the map that order leaves. */
  lemma RunsAreSequential(states: seq<State>, steps: seq<Step>, n: nat)
    requires IsRun(states, steps) && n < |states|
    ensures var s := states[n]; forall i :: 0 <= i < |s.returned| ==> ReturnedOk(s.log, s.returned[i])
    ensures var s := states[n];
      |s.chains| > 0 && ((forall b :: 0 <= b < |s.owner| ==> s.owner[b].None?) ==> Agree(s.chains, Replay(s.log)))
  {
    RunKeeps(states, steps, n);
    var s := states[n];
    if forall b :: 0 <= b < |s.owner| ==> s.owner[b].None? {
      forall d: seq<byte>
        ensures MapGet(Replay(s.log), d) == Lookup(s.chains[BucketOf(d, |s.chains|)], d)
      {
        assert AgreesAt(s, d);
      }
    }
  }

  /** The order of acquisitions, the results and every chain only ever grow: what a get saw stays. */
  lemma {:induction false} RunsOnlyGrow(states: seq<State>, steps: seq<Step>, m: nat, n: nat)
    requires IsRun(states, steps) && m <= n < |states|
    ensures states[m].log <= states[n].log && states[m].returned <= states[n].returned
    ensures |states[m].chains| == |states[n].chains|
    ensures forall b :: 0 <= b < |states[m].chains| ==> states[m].chains[b] <= states[n].chains[b]
  {
    if m < n {
      RunsOnlyGrow(states, steps, m, n - 1);
      assert IsStep(states[n - 1], steps[n - 1], states[n]);
    }
  }

  predicate Placed(th: Thread) {
    th.Walking? || th.Locked? || th.Unlocked?
  }

  /** No two operations have the same place in the order. */
  ghost predicate Places(s: State) {
    && (forall t, u :: 0 <= t < u < |s.threads| && Placed(s.threads[t]) && Placed(s.threads[u]) ==>
          s.threads[t].entry != s.threads[u].entry)
    && (forall i, j :: 0 <= i < j < |s.returned| ==> s.returned[i].entry != s.returned[j].entry)
    && (forall t, i :: 0 <= t < |s.threads| && Placed(s.threads[t]) && 0 <= i < |s.returned| ==>
          s.threads[t].entry != s.returned[i].entry)
    && (forall t :: 0 <= t < |s.threads| && Placed(s.threads[t]) ==> s.threads[t].entry < |s.log|)
    && (forall i :: 0 <= i < |s.returned| ==> s.returned[i].entry < |s.log|)
  }

  /** All steps but taking the lock and returning leave the places as they are. */
  ghost predicate SamePlaces(s: State, s': State) {
    && |s'.threads| == |s.threads| && s'.returned == s.returned && s'.log == s.log
    && forall t :: 0 <= t < |s.threads| ==>
         && Placed(s'.threads[t]) == Placed(s.threads[t])
         && (Placed(s.threads[t]) ==> s'.threads[t].entry == s.threads[t].entry)
  }

  lemma OtherStep(s: State, step: Step)
    requires |s.chains| > 0 && |s.owner| == |s.chains| && Enabled(s, step) && !step.Acquire? && !step.Return?
    ensures SamePlaces(s, Apply(s, step))
  {
  }

  lemma SamePlacesKept(s: State, s': State)
    requires Places(s) && SamePlaces(s, s')
    ensures Places(s')
  {
  }

  lemma PlacesKept(s: State, step: Step)
    requires |s.chains| > 0 && |s.owner| == |s.chains| && Places(s) && Enabled(s, step)
    ensures Places(Apply(s, step))
  {
    if step.Acquire? {
      AcquirePlaces(s, step.t);
    } else if step.Return? {
      ReturnPlaces(s, step.t);
    } else {
      OtherStep(s, step);
      SamePlacesKept(s, Apply(s, step));
    }
  }

  lemma AcquirePlaces(s: State, t: nat)
    requires |s.chains| > 0 && |s.owner| == |s.chains| && Places(s) && Enabled(s, Acquire(t))
    ensures Places(Apply(s, Acquire(t)))
  {
  }

  lemma ReturnPlaces(s: State, t: nat)
    requires |s.chains| > 0 && |s.owner| == |s.chains| && Places(s) && Enabled(s, Return(t))
    ensures Places(Apply(s, Return(t)))
  {
  }

  lemma {:induction false} RunKeepsPlaces(states: seq<State>, steps: seq<Step>, n: nat)
    requires IsRun(states, steps) && n < |states|
    ensures Places(states[n])
  {
    if n > 0 {
      RunKeepsPlaces(states, steps, n - 1);
      assert IsStep(states[n - 1], steps[n - 1], states[n]);
      PlacesKept(states[n - 1], steps[n - 1]);
    }
  }

  /** The order is that of real time: an operation that takes its lock after another has returned comes
      later in it. And no two results share a place. */
  lemma RealTimeOrder(states: seq<State>, steps: seq<Step>, j: nat, k: nat)
    requires IsRun(states, steps) && j < k < |steps| && steps[j].Return? && steps[k].Acquire?
    ensures steps[j].t < |states[j].threads| && steps[k].t < |states[k + 1].threads|
    ensures var first, later := states[j].threads[steps[j].t], states[k + 1].threads[steps[k].t];
      Placed(first) && Placed(later) && first.entry < later.entry
    ensures var results := states[k].returned;
      forall a, b :: 0 <= a < b < |results| ==> results[a].entry != results[b].entry
  {
    RunKeepsPlaces(states, steps, j);
    RunKeepsPlaces(states, steps, k);
    RunsOnlyGrow(states, steps, j, k);
    assert IsStep(states[j], steps[j], states[j + 1]);
    assert IsStep(states[k], steps[k], states[k + 1]);
  }

  /** The data of the first put of `d` in `log`. */
  function FirstData(log: seq<Op>, d: seq<byte>): Option<seq<byte>> {
    if log == [] then None
    else if log[0].PutOp? && log[0].digest == d then Some(log[0].data)
    else FirstData(log[1..], d)
  }

  lemma {:induction false} FirstDataSnoc(log: seq<Op>, op: Op, d: seq<byte>)
    ensures FirstData(log + [op], d) ==
            if FirstData(log, d).Some? then FirstData(log, d)
            else if op.PutOp? && op.digest == d then Some(op.data) else None
  {
    if log == [] {
      assert (log + [op])[1..] == [];
    } else {
      FirstDataSnoc(log[1..], op, d);
      assert (log + [op])[1..] == log[1..] + [op];
    }
  }

  /** The first put of a digest wins. */
  lemma {:induction false} FirstPutWins(log: seq<Op>, d: seq<byte>)
    ensures MapGet(Replay(log), d) == FirstData(log, d)
  {
    if log != [] {
      var init, last := log[..|log| - 1], log[|log| - 1];
      assert log == init + [last];
      FirstPutWins(init, d);
      FirstDataSnoc(init, last, d);
    }
  }

  /** No thread is ever stuck: it can move, or it waits for a lock whose holder can. */
  lemma NeverStuck(s: State, t: nat)
    requires Inv(s) && t < |s.threads| && !s.threads[t].Idle?
    ensures exists step :: Enabled(s, step) && (step.t == t ||
              (s.threads[t].Called? && s.owner[Bucket(s, s.threads[t].op)] == Some(step.t)))
  {
    var th := s.threads[t];
    var b := Bucket(s, th.op);
    if th.Called? && s.owner[b].Some? {
      assert OwnerOk(s, b);
      var step := NextOf(s, s.owner[b].value);
    } else if th.Called? {
      assert Enabled(s, Acquire(t));
    } else {
      var step := NextOf(s, t);
    }
  }

  lemma NextOf(s: State, t: nat) returns (step: Step)
    requires Inv(s) && t < |s.threads| && (Busy(s.threads[t]) || s.threads[t].Unlocked?)
    ensures step.t == t && Enabled(s, step)
  {
    var th := s.threads[t];
    assert ThreadOk(s, t);
    var chain := s.chains[Bucket(s, th.op)];
    step := if th.Locked? then Release(t)
            else if th.Unlocked? then Return(t)
            else if chain != [] && chain[th.at].key == th.op.digest then Stop(t)
            else if !AtEnd(chain, th.op.digest, th.at) then Advance(t)
            else if th.op.PutOp? then LinkNew(t)
            else Miss(t);
  }

  // ----- any sequence of operations can be run -----

  lemma Extend(states: seq<State>, steps: seq<Step>, step: Step, next: State)
    requires IsRun(states, steps) && IsStep(states[|steps|], step, next)
    ensures IsRun(states + [next], steps + [step])
  {
    var states', steps' := states + [next], steps + [step];
    forall i | 0 <= i < |steps'|
      ensures IsStep(states'[i], steps'[i], states'[i + 1])
    {
      if i < |steps| {
        assert IsStep(states[i], steps[i], states[i + 1]);
      }
    }
  }

  /** How many steps a thread has before it, once it has its lock. */
  function Left(s: State, t: nat): nat
    requires |s.chains| > 0 && t < |s.threads|
  {
    match s.threads[t]
    case Idle => 0
    case Called(_) => 0
    case Walking(op, _, at) => var n := |s.chains[Bucket(s, op)]|; 3 + if at < n then n - at else 0
    case Locked(_, _, _, _) => 2
    case Unlocked(_, _, _, _) => 1
  }

  ghost predicate OnlyActive(s: State, t: nat) {
    forall u :: 0 <= u < |s.threads| && u != t ==> s.threads[u].Idle?
  }

  lemma StepOfOne(s: State, t: nat, step: Step)
    requires Inv(s) && t < |s.threads| && OnlyActive(s, t) && Placed(s.threads[t]) && Enabled(s, step) && step.t == t
    ensures var s' := Apply(s, step);
      && |s'.chains| > 0 && |s'.threads| == |s.threads| && OnlyActive(s', t) && s'.log == s.log
      && Left(s', t) < Left(s, t) && (Placed(s'.threads[t]) || s'.threads[t].Idle?)
  {
    assert ThreadOk(s, t);
  }

  /** An operation that has its lock, and the store to itself, comes to its end. */
  lemma {:induction false} Finish(states: seq<State>, steps: seq<Step>, t: nat)
    returns (states': seq<State>, steps': seq<Step>)
    requires IsRun(states, steps) && t < |states[|steps|].threads| && OnlyActive(states[|steps|], t)
    requires Inv(states[|steps|]) && (Placed(states[|steps|].threads[t]) || states[|steps|].threads[t].Idle?)
    ensures IsRun(states', steps') && states <= states' && states'[|steps'|].log == states[|steps|].log
    ensures |states'[|steps'|].threads| == |states[|steps|].threads|
    ensures OnlyActive(states'[|steps'|], t) && states'[|steps'|].threads[t].Idle?
    decreases Left(states[|steps|], t)
  {
    var s := states[|steps|];
    if s.threads[t].Idle? {
      states', steps' := states, steps;
    } else {
      var step := NextOf(s, t);
      var next := Apply(s, step);
      StepOfOne(s, t, step);
      StepKeeps(s, step);
      Extend(states, steps, step, next);
      states', steps' := Finish(states + [next], steps + [step], t);
    }
  }

  ghost predicate AllIdle(s: State) {
    forall u :: 0 <= u < |s.threads| ==> s.threads[u].Idle?
  }

  lemma CallAndAcquire(s: State, t: nat, op: Op)
    requires Inv(s) && t < |s.threads| && AllIdle(s) && |op.digest| == 20
    ensures Enabled(s, Call(t, op))
    ensures var s1 := Apply(s, Call(t, op)); |s1.chains| > 0 && |s1.owner| == |s1.chains| && Enabled(s1, Acquire(t))
    ensures var s2 := Apply(Apply(s, Call(t, op)), Acquire(t));
      s2.log == s.log + [op] && |s2.threads| == |s.threads| && OnlyActive(s2, t) && Placed(s2.threads[t])
  {
    assert OwnerOk(s, Bucket(s, op));
  }

  /** Any operations can be called one after the other, by any thread: each takes its place in the order and
      returns. */
  lemma {:induction false} AnyOrder(start: State, ops: seq<Op>, t: nat)
    returns (states: seq<State>, steps: seq<Step>)
    requires Initial(start) && t < |start.threads| && forall i :: 0 <= i < |ops| ==> |ops[i].digest| == 20
    ensures IsRun(states, steps) && states[0] == start && states[|steps|].log == ops
    ensures |states[|steps|].threads| == |start.threads| && AllIdle(states[|steps|])
    decreases |ops|
  {
    if ops == [] {
      states, steps := [start], [];
    } else {
      var init, op := ops[..|ops| - 1], ops[|ops| - 1];
      states, steps := AnyOrder(start, init, t);
      states, steps := RunOne(states, steps, t, op);
      assert init + [op] == ops;
    }
  }

  lemma RunOne(states: seq<State>, steps: seq<Step>, t: nat, op: Op)
    returns (states': seq<State>, steps': seq<Step>)
    requires IsRun(states, steps) && t < |states[|steps|].threads| && AllIdle(states[|steps|]) && |op.digest| == 20
    ensures IsRun(states', steps') && states <= states' && AllIdle(states'[|steps'|])
    ensures |states'[|steps'|].threads| == |states[|steps|].threads|
    ensures states'[|steps'|].log == states[|steps|].log + [op]
  {
    var s := states[|steps|];
    RunKeeps(states, steps, |steps|);
    CallAndAcquire(s, t, op);
    var s1 := Apply(s, Call(t, op));
    StepKeeps(s, Call(t, op));
    Extend(states, steps, Call(t, op), s1);
    var s2 := Apply(s1, Acquire(t));
    StepKeeps(s1, Acquire(t));
    Extend(states + [s1], steps + [Call(t, op)], Acquire(t), s2);
    states', steps' := Finish(states + [s1] + [s2], steps + [Call(t, op)] + [Acquire(t)], t);
  }
}
