/** What holds of every run of the server. */
module ServerTheorems {
  import opened Bytes
  import opened Options
  import opened Packets
  import opened RequestHandler
  import opened Server

  ghost predicate IsRun(states: seq<State>, steps: seq<Step>, hash: seq<byte>)
    requires |hash| == 20
  {
    && |states| == |steps| + 1 && Initial(states[0])
    && forall i :: 0 <= i < |steps| ==> IsStep(states[i], steps[i], states[i + 1], hash)
  }

  ghost predicate IsStep(s: State, step: Step, s': State, hash: seq<byte>)
    requires |hash| == 20
  {
    Enabled(s, step) && s' == Apply(s, step, hash)
  }

  lemma {:induction false} RunKeeps(states: seq<State>, steps: seq<Step>, hash: seq<byte>, n: nat)
    requires |hash| == 20 && IsRun(states, steps, hash) && n < |states|
    ensures Inv(states[n], hash)
  {
    if n == 0 {
      InitialInv(states[0], hash);
    } else {
      RunKeeps(states, steps, hash, n - 1);
      assert IsStep(states[n - 1], steps[n - 1], states[n], hash);
      StepKeeps(states[n - 1], steps[n - 1], hash);
    }
  }

  /** No wakeup is lost: unless a signal is due, a queue with requests in it never coexists with all
      workers waiting; and no dequeued request meets a node that is not set up, so none is dropped. */
  lemma NoLostWakeups(states: seq<State>, steps: seq<Step>, hash: seq<byte>, n: nat)
    requires |hash| == 20 && IsRun(states, steps, hash) && n < |states|
    ensures var s := states[n];
      (forall w :: 0 <= w < |s.workers| ==> s.workers[w] == Waiting) ==>
        |s.queue| <= if s.main == Signalling then 1 else 0
    ensures forall w :: !Enabled(states[n], Drop(w))
  {
    RunKeeps(states, steps, hash, n);
    var s := states[n];
    if forall w :: 0 <= w < |s.workers| ==> s.workers[w] == Waiting {
      CountNone(s.workers, Rechecks);
      assert s.workers[0] == Waiting;
    }
    forall w: nat
      ensures !Enabled(s, Drop(w))
    {
      if w < |s.workers| && Holds(s.workers[w]) {
        HoldersAreReady(s, w, hash);
      }
    }
  }

  /** First in, first out, and every received request is pending, queued, with a worker or answered. */
  lemma NothingIsLost(states: seq<State>, steps: seq<Step>, hash: seq<byte>, n: nat)
    requires |hash| == 20 && IsRun(states, steps, hash) && n < |states|
    ensures var s := states[n];
      && s.dequeued + s.queue == Ids(|s.dequeued| + |s.queue|)
      && |s.received| == Pending(s.main) + |s.queue| + Count(s.workers, Holds) + |s.sent|
  {
    RunKeeps(states, steps, hash, n);
    var s := states[n];
    assert |s.dequeued + s.queue| == |s.dequeued| + |s.queue|;
  }

  /** Each request is answered at most once, to its own sender, with the handler's reply. */
  lemma AnsweredOnce(states: seq<State>, steps: seq<Step>, hash: seq<byte>, n: nat, k: nat, j: nat)
    requires |hash| == 20 && IsRun(states, steps, hash) && n < |states|
    requires k < |states[n].sent| && j < |states[n].sent|
    ensures var s, id := states[n], states[n].sent[k].id;
      && id < |s.received|
      && s.sent[k].addr == s.received[id].addr
      && Reply(hash, s.received[id].data) == Some(s.sent[k].bytes)
      && (s.sent[j].id == id ==> j == k)
  {
    RunKeeps(states, steps, hash, n);
    var s := states[n];
    assert SentAt(s, s.sent[k].id, k) && SentAt(s, s.sent[j].id, j);
  }

  // ----- progress -----

  /** Steps that are not the network's or the condition variable's own doing. */
  predicate Internal(step: Step) {
    !step.Receive? && !step.Spurious?
  }

  ghost predicate Quiescent(s: State) {
    forall step :: Internal(step) ==> !Enabled(s, step)
  }

  lemma WaitingOnly(s: State, hash: seq<byte>, w: nat)
    requires |hash| == 20 && Inv(s, hash) && Quiescent(s) && !s.overrun && s.owner == None && s.main == Receiving
    requires w < |s.workers|
    ensures s.workers[w] == Waiting
  {
    assert !Enabled(s, Lock(w)) && !Enabled(s, Send(w)) && !Enabled(s, Step.Overrun(w));
    if Holds(s.workers[w]) {
      HoldersAreReady(s, w, hash);
    }
  }

  lemma OwnerCanMove(s: State, hash: seq<byte>, w: nat) returns (step: Step)
    requires |hash| == 20 && Inv(s, hash) && !s.overrun && s.owner == Some(WorkerThread(w))
    ensures Internal(step) && Enabled(s, step)
  {
    assert InSection(s.workers[w]);
    step := if s.workers[w].Testing? then Test(w) else if s.workers[w].Taking? then Take(w) else Unlock(w);
  }

  lemma NoWorkerOwns(s: State, hash: seq<byte>)
    requires |hash| == 20 && Inv(s, hash) && Quiescent(s) && !s.overrun
    ensures s.owner != None ==> s.owner.value == MainThread
  {
    if s.owner.Some? && s.owner.value.WorkerThread? {
      var step := OwnerCanMove(s, hash, s.owner.value.w);
    }
  }

  lemma SomeSignal(workers: seq<Worker>) returns (woken: set<nat>)
    ensures SignalOk(workers, woken)
  {
    woken := set w: nat | w < |workers| && workers[w] == Waiting;
    forall w: nat | w < |workers| && workers[w] == Waiting
      ensures w in woken
    {
    }
  }

  lemma QuiescentIsFree(s: State, hash: seq<byte>)
    requires |hash| == 20 && Inv(s, hash) && Quiescent(s) && !s.overrun
    ensures s.owner == None && s.main == Receiving
  {
    NoWorkerOwns(s, hash);
    var woken := SomeSignal(s.workers);
    assert !Enabled(s, Spawn) && !Enabled(s, SetHandler) && !Enabled(s, LoadTable) && !Enabled(s, Publish);
    assert !Enabled(s, Link) && !Enabled(s, Signal(woken)) && !Enabled(s, MainUnlock) && !Enabled(s, MainLock);
  }

  /** When no thread can move on its own and no text has outgrown its buffer, every request received
      has been answered. */
  lemma QuiescentIsDone(s: State, hash: seq<byte>, id: nat)
    requires |hash| == 20 && Inv(s, hash) && Quiescent(s) && !s.overrun
    ensures s.queue == [] && |s.sent| == |s.received|
    ensures id < |s.received| ==> exists k :: 0 <= k < |s.sent| && s.sent[k].id == id
  {
    QuiescentIsFree(s, hash);
    forall w | 0 <= w < |s.workers|
      ensures s.workers[w] == Waiting
    {
      WaitingOnly(s, hash, w);
    }
    CountNone(s.workers, Rechecks);
    CountNone(s.workers, Holds);
    assert s.workers[0] == Waiting;
    assert s.queue == [];
    assert s.dequeued + s.queue == s.dequeued;
    if id < |s.received| {
      assert Accounted(s, id);
      assert forall w: nat :: !HeldBy(s, id, w);
      var k: nat :| SentAt(s, id, k);
    }
  }

  /** At rest the buffer has been overrun exactly when some datagram's text does not fit it. */
  lemma OverrunExactly(states: seq<State>, steps: seq<Step>, hash: seq<byte>, n: nat)
    requires |hash| == 20 && IsRun(states, steps, hash) && n < |states| && Quiescent(states[n])
    ensures var s := states[n];
      s.overrun <==> exists id :: 0 <= id < |s.received| && !Survives(s.received[id].data)
  {
    RunKeeps(states, steps, hash, n);
    var s := states[n];
    if !s.overrun {
      forall id | 0 <= id < |s.received|
        ensures Survives(s.received[id].data)
      {
        QuiescentIsDone(s, hash, id);
        var k :| 0 <= k < |s.sent| && s.sent[k].id == id;
        assert Reply(hash, s.received[id].data) == Some(s.sent[k].bytes);
      }
    }
  }

  /** And if all of them fit, the sender of every datagram that starts with a packet has the reply the
      protocol prescribes, byte for byte; of any other datagram, an empty one. */
  lemma QuiescentReplies(states: seq<State>, steps: seq<Step>, hash: seq<byte>, n: nat, id: nat)
    requires |hash| == 20 && IsRun(states, steps, hash) && n < |states| && Quiescent(states[n])
    requires forall i :: 0 <= i < |states[n].received| ==> Survives(states[n].received[i].data)
    requires id < |states[n].received|
    ensures var s := states[n]; var request := s.received[id];
      exists k :: 0 <= k < |s.sent| && s.sent[k].id == id && s.sent[k].addr == request.addr
        && match Decode(request.data)
           case None => s.sent[k].bytes == []
           case Some(p) =>
             s.sent[k].bytes == if p.kind == 5 then [1, 5] + BigEndian(p.reqId, 2) + hash + [0, 4, 80, 79, 78, 71]
                                else [1, 4, 0, 0] + hash + [0, 0]
  {
    RunKeeps(states, steps, hash, n);
    OverrunExactly(states, steps, hash, n);
    var s := states[n];
    QuiescentIsDone(s, hash, id);
    var k :| 0 <= k < |s.sent| && s.sent[k].id == id;
    AnswerBytes(hash, s.received[id].data, s.sent[k].bytes);
  }

  lemma AnswerBytes(hash: seq<byte>, data: seq<byte>, bytes: seq<byte>)
    requires |hash| == 20 && Reply(hash, data) == Some(bytes)
    ensures match Decode(data)
            case None => bytes == []
            case Some(p) => bytes == if p.kind == 5 then [1, 5] + BigEndian(p.reqId, 2) + hash + [0, 4, 80, 79, 78, 71]
                                     else [1, 4, 0, 0] + hash + [0, 0]
  {
    if Decode(data).Some? {
      var p := Decode(data).value;
      EncodeDecode(data);
      var size := |Encode(p)|;
      assert data == Encode(p) + data[size..];
      ReplyLaw(hash, p, data[size..]);
    }
  }

  // ----- termination: only arrivals and spurious wakeups keep the server moving -----

  function Weight(w: Worker): nat {
    match w
    case Waiting => 0
    case Taking(_) => 1
    case Testing(_) => 2
    case Idle => 3
    case Woken => 3
    case Handling(_) => 4
    case NotStarted => 4
    case Unlocking(_) => 5
  }

  function Weigh(ws: seq<Worker>): nat {
    if ws == [] then 0 else Weigh(ws[..|ws| - 1]) + Weight(ws[|ws| - 1])
  }

  lemma {:induction false} WeighUpdate(ws: seq<Worker>, w: nat, x: Worker)
    requires w < |ws|
    ensures Weigh(ws[w := x]) + Weight(ws[w]) == Weigh(ws) + Weight(x)
  {
    var init := ws[..|ws| - 1];
    if w < |ws| - 1 {
      WeighUpdate(init, w, x);
      assert ws[w := x][..|ws| - 1] == init[w := x];
    } else {
      assert ws[w := x][..|ws| - 1] == init;
    }
  }

  lemma {:induction false} WeighWake(ws: seq<Worker>, vs: seq<Worker>)
    requires |vs| == |ws| && forall w :: 0 <= w < |ws| ==> vs[w] == ws[w] || vs[w] == Woken
    ensures Weigh(vs) <= Weigh(ws) + 3 * |ws|
  {
    if ws != [] {
      WeighWake(ws[..|ws| - 1], vs[..|vs| - 1]);
    }
  }

  function MainWeight(m: Main, n: nat): nat {
    match m
    case Creating(_) => 4
    case SettingHandler => 3
    case LoadingCommands => 2
    case Publishing => 1
    case Receiving => 0
    case Releasing => 1
    case Signalling => 2 + 3 * n
    case Linking(_) => 8 + 3 * n
    case Locking(_) => 9 + 3 * n
  }

  /** What the queue and the text buffer still have in store. */
  function Rest(s: State): nat {
    5 * |s.queue| + if s.overrun then 0 else 1
  }

  function Measure(s: State): nat {
    MainWeight(s.main, |s.workers|) + Weigh(s.workers) + Rest(s)
  }

  lemma MeasureOfMain(s: State, step: Step, hash: seq<byte>)
    requires |hash| == 20 && SetUp(s) && Enabled(s, step) && !IsWorkerStep(step)
    ensures var s' := Apply(s, step, hash);
      && (Internal(step) ==> Measure(s') < Measure(s))
      && (step.Receive? ==> Measure(s') == Measure(s) + 9 + 3 * |s.workers|)
  {
    if step.Spawn? {
      WeighUpdate(s.workers, s.main.next, Idle);
    } else if step.Signal? {
      WeighWake(s.workers, Wake(s.workers, step.woken));
    }
  }

  lemma WeightOfWorker(s: State, step: Step, hash: seq<byte>)
    requires |hash| == 20 && Enabled(s, step) && IsWorkerStep(step)
    ensures var s' := Apply(s, step, hash);
      && s'.workers == s.workers[step.w := s'.workers[step.w]] && s'.main == s.main
      && var before, after := Weight(s.workers[step.w]) + Rest(s), Weight(s'.workers[step.w]) + Rest(s');
         if step.Spurious? then after == before + 3 else after < before
  {
  }

  lemma MeasureOfWorker(s: State, step: Step, hash: seq<byte>)
    requires |hash| == 20 && Enabled(s, step) && IsWorkerStep(step)
    ensures var s' := Apply(s, step, hash);
      && |s'.workers| == |s.workers|
      && (Internal(step) ==> Measure(s') < Measure(s))
      && (step.Spurious? ==> Measure(s') == Measure(s) + 3)
  {
    WeightOfWorker(s, step, hash);
    WeighUpdate(s.workers, step.w, Apply(s, step, hash).workers[step.w]);
  }

  function Arrivals(steps: seq<Step>): nat {
    if steps == [] then 0 else Arrivals(steps[..|steps| - 1]) + if steps[|steps| - 1].Receive? then 1 else 0
  }

  function SpuriousWakeups(steps: seq<Step>): nat {
    if steps == [] then 0 else SpuriousWakeups(steps[..|steps| - 1]) + if steps[|steps| - 1].Spurious? then 1 else 0
  }

  /** With `n` workers, the most a run with `a` arrivals and `p` spurious wakeups can take. */
  function Bound(n: nat, a: nat, p: nat): nat {
    5 + 4 * n + (10 + 3 * n) * a + 4 * p
  }

  lemma {:induction false} WeighNotStarted(ws: seq<Worker>)
    requires forall w :: 0 <= w < |ws| ==> ws[w] == NotStarted
    ensures Weigh(ws) == 4 * |ws|
  {
    if ws != [] {
      WeighNotStarted(ws[..|ws| - 1]);
    }
  }

  /** What a step can add to the rest of a run with `n` workers. */
  function Charge(step: Step, n: nat): nat {
    if step.Receive? then 10 + 3 * n else if step.Spurious? then 4 else 0
  }

  lemma StepMeasure(s: State, step: Step, hash: seq<byte>)
    requires |hash| == 20 && SetUp(s) && Enabled(s, step)
    ensures var s' := Apply(s, step, hash);
      && |s'.workers| == |s.workers|
      && 1 + Measure(s') <= Measure(s) + Charge(step, |s.workers|)
  {
    if IsWorkerStep(step) {
      MeasureOfWorker(s, step, hash);
    } else {
      MeasureOfMain(s, step, hash);
    }
  }

  lemma StepOfRun(states: seq<State>, steps: seq<Step>, hash: seq<byte>, m: nat)
    requires |hash| == 20 && IsRun(states, steps, hash) && m < |steps|
    ensures |states[m + 1].workers| == |states[m].workers|
    ensures 1 + Measure(states[m + 1]) <= Measure(states[m]) + Charge(steps[m], |states[m].workers|)
  {
    RunKeeps(states, steps, hash, m);
    assert IsStep(states[m], steps[m], states[m + 1], hash);
    StepMeasure(states[m], steps[m], hash);
  }

  /** What the first `k` steps can add together. */
  function Charges(steps: seq<Step>, k: nat, n: nat): nat
    requires k <= |steps|
  {
    if k == 0 then 0 else Charges(steps, k - 1, n) + Charge(steps[k - 1], n)
  }

  lemma {:induction false} ChargesAre(steps: seq<Step>, k: nat, n: nat)
    requires k <= |steps|
    ensures Charges(steps, k, n) == (10 + 3 * n) * Arrivals(steps[..k]) + 4 * SpuriousWakeups(steps[..k])
  {
    if k > 0 {
      ChargesAre(steps, k - 1, n);
      assert steps[..k][..k - 1] == steps[..k - 1];
      OneMore(10 + 3 * n, Arrivals(steps[..k - 1]));
    }
  }

  lemma OneMore(c: nat, a: nat)
    ensures c * (a + 1) == c * a + c
  {
  }

  lemma ChargesBound(steps: seq<Step>, n: nat)
    ensures 5 + 4 * n + Charges(steps, |steps|, n) == Bound(n, Arrivals(steps), SpuriousWakeups(steps))
  {
    ChargesAre(steps, |steps|, n);
    assert steps[..|steps|] == steps;
  }

  lemma {:induction false} RunIsCharged(states: seq<State>, steps: seq<Step>, hash: seq<byte>, n: nat)
    requires |hash| == 20 && IsRun(states, steps, hash) && n < |states|
    ensures |states[n].workers| == |states[0].workers|
    ensures n + Measure(states[n]) <= 5 + 4 * |states[0].workers| + Charges(steps, n, |states[0].workers|)
  {
    if n == 0 {
      WeighNotStarted(states[0].workers);
    } else {
      RunIsCharged(states, steps, hash, n - 1);
      StepOfRun(states, steps, hash, n - 1);
    }
  }

  /** Only arrivals and spurious wakeups keep the server moving: without them it comes to rest. */
  lemma RunsAreShort(states: seq<State>, steps: seq<Step>, hash: seq<byte>)
    requires |hash| == 20 && IsRun(states, steps, hash)
    ensures |steps| + Measure(states[|steps|]) <= Bound(|states[0].workers|, Arrivals(steps), SpuriousWakeups(steps))
  {
    RunIsCharged(states, steps, hash, |steps|);
    ChargesBound(steps, |states[0].workers|);
  }

  // ----- any traffic can arrive, and is served -----

  lemma Extend(states: seq<State>, steps: seq<Step>, hash: seq<byte>, step: Step, next: State)
    requires |hash| == 20 && IsRun(states, steps, hash) && IsStep(states[|steps|], step, next, hash)
    ensures IsRun(states + [next], steps + [step], hash)
  {
    var states', steps' := states + [next], steps + [step];
    forall i | 0 <= i < |steps'|
      ensures IsStep(states'[i], steps'[i], states'[i + 1], hash)
    {
      if i < |steps| {
        assert IsStep(states[i], steps[i], states[i + 1], hash);
      }
    }
  }

  lemma OnlyReceiveReceives(s: State, step: Step, hash: seq<byte>)
    requires |hash| == 20 && Enabled(s, step)
    ensures Apply(s, step, hash).received == if step.Receive? then s.received + [step.request] else s.received
  {
  }

  /** Every run goes on to one that is at rest and has received nothing more. */
  lemma {:induction false} Settle(states: seq<State>, steps: seq<Step>, hash: seq<byte>)
    returns (states': seq<State>, steps': seq<Step>)
    requires |hash| == 20 && IsRun(states, steps, hash)
    ensures IsRun(states', steps', hash) && states <= states' && steps <= steps'
    ensures Quiescent(states'[|steps'|]) && states'[|steps'|].received == states[|steps|].received
    decreases Measure(states[|steps|])
  {
    var s := states[|steps|];
    if Quiescent(s) {
      states', steps' := states, steps;
    } else {
      var step := SomeStep(s);
      var next := Apply(s, step, hash);
      RunKeeps(states, steps, hash, |steps|);
      StepMeasure(s, step, hash);
      OnlyReceiveReceives(s, step, hash);
      Extend(states, steps, hash, step, next);
      states', steps' := Settle(states + [next], steps + [step], hash);
    }
  }

  lemma SomeStep(s: State) returns (step: Step)
    requires !Quiescent(s)
    ensures Internal(step) && Enabled(s, step)
  {
    step :| Internal(step) && Enabled(s, step);
  }

  /** A server with `n` workers that has not started. */
  function Fresh(n: nat): State
    requires n > 0
  {
    State(Creating(0), seq(n, i => NotStarted), None, [], [], [], [], false, false, false, false)
  }

  /** Whatever datagrams arrive, as long as their texts fit: there is a run that receives them all and comes
      to rest; every such run has then answered each of them (`QuiescentReplies`). */
  lemma {:induction false} AnyTraffic(requests: seq<Request>, n: nat, hash: seq<byte>)
    returns (states: seq<State>, steps: seq<Step>)
    requires |hash| == 20 && n > 0 && forall i :: 0 <= i < |requests| ==> Survives(requests[i].data)
    ensures IsRun(states, steps, hash) && states[0] == Fresh(n)
    ensures Quiescent(states[|steps|]) && states[|steps|].received == requests
  {
    if requests == [] {
      states, steps := Settle([Fresh(n)], [], hash);
    } else {
      var init, last := requests[..|requests| - 1], requests[|requests| - 1];
      states, steps := AnyTraffic(init, n, hash);
      states, steps := ServeOne(states, steps, hash, last);
      assert init + [last] == requests;
    }
  }

  lemma ServeOne(states: seq<State>, steps: seq<Step>, hash: seq<byte>, request: Request)
    returns (states': seq<State>, steps': seq<Step>)
    requires |hash| == 20 && IsRun(states, steps, hash) && Quiescent(states[|steps|])
    requires forall i :: 0 <= i < |states[|steps|].received| ==> Survives(states[|steps|].received[i].data)
    ensures IsRun(states', steps', hash) && states <= states' && Quiescent(states'[|steps'|])
    ensures states'[|steps'|].received == states[|steps|].received + [request]
  {
    var s := states[|steps|];
    RunKeeps(states, steps, hash, |steps|);
    OverrunExactly(states, steps, hash, |steps|);
    QuiescentIsFree(s, hash);
    var next := Apply(s, Receive(request), hash);
    OnlyReceiveReceives(s, Receive(request), hash);
    Extend(states, steps, hash, Receive(request), next);
    states', steps' := Settle(states + [next], steps + [Receive(request)], hash);
  }
}
