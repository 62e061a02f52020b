/**
 The UDP server as a transition system: the main thread, which sets the node up and then receives, and
 any number of workers, around the queue's mutex and condition variable (`src/helpers/xqueue.c`,
 `src/transfer/udp.c`, `src/node/node.c`). Any worker may take the free mutex before one that was woken;
 a wait may end without a signal; a signal may end more than one wait.
 */
module Server {
  import opened Bytes
  import opened Options
  import opened RequestHandler

  datatype Request = Request(addr: nat, data: seq<byte>)

  /** `woken` marks a test of the queue that follows a wait. Requests go by their place of arrival. */
  datatype Worker =
    | NotStarted
    | Idle
    | Testing(woken: bool)
    | Waiting
    | Woken
    | Taking(woken: bool)
    | Unlocking(id: nat)
    | Handling(id: nat)

  datatype Main =
    | Creating(next: nat)
    | SettingHandler
    | LoadingCommands
    | Publishing
    | Receiving
    | Locking(id: nat)
    | Linking(id: nat)
    | Signalling
    | Releasing

  datatype Thread = MainThread | WorkerThread(w: nat)

  datatype Sent = Sent(id: nat, addr: nat, bytes: seq<byte>)

  /** After an overrun of the handler's text buffer nothing more is defined: no step is enabled. */
  datatype State = State(
    main: Main,
    workers: seq<Worker>,
    owner: Option<Thread>,
    queue: seq<nat>,
    received: seq<Request>,
    dequeued: seq<nat>,
    sent: seq<Sent>,
    handlerSet: bool,
    commandsLoaded: bool,
    nodeSet: bool,
    overrun: bool)

  datatype Step =
    | Spawn
    | SetHandler
    | LoadTable
    | Publish
    | Receive(request: Request)
    | MainLock
    | Link
    | Signal(woken: set<nat>)
    | MainUnlock
    | Lock(w: nat)
    | Test(w: nat)
    | Spurious(w: nat)
    | Take(w: nat)
    | Unlock(w: nat)
    | Send(w: nat)
    | Overrun(w: nat)
    | Drop(w: nat)

  predicate Initial(s: State) {
    && |s.workers| > 0 && (forall w :: 0 <= w < |s.workers| ==> s.workers[w] == NotStarted)
    && s.main == Creating(0) && s.owner == None
    && s.queue == [] && s.received == [] && s.dequeued == [] && s.sent == []
    && !s.handlerSet && !s.commandsLoaded && !s.nodeSet && !s.overrun
  }

  /** A signal with nobody waiting does nothing; otherwise it ends at least one wait. */
  predicate SignalOk(workers: seq<Worker>, woken: set<nat>) {
    && (forall w :: w in woken ==> w < |workers| && workers[w] == Waiting)
    && (woken == {} ==> forall w :: 0 <= w < |workers| ==> workers[w] != Waiting)
  }

  /** The worker is about to call the handler, which is there. */
  predicate Calls(s: State, me: Worker) {
    me.Handling? && me.id < |s.received| && s.handlerSet && s.commandsLoaded && s.nodeSet
  }

  predicate WorkerEnabled(s: State, w: nat, step: Step) {
    && w < |s.workers|
    && var me := s.workers[w];
       match step
       case Lock(_) => (me == Idle || me == Woken) && s.owner == None
       case Test(_) => me.Testing?
       case Spurious(_) => me == Waiting
       case Take(_) => me.Taking? && s.queue != []
       case Unlock(_) => me.Unlocking?
       case Send(_) => Calls(s, me) && Survives(s.received[me.id].data)
       case Overrun(_) => Calls(s, me) && !Survives(s.received[me.id].data)
       case Drop(_) => me.Handling? && !s.handlerSet
       case _ => false
  }

  predicate Enabled(s: State, step: Step) {
    !s.overrun && ThreadEnabled(s, step)
  }

  predicate ThreadEnabled(s: State, step: Step) {
    match step
    case Spawn => s.main.Creating? && s.main.next < |s.workers|
    case SetHandler => s.main == SettingHandler
    case LoadTable => s.main == LoadingCommands
    case Publish => s.main == Publishing
    case Receive(_) => s.main == Receiving
    case MainLock => s.main.Locking? && s.owner == None
    case Link => s.main.Linking?
    case Signal(woken) => s.main == Signalling && SignalOk(s.workers, woken)
    case MainUnlock => s.main == Releasing
    case Lock(w) => WorkerEnabled(s, w, step)
    case Test(w) => WorkerEnabled(s, w, step)
    case Spurious(w) => WorkerEnabled(s, w, step)
    case Take(w) => WorkerEnabled(s, w, step)
    case Unlock(w) => WorkerEnabled(s, w, step)
    case Send(w) => WorkerEnabled(s, w, step)
    case Overrun(w) => WorkerEnabled(s, w, step)
    case Drop(w) => WorkerEnabled(s, w, step)
  }

  function Wake(workers: seq<Worker>, woken: set<nat>): (r: seq<Worker>)
    ensures |r| == |workers|
    ensures forall w :: 0 <= w < |workers| ==> r[w] == if w in woken then Woken else workers[w]
  {
    seq(|workers|, w requires 0 <= w < |workers| => if w in woken then Woken else workers[w])
  }

  function Apply(s: State, step: Step, hash: seq<byte>): State
    requires Enabled(s, step) && |hash| == 20
  {
    match step
    case Spawn =>
      var k := s.main.next;
      s.(workers := s.workers[k := Idle],
         main := if k + 1 == |s.workers| then SettingHandler else Creating(k + 1))
    case SetHandler => s.(handlerSet := true, main := LoadingCommands)
    case LoadTable => s.(commandsLoaded := true, main := Publishing)
    case Publish => s.(nodeSet := true, main := Receiving)
    case Receive(request) => s.(received := s.received + [request], main := Locking(|s.received|))
    case MainLock => s.(owner := Some(MainThread), main := Linking(s.main.id))
    case Link => s.(queue := s.queue + [s.main.id], main := Signalling)
    case Signal(woken) => s.(workers := Wake(s.workers, woken), main := Releasing)
    case MainUnlock => s.(owner := None, main := Receiving)
    case Lock(w) => s.(owner := Some(WorkerThread(w)), workers := s.workers[w := Testing(s.workers[w] == Woken)])
    case Test(w) =>
      if s.queue == [] then s.(owner := None, workers := s.workers[w := Waiting])
      else s.(workers := s.workers[w := Taking(s.workers[w].woken)])
    case Spurious(w) => s.(workers := s.workers[w := Woken])
    case Take(w) =>
      s.(queue := s.queue[1..], dequeued := s.dequeued + [s.queue[0]], workers := s.workers[w := Unlocking(s.queue[0])])
    case Unlock(w) => s.(owner := None, workers := s.workers[w := Handling(s.workers[w].id)])
    case Send(w) =>
      var id := s.workers[w].id;
      var request := s.received[id];
      s.(sent := s.sent + [Sent(id, request.addr, Reply(hash, request.data).value)], workers := s.workers[w := Idle])
    case Overrun(_) => s.(overrun := true)
    case Drop(w) => s.(workers := s.workers[w := Idle])
  }

  // ----- counting workers -----

  function Count(ws: seq<Worker>, p: Worker -> bool): (n: nat)
    ensures n <= |ws|
  {
    if ws == [] then 0 else Count(ws[..|ws| - 1], p) + if p(ws[|ws| - 1]) then 1 else 0
  }

  lemma {:induction false} CountUpdate(ws: seq<Worker>, p: Worker -> bool, w: nat, x: Worker)
    requires w < |ws|
    ensures Count(ws[w := x], p) + (if p(ws[w]) then 1 else 0) == Count(ws, p) + (if p(x) then 1 else 0)
  {
    var init := ws[..|ws| - 1];
    if w < |ws| - 1 {
      CountUpdate(init, p, w, x);
      assert ws[w := x][..|ws| - 1] == init[w := x];
    } else {
      assert ws[w := x][..|ws| - 1] == init;
    }
  }

  lemma {:induction false} CountNone(ws: seq<Worker>, p: Worker -> bool)
    requires forall w :: 0 <= w < |ws| ==> !p(ws[w])
    ensures Count(ws, p) == 0
  {
    if ws != [] {
      CountNone(ws[..|ws| - 1], p);
    }
  }

  lemma {:induction false} CountGrows(ws: seq<Worker>, vs: seq<Worker>, p: Worker -> bool)
    requires |ws| == |vs| && forall w :: 0 <= w < |ws| ==> p(ws[w]) ==> p(vs[w])
    ensures Count(ws, p) <= Count(vs, p)
    ensures (exists w :: 0 <= w < |ws| && !p(ws[w]) && p(vs[w])) ==> Count(ws, p) < Count(vs, p)
  {
    if ws != [] {
      CountGrows(ws[..|ws| - 1], vs[..|vs| - 1], p);
    }
  }

  /** Woken, and not yet through with the queue. */
  predicate Rechecks(w: Worker) {
    w == Woken || w == Testing(true) || w == Taking(true)
  }

  predicate Holds(w: Worker) {
    w.Unlocking? || w.Handling?
  }

  // ----- the invariant -----

  predicate InSection(w: Worker) {
    w.Testing? || w.Taking? || w.Unlocking?
  }

  predicate MainInSection(m: Main) {
    m.Linking? || m.Signalling? || m.Releasing?
  }

  /** The mutex belongs to the one thread between its lock and its unlock or wait. */
  ghost predicate Exclusive(s: State) {
    && (MainInSection(s.main) <==> s.owner == Some(MainThread))
    && (forall w :: 0 <= w < |s.workers| ==> (InSection(s.workers[w]) <==> s.owner == Some(WorkerThread(w))))
    && (s.owner.Some? && s.owner.value.WorkerThread? ==> s.owner.value.w < |s.workers|)
  }

  /** While somebody waits, every queued request has a woken worker on its way to it, save the one
      whose signal is due. */
  ghost predicate NoLostWakeup(s: State) {
    (exists w :: 0 <= w < |s.workers| && s.workers[w] == Waiting) ==>
      |s.queue| <= Count(s.workers, Rechecks) + if s.main == Signalling then 1 else 0
  }

  ghost predicate TakersFindWork(s: State) {
    forall w :: 0 <= w < |s.workers| && s.workers[w].Taking? ==> s.queue != []
  }

  function Ids(n: nat): (ids: seq<nat>)
    ensures |ids| == n && forall i :: 0 <= i < n ==> ids[i] == i
  {
    seq(n, i => i)
  }

  function Pending(m: Main): nat {
    if m.Locking? || m.Linking? then 1 else 0
  }

  /** Requests leave the queue in the order of their arrival, and none is lost on the way. */
  ghost predicate InOrder(s: State) {
    && Pending(s.main) <= |s.received|
    && s.dequeued + s.queue == Ids(|s.received| - Pending(s.main))
    && ((s.main.Locking? || s.main.Linking?) ==> s.main.id == |s.received| - 1)
  }

  ghost predicate HeldBy(s: State, id: nat, w: nat) {
    w < |s.workers| && Holds(s.workers[w]) && s.workers[w].id == id
  }

  ghost predicate SentAt(s: State, id: nat, k: nat) {
    k < |s.sent| && s.sent[k].id == id
  }

  ghost predicate Accounted(s: State, id: nat) {
    (exists w: nat :: HeldBy(s, id, w)) || (exists k: nat :: SentAt(s, id, k))
  }

  /** Every dequeued request is with one worker, or has been answered once. */
  ghost predicate OneFate(s: State) {
    && (forall id: nat, w: nat, v: nat :: HeldBy(s, id, w) && HeldBy(s, id, v) ==> w == v)
    && (forall id: nat, k: nat, j: nat :: SentAt(s, id, k) && SentAt(s, id, j) ==> k == j)
    && (forall id: nat, w: nat, k: nat :: HeldBy(s, id, w) ==> !SentAt(s, id, k))
    && (forall id: nat, w: nat :: HeldBy(s, id, w) ==> id < |s.dequeued|)
    && (forall id: nat, k: nat :: SentAt(s, id, k) ==> id < |s.dequeued|)
    && (forall id: nat :: id < |s.dequeued| ==> Accounted(s, id))
    && |s.dequeued| == Count(s.workers, Holds) + |s.sent|
  }

  /** What was sent went to the sender of its request, and is the handler's reply to it. */
  ghost predicate Answers(s: State, hash: seq<byte>)
    requires |hash| == 20
  {
    forall k :: 0 <= k < |s.sent| ==>
      s.sent[k].id < |s.received|
      && s.sent[k].addr == s.received[s.sent[k].id].addr
      && Reply(hash, s.received[s.sent[k].id].data) == Some(s.sent[k].bytes)
  }

  /** Only a datagram whose text does not fit overruns the buffer. */
  ghost predicate Cause(s: State) {
    s.overrun ==> exists id :: 0 <= id < |s.received| && !Survives(s.received[id].data)
  }

  predicate Ready(m: Main) {
    m.Receiving? || m.Locking? || m.Linking? || m.Signalling? || m.Releasing?
  }

  /** Nothing is received before the node is set up. */
  ghost predicate SetUp(s: State) {
    && |s.workers| > 0
    && (s.main.Creating? ==> s.main.next < |s.workers|)
    && (forall w :: 0 <= w < |s.workers| ==> (s.workers[w] == NotStarted <==> s.main.Creating? && w >= s.main.next))
    && (s.main.LoadingCommands? || s.main.Publishing? || Ready(s.main) ==> s.handlerSet)
    && (s.main.Publishing? || Ready(s.main) ==> s.commandsLoaded)
    && (Ready(s.main) ==> s.nodeSet)
    && (!Ready(s.main) ==> s.received == [])
  }

  ghost predicate Inv(s: State, hash: seq<byte>)
    requires |hash| == 20
  {
    && SetUp(s) && Exclusive(s) && TakersFindWork(s) && InOrder(s) && NoLostWakeup(s)
    && OneFate(s) && Answers(s, hash) && Cause(s)
  }

  lemma InitialInv(s: State, hash: seq<byte>)
    requires Initial(s) && |hash| == 20
    ensures Inv(s, hash)
  {
    CountNone(s.workers, Holds);
  }

  // ----- every step keeps the invariant -----

  predicate IsWorkerStep(step: Step) {
    || step.Lock? || step.Test? || step.Spurious? || step.Take? || step.Unlock?
    || step.Send? || step.Overrun? || step.Drop?
  }

  /** A worker's step moves that worker, and leaves the others and the main thread where they are. */
  lemma OneWorkerMoves(s: State, step: Step, hash: seq<byte>)
    requires |hash| == 20 && Enabled(s, step) && IsWorkerStep(step)
    ensures var s' := Apply(s, step, hash);
      && step.w < |s.workers| && |s'.workers| == |s.workers|
      && (forall v :: 0 <= v < |s.workers| && v != step.w ==> s'.workers[v] == s.workers[v])
      && s.workers[step.w] != NotStarted && s'.workers[step.w] != NotStarted
      && s'.main == s.main && s'.received == s.received
      && s'.handlerSet == s.handlerSet && s'.commandsLoaded == s.commandsLoaded && s'.nodeSet == s.nodeSet
  {
  }

  /** And it takes and gives up the mutex as its section begins and ends. */
  lemma OwnerFollows(s: State, step: Step, hash: seq<byte>)
    requires |hash| == 20 && Exclusive(s) && Enabled(s, step) && IsWorkerStep(step)
    ensures var s', me := Apply(s, step, hash), Some(WorkerThread(step.w));
      && (InSection(s'.workers[step.w]) <==> s'.owner == me)
      && (s'.owner == s.owner || (s.owner == None && s'.owner == me) || (s.owner == me && s'.owner == None))
  {
  }

  lemma SetUpKeptByWorker(s: State, step: Step, hash: seq<byte>)
    requires |hash| == 20 && SetUp(s) && Enabled(s, step) && IsWorkerStep(step)
    ensures SetUp(Apply(s, step, hash))
  {
    OneWorkerMoves(s, step, hash);
  }

  lemma SetUpKept(s: State, step: Step, hash: seq<byte>)
    requires |hash| == 20 && SetUp(s) && Enabled(s, step)
    ensures SetUp(Apply(s, step, hash))
  {
    if IsWorkerStep(step) {
      SetUpKeptByWorker(s, step, hash);
    }
  }

  lemma ExclusiveKeptByWorker(s: State, step: Step, hash: seq<byte>)
    requires |hash| == 20 && Exclusive(s) && Enabled(s, step) && IsWorkerStep(step)
    ensures Exclusive(Apply(s, step, hash))
  {
    OneWorkerMoves(s, step, hash);
    OwnerFollows(s, step, hash);
  }

  lemma ExclusiveKept(s: State, step: Step, hash: seq<byte>)
    requires |hash| == 20 && SetUp(s) && Exclusive(s) && Enabled(s, step)
    ensures Exclusive(Apply(s, step, hash))
  {
    if IsWorkerStep(step) {
      ExclusiveKeptByWorker(s, step, hash);
    }
  }

  lemma TakersKept(s: State, step: Step, hash: seq<byte>)
    requires |hash| == 20 && Exclusive(s) && TakersFindWork(s) && Enabled(s, step)
    ensures TakersFindWork(Apply(s, step, hash))
  {
  }

  lemma InOrderKept(s: State, step: Step, hash: seq<byte>)
    requires |hash| == 20 && InOrder(s) && Enabled(s, step)
    ensures InOrder(Apply(s, step, hash))
  {
    var s' := Apply(s, step, hash);
    if step.Link? {
      assert s'.dequeued + s'.queue == (s.dequeued + s.queue) + [s.main.id];
    } else if step.Take? {
      assert s'.dequeued + s'.queue == s.dequeued + s.queue;
    }
  }

  lemma AnswersKept(s: State, step: Step, hash: seq<byte>)
    requires |hash| == 20 && Answers(s, hash) && Enabled(s, step)
    ensures Answers(Apply(s, step, hash), hash)
  {
  }

  lemma CauseKept(s: State, step: Step, hash: seq<byte>)
    requires |hash| == 20 && Cause(s) && Enabled(s, step)
    ensures Cause(Apply(s, step, hash))
  {
    if step.Overrun? {
      assert !Survives(s.received[s.workers[step.w].id].data);
    }
  }

  // The wakeup count, step by step.

  ghost predicate SomeoneWaits(ws: seq<Worker>) {
    exists w :: 0 <= w < |ws| && ws[w] == Waiting
  }

  /** One worker moves on, from `before` to `after`. */
  lemma OneWorkerWakeups(s: State, s': State, w: nat)
    requires NoLostWakeup(s) && w < |s.workers| && |s'.workers| == |s.workers|
    requires s'.workers == s.workers[w := s'.workers[w]]
    requires (s'.main == Signalling) == (s.main == Signalling)
    requires s'.workers[w] == Waiting ==> s'.queue == []
    requires var lost := if Rechecks(s.workers[w]) && !Rechecks(s'.workers[w]) then 1 else 0;
      s'.queue == [] || |s'.queue| + lost <= |s.queue|
    ensures NoLostWakeup(s')
  {
    CountUpdate(s.workers, Rechecks, w, s'.workers[w]);
    if SomeoneWaits(s'.workers) && s'.queue != [] {
      var v :| 0 <= v < |s'.workers| && s'.workers[v] == Waiting;
      assert s.workers[v] == Waiting;
    }
  }

  lemma SignalWakeups(s: State, woken: set<nat>, hash: seq<byte>)
    requires |hash| == 20 && NoLostWakeup(s) && Enabled(s, Signal(woken))
    ensures NoLostWakeup(Apply(s, Signal(woken), hash))
  {
    var s' := Apply(s, Signal(woken), hash);
    if SomeoneWaits(s'.workers) {
      var v :| 0 <= v < |s'.workers| && s'.workers[v] == Waiting;
      assert s.workers[v] == Waiting;
      assert woken != {};
      var w :| w in woken;
      assert !Rechecks(s.workers[w]) && Rechecks(s'.workers[w]);
      CountGrows(s.workers, s'.workers, Rechecks);
    }
  }

  lemma WakeupsKept(s: State, step: Step, hash: seq<byte>)
    requires |hash| == 20 && Enabled(s, step)
    requires NoLostWakeup(s) && Exclusive(s) && SetUp(s)
    ensures NoLostWakeup(Apply(s, step, hash))
  {
    var s' := Apply(s, step, hash);
    if IsWorkerStep(step) {
      WorkerWakeups(s, step, hash);
      OneWorkerWakeups(s, s', step.w);
    } else if step.Spawn? {
      OneWorkerWakeups(s, s', s.main.next);
    } else if step.Signal? {
      SignalWakeups(s, step.woken, hash);
    }
  }

  /** What a worker's step can do to the wakeup count. */
  lemma WorkerWakeups(s: State, step: Step, hash: seq<byte>)
    requires |hash| == 20 && Enabled(s, step) && IsWorkerStep(step)
    ensures var s', w := Apply(s, step, hash), step.w;
      && w < |s.workers| && s'.workers == s.workers[w := s'.workers[w]] && s'.main == s.main
      && (s'.workers[w] == Waiting ==> s'.queue == [])
      && var lost := if Rechecks(s.workers[w]) && !Rechecks(s'.workers[w]) then 1 else 0;
         s'.queue == [] || |s'.queue| + lost <= |s.queue|
  {
  }

  // The fate of each request.

  /** No request changes hands. */
  ghost predicate Quiet(s: State, s': State) {
    && |s'.workers| == |s.workers| && s'.sent == s.sent && s'.dequeued == s.dequeued
    && forall w :: 0 <= w < |s.workers| ==>
         && Holds(s'.workers[w]) == Holds(s.workers[w])
         && (Holds(s.workers[w]) ==> s'.workers[w].id == s.workers[w].id)
  }

  lemma QuietStep(s: State, step: Step, hash: seq<byte>)
    requires |hash| == 20 && SetUp(s) && Enabled(s, step) && !step.Take? && !step.Send? && !step.Drop?
    ensures Quiet(s, Apply(s, step, hash))
  {
  }

  lemma QuietFate(s: State, s': State)
    requires OneFate(s) && Quiet(s, s')
    ensures OneFate(s')
  {
    CountGrows(s.workers, s'.workers, Holds);
    CountGrows(s'.workers, s.workers, Holds);
    assert forall id: nat, w: nat :: HeldBy(s', id, w) == HeldBy(s, id, w);
    assert forall id: nat, k: nat :: SentAt(s', id, k) == SentAt(s, id, k);
    forall id: nat | id < |s'.dequeued|
      ensures Accounted(s', id)
    {
      assert Accounted(s, id);
    }
  }

  lemma TakeFate(s: State, w: nat, hash: seq<byte>)
    requires |hash| == 20 && OneFate(s) && InOrder(s) && Enabled(s, Take(w))
    ensures OneFate(Apply(s, Take(w), hash))
  {
    var s', latest := Apply(s, Take(w), hash), |s.dequeued|;
    assert s.queue[0] == (s.dequeued + s.queue)[latest] == latest;
    CountUpdate(s.workers, Holds, w, s'.workers[w]);
    assert forall id: nat, v: nat :: HeldBy(s', id, v) <==> HeldBy(s, id, v) || (id == latest && v == w);
    assert forall id: nat, k: nat :: SentAt(s', id, k) == SentAt(s, id, k);
    assert HeldBy(s', latest, w);
    forall id: nat | id < |s'.dequeued|
      ensures Accounted(s', id)
    {
      assert id < latest ==> Accounted(s, id);
    }
  }

  lemma SendFate(s: State, w: nat, hash: seq<byte>)
    requires |hash| == 20 && OneFate(s) && Enabled(s, Send(w))
    ensures OneFate(Apply(s, Send(w), hash))
  {
    var s', done, last := Apply(s, Send(w), hash), s.workers[w].id, |s.sent|;
    CountUpdate(s.workers, Holds, w, Idle);
    assert HeldBy(s, done, w);
    assert forall id: nat, v: nat :: HeldBy(s', id, v) <==> HeldBy(s, id, v) && v != w;
    assert forall id: nat, k: nat :: SentAt(s', id, k) <==> SentAt(s, id, k) || (id == done && k == last);
    assert SentAt(s', done, last);
    forall id: nat | id < |s'.dequeued|
      ensures Accounted(s', id)
    {
      assert Accounted(s, id);
      if v: nat :| HeldBy(s, id, v) {
        assert v == w || HeldBy(s', id, v);
      } else {
        var k: nat :| SentAt(s, id, k);
        assert SentAt(s', id, k);
      }
    }
  }

  /** A worker that holds a request runs after the node is set up. */
  lemma HoldersAreReady(s: State, w: nat, hash: seq<byte>)
    requires |hash| == 20 && SetUp(s) && InOrder(s) && OneFate(s)
    requires w < |s.workers| && Holds(s.workers[w])
    ensures s.handlerSet && s.commandsLoaded && s.nodeSet && s.workers[w].id < |s.received|
  {
    assert HeldBy(s, s.workers[w].id, w);
    assert |s.dequeued| <= |s.dequeued + s.queue| <= |s.received|;
  }

  lemma FateKept(s: State, step: Step, hash: seq<byte>)
    requires |hash| == 20 && Enabled(s, step)
    requires SetUp(s) && InOrder(s) && OneFate(s)
    ensures OneFate(Apply(s, step, hash))
  {
    if step.Take? {
      TakeFate(s, step.w, hash);
    } else if step.Send? {
      SendFate(s, step.w, hash);
    } else if step.Drop? {
      HoldersAreReady(s, step.w, hash);
    } else {
      QuietStep(s, step, hash);
      QuietFate(s, Apply(s, step, hash));
    }
  }

  lemma StepKeeps(s: State, step: Step, hash: seq<byte>)
    requires |hash| == 20 && Inv(s, hash) && Enabled(s, step)
    ensures Inv(Apply(s, step, hash), hash)
  {
    SetUpKept(s, step, hash);
    ExclusiveKept(s, step, hash);
    TakersKept(s, step, hash);
    InOrderKept(s, step, hash);
    WakeupsKept(s, step, hash);
    FateKept(s, step, hash);
    AnswersKept(s, step, hash);
    CauseKept(s, step, hash);
  }
}
