/** The queue of the server's transition system, held by the linked list of `src/helpers/xqueue.c`. */
module ServerQueue {
  import opened Bytes
  import opened Options
  import opened Queue
  import opened Server
  import opened ServerTheorems

  /** What a step leaves in the queue. */
  lemma QueueAfter(s: State, step: Step, hash: seq<byte>, s': State)
    requires |hash| == 20 && IsStep(s, step, s', hash)
    ensures s'.queue == if step.Link? then s.queue + [s.main.id] else if step.Take? then s.queue[1..] else s.queue
  {
  }

  /** Who takes what, and who waits. */
  lemma WorkerAfter(s: State, step: Step, hash: seq<byte>, s': State)
    requires |hash| == 20 && IsStep(s, step, s', hash) && (step.Take? || step.Test?)
    ensures step.w < |s'.workers|
    ensures step.Take? ==> s.queue != [] && s'.workers[step.w] == Unlocking(s.queue[0])
    ensures step.Test? ==> (s'.workers[step.w] == Waiting <==> s.queue == [])
  {
  }

  /** What a step of the server does to the linked list: the main thread enqueues, a worker looks whether
      it must wait, a worker dequeues; no other step touches it. */
  method PerformStep(q: XQueue<nat>, s: State, step: Step, ghost hash: seq<byte>, ghost s': State)
    returns (taken: Option<nat>, waits: bool)
    requires |hash| == 20 && IsStep(s, step, s', hash) && q.Valid() && q.Items() == s.queue
    modifies q, q.head, q.nodes
    ensures q.Valid() && q.Items() == s'.queue
    ensures q.head == old(q.head) && forall n :: n in q.nodes ==> n in old(q.nodes) || fresh(n)
    ensures step.Take? ==> taken.Some? && step.w < |s'.workers| && s'.workers[step.w] == Unlocking(taken.value)
    ensures step.Test? ==> step.w < |s'.workers| && (waits <==> s'.workers[step.w] == Waiting)
  {
    taken, waits := None, false;
    QueueAfter(s, step, hash, s');
    if step.Link? {
      q.Enqueue(s.main.id);
    } else if step.Test? {
      WorkerAfter(s, step, hash, s');
      waits := q.IsEmpty();
    } else if step.Take? {
      WorkerAfter(s, step, hash, s');
      var id := q.Dequeue();
      taken := Some(id);
      FirstAndRest(id, q.Items(), s.queue);
    }
  }

  lemma FirstAndRest(id: nat, rest: seq<nat>, all: seq<nat>)
    requires [id] + rest == all
    ensures all[0] == id && all[1..] == rest
  {
  }

  /** In every state of every run the list behind the dummy head is the queue, and `tail` its last node. */
  method ReplayQueue(states: seq<State>, steps: seq<Step>, hash: seq<byte>) returns (q: XQueue<nat>)
    requires |hash| == 20 && IsRun(states, steps, hash)
    ensures q.Valid() && q.Items() == states[|steps|].queue
  {
    q := new XQueue<nat>();
    for i := 0 to |steps|
      invariant q.Valid() && q.Items() == states[i].queue
      invariant fresh(q) && fresh(q.head) && forall k :: 0 <= k < |q.nodes| ==> fresh(q.nodes[k])
    {
      assert IsStep(states[i], steps[i], states[i + 1], hash);
      ghost var before := q.nodes;
      var taken, waits := PerformStep(q, states[i], steps[i], hash, states[i + 1]);
      forall k | 0 <= k < |q.nodes|
        ensures fresh(q.nodes[k])
      {
        assert q.nodes[k] in q.nodes;
        assert forall n :: n in before ==> fresh(n);
      }
    }
  }
}
