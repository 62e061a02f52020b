/** The work queue of `src/helpers/xqueue.c` on the heap: a linked list behind a dummy node. */
module Queue {
  import opened Options

  class Node<T> {
    const data: Option<T>
    var next: Node?<T>

    constructor (data: Option<T>)
      ensures this.data == data && next == null
    {
      this.data, next := data, null;
    }
  }

  ghost function DataOf<T>(nodes: seq<Node<T>>): (items: seq<T>)
    requires forall i :: 0 <= i < |nodes| ==> nodes[i].data.Some?
    ensures |items| == |nodes|
    ensures forall i :: 0 <= i < |nodes| ==> items[i] == nodes[i].data.value
  {
    seq(|nodes|, i requires 0 <= i < |nodes| => nodes[i].data.value)
  }

  class XQueue<T> {
    var head: Node<T>
    var tail: Node<T>

    /** The nodes behind the dummy. */
    ghost var nodes: seq<Node<T>>

    ghost predicate Valid()
      reads this, head, nodes
    {
      && head !in nodes
      && (forall i, j :: 0 <= i < j < |nodes| ==> nodes[i] != nodes[j])
      && (forall i :: 0 <= i < |nodes| ==> nodes[i].data.Some?)
      && head.next == (if nodes == [] then null else nodes[0])
      && (forall i {:trigger nodes[i].next} ::
            0 <= i < |nodes| ==> nodes[i].next == if i + 1 < |nodes| then nodes[i + 1] else null)
      && tail == (if nodes == [] then head else nodes[|nodes| - 1])
    }

    ghost function Items(): seq<T>
      requires Valid()
      reads this, head, nodes
    {
      DataOf(nodes)
    }

    /** `xqueue_new`. */
    constructor ()
      ensures Valid() && Items() == [] && fresh(head) && nodes == []
    {
      var dummy := new Node<T>(None);
      head, tail, nodes := dummy, dummy, [];
    }

    /** What `xqueue_enqueue` does under the lock. */
    method Enqueue(data: T)
      requires Valid()
      modifies this, head, nodes
      ensures Valid() && head == old(head) && Items() == old(Items()) + [data]
      ensures forall n :: n in nodes ==> n in old(nodes) || fresh(n)
    {
      var node := new Node<T>(Some(data));
      tail.next := node;
      tail := node;
      nodes := nodes + [node];
    }

    /** The test of the wait loop. */
    method IsEmpty() returns (empty: bool)
      requires Valid()
      ensures empty <==> Items() == []
      ensures empty <==> tail == head
    {
      empty := head.next == null;
    }

    /** What `xqueue_dequeue` does once the wait loop has ended. */
    method Dequeue() returns (output: T)
      requires Valid() && Items() != []
      modifies this, head
      ensures Valid() && head == old(head)
      ensures [output] + Items() == old(Items())
      ensures forall n :: n in nodes ==> n in old(nodes)
    {
      var node := head.next;
      output := node.data.value;
      head.next := node.next;
      if tail == node {
        tail := head;
      }
      nodes := nodes[1..];
    }
  }
}
