/** The proof-of-work queue as a linked list (powmgr/pow.go). */
module PowQueue {
  class Node<T> {
    const order: T
    var next: Node?<T>

    constructor (order: T)
      ensures this.order == order && next == null
    {
      this.order := order;
      next := null;
    }
  }

  datatype Dequeued<+T> = Nothing | Order(order: T)

  /** The orders at even positions. */
  function EveryOther<T>(q: seq<T>): seq<T> {
    if q == [] then [] else if |q| == 1 then [q[0]] else [q[0]] + EveryOther(q[2..])
  }

  function Rest<T>(q: seq<T>): seq<T> {
    if |q| > 2 then q[2..] else []
  }

  lemma EveryOtherStep<T>(q: seq<T>)
    ensures EveryOther(q) == if q == [] then [] else [q[0]] + EveryOther(Rest(q))
  {
  }

  /** The k-th order worked on is the one at position 2 k. */
  lemma {:induction false} EveryOtherAt<T>(q: seq<T>)
    ensures |EveryOther(q)| == (|q| + 1) / 2
    ensures forall k :: 0 <= k < |EveryOther(q)| ==> EveryOther(q)[k] == q[2 * k]
  {
    if |q| > 1 {
      EveryOtherAt(q[2..]);
      forall k | 0 <= k < |EveryOther(q)| ensures EveryOther(q)[k] == q[2 * k] {
        if k > 0 { assert EveryOther(q)[k] == EveryOther(q[2..])[k - 1] == q[2..][2 * (k - 1)]; }
      }
    }
  }

  /** The pointer `tail` to the next-field of a node is kept as that node; after
      the list has run empty it is stale. */
  class Queue<T> {
    var head: Node?<T>
    var tail: Node?<T>

    ghost var nodes: seq<Node<T>>

    ghost predicate Valid()
      reads this, nodes
    {
      && (forall i, j :: 0 <= i < j < |nodes| ==> nodes[i] != nodes[j])
      && (forall i :: 0 <= i < |nodes| - 1 ==> nodes[i].next == nodes[i + 1])
      && (nodes != [] ==> nodes[|nodes| - 1].next == null)
      && head == (if nodes == [] then null else nodes[0])
      && (nodes != [] ==> tail == nodes[|nodes| - 1])
    }

    /** The orders in the queue, first in first out. */
    ghost function Contents(): (q: seq<T>)
      reads this
      ensures |q| == |nodes| && forall i :: 0 <= i < |nodes| ==> q[i] == nodes[i].order
    {
      seq(|nodes|, i requires 0 <= i < |nodes| reads this => nodes[i].order)
    }

    constructor ()
      ensures Valid() && Contents() == [] && nodes == []
    {
      head, tail, nodes := null, null, [];
    }

    /** Adds at the end; a worker is started exactly if the queue was empty. */
    method Enqueue(p: T) returns (startWorker: bool)
      requires Valid()
      modifies this, nodes
      ensures Valid() && Contents() == old(Contents()) + [p]
      ensures startWorker <==> old(Contents()) == []
      ensures forall n :: n in nodes ==> n in old(nodes) || fresh(n)
    {
      var node := new Node(p);
      if head == null {
        tail := node;
        head := node;
        nodes := [node];
        return true;
      }
      tail.next := node;
      tail := node;
      nodes := nodes + [node];
      startWorker := false;
    }

    /** Takes from the front. */
    method Dequeue() returns (r: Dequeued<T>)
      requires Valid()
      modifies this
      ensures Valid()
      ensures old(Contents()) == [] ==> r == Nothing && Contents() == []
      ensures old(Contents()) != [] ==> r == Order(old(Contents())[0]) && Contents() == old(Contents())[1..]
      ensures forall n :: n in nodes ==> n in old(nodes)
    {
      if head == null {
        return Nothing;
      }
      ghost var ns := nodes;
      assert |ns| > 1 ==> ns[0].next == ns[1];
      r := Order(head.order);
      head := head.next;
      nodes := nodes[1..];
      forall i | 0 <= i < |nodes| - 1 ensures nodes[i].next == nodes[i + 1] {
        assert ns[i + 1].next == ns[i + 1 + 1];
      }
    }

    /** One round: the order to work on, and the second dequeue after it. */
    method Round() returns (order: Dequeued<T>)
      requires Valid()
      modifies this
      ensures Valid() && Contents() == Rest(old(Contents()))
      ensures old(Contents()) == [] ==> order == Nothing && Contents() == []
      ensures old(Contents()) != [] ==> order == Order(old(Contents())[0]) && |nodes| < old(|nodes|)
    {
      order := Dequeue();
      if order.Order? {
        var lost := Dequeue();
      }
    }

    /** The worker's loop when nobody else touches the queue. Each round also
        takes the order after the one worked on, so every second one is lost. */
    method Work() returns (completed: seq<T>)
      requires Valid()
      modifies this
      ensures Valid() && Contents() == []
      ensures completed == EveryOther(old(Contents()))
    {
      hide EveryOther, Rest;
      completed := [];
      ghost var start := Contents();
      while true
        invariant Valid()
        invariant EveryOther(start) == completed + EveryOther(Contents())
        decreases |nodes|
      {
        EveryOtherStep(Contents());
        var order := Round();
        if order.Nothing? {
          return;
        }
        completed := completed + [order.order];
      }
    }
  }
}
