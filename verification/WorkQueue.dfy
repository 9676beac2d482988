/**
 The bounded queue between the network threads and the workers: a singly linked list
 with head and tail pointers that drops its oldest item when full. Every method is one
 critical section of `qlock`, so any interleaving of callers is some order of calls.
 */
module WorkQueue {

  datatype Item = Item(payload: string, fd: int)

  /** The item a push must drop, if any, and the rest of the queue. */
  function Displaced<T>(q: seq<T>, depth: nat): (r: (seq<T>, seq<T>))
    ensures r.0 + r.1 == q && |r.0| <= 1
    ensures |q| < depth ==> r.0 == []
    ensures 0 < depth <= |q| ==> |r.0| == 1
  {
    if |q| >= depth && q != [] then (q[..1], q[1..]) else ([], q)
  }

  class Work {
    const item: Item
    var next: Work?

    constructor (item: Item)
      ensures this.item == item && next == null
    {
      this.item := item;
      next := null;
    }
  }

  class Queue {
    const depth: nat
    var qhead: Work?
    var qtail: Work?
    var qlen: int

    ghost var nodes: seq<Work>
    ghost var pushed: seq<Item>    // every item ever pushed
    ghost var removed: seq<Item>   // every item taken or dropped, in removal order

    ghost function Contents(): seq<Item>
      reads this
    {
      seq(|nodes|, i requires 0 <= i < |nodes| reads this => nodes[i].item)
    }

    /** The heap is exactly the list `nodes`, without sharing or cycles. */
    ghost predicate Linked()
      reads this, nodes
    {
      && (forall i, j :: 0 <= i < j < |nodes| ==> nodes[i] != nodes[j])
      && (forall i :: 0 <= i < |nodes| - 1 ==> nodes[i].next == nodes[i + 1])
      && (nodes == [] ==> qhead == null && qtail == null)
      && (nodes != [] ==> qhead == nodes[0] && qtail == nodes[|nodes| - 1] && qtail.next == null)
      && qlen == |nodes|
    }

    ghost predicate Valid()
      reads this, nodes
    {
      Linked() && depth > 0 && qlen <= depth && removed + Contents() == pushed
    }

    constructor (depth: nat)
      requires depth > 0
      ensures Valid() && this.depth == depth && Contents() == [] && pushed == [] && removed == []
    {
      this.depth := depth;
      qhead, qtail, qlen := null, null, 0;
      nodes, pushed, removed := [], [], [];
    }

    /** Unlinks the oldest item; shared by drop-oldest and by the workers. */
    method Unlink() returns (item: Item)
      requires Linked() && nodes != []
      modifies this
      ensures Linked() && nodes == old(nodes)[1..]
      ensures item == old(nodes)[0].item
      ensures pushed == old(pushed) && removed == old(removed)
    {
      item := qhead.item;
      qhead := qhead.next;
      if qhead == null {
        qtail := null;
      }
      qlen := qlen - 1;
      nodes := nodes[1..];
      assert forall i :: 0 <= i < |nodes| ==> nodes[i] == old(nodes)[i + 1];
    }

    /** Links a fresh node at the tail. */
    method Append(w: Work)
      requires Linked() && w !in nodes && w.next == null
      modifies this, nodes
      ensures Linked() && nodes == old(nodes) + [w] && Contents() == old(Contents()) + [w.item]
      ensures pushed == old(pushed) && removed == old(removed)
    {
      if qhead == null {
        qhead, qtail := w, w;
      } else {
        qtail.next := w;
        qtail := w;
      }
      qlen := qlen + 1;
      nodes := nodes + [w];
    }

    /** The full branch of a push: the oldest item goes, unread. */
    method MakeRoom()
      requires Valid()
      modifies this
      ensures Valid() && qlen < depth
      ensures |nodes| <= |old(nodes)| && nodes == old(nodes)[|old(nodes)| - |nodes|..]
      ensures |old(Contents())| < depth ==> Contents() == old(Contents()) && removed == old(removed)
      ensures |old(Contents())| == depth ==>
                Contents() == old(Contents())[1..] && removed == old(removed) + old(Contents())[..1]
      ensures pushed == old(pushed)
    {
      if qlen >= depth {
        if qhead != null {
          var dropped := Take();
          assert old(Contents())[..1] == [dropped] && old(Contents())[1..] == Contents();
        }
      }
    }

    method Push(item: Item)
      requires Valid()
      modifies this, nodes
      ensures Valid() && (forall w :: w in nodes ==> w in old(nodes) || fresh(w))
      ensures pushed == old(pushed) + [item]
      ensures |old(Contents())| < depth ==> Contents() == old(Contents()) + [item] && removed == old(removed)
      ensures |old(Contents())| == depth ==>
                Contents() == old(Contents())[1..] + [item] && removed == old(removed) + old(Contents())[..1]
    {
      var w := new Work(item);
      MakeRoom();
      ghost var kept := Contents();
      Append(w);
      assert removed + (kept + [item]) == (removed + kept) + [item];
      pushed := pushed + [item];
    }

    /** Removes the oldest item: a worker's turn once it has seen a non-null head. */
    method Take() returns (item: Item)
      requires Valid() && Contents() != []
      modifies this
      ensures Valid() && nodes == old(nodes)[1..]
      ensures old(Contents()) == [item] + Contents()
      ensures pushed == old(pushed) && removed == old(removed) + [item]
    {
      ghost var before := Contents();
      item := Unlink();
      removed := removed + [item];
      assert before == [item] + Contents();
      assert removed + Contents() == old(removed) + before;
    }
  }
}
