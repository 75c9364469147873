/** The intrusive doubly linked list of page frames (common/buffer/lru.cpp, default build). */
module Lru {
  class PageNode {
    var prev: PageNode?
    var next: PageNode?

    constructor ()
      ensures prev == null && next == null
    {
      prev, next := null, null;
    }
  }

  class LRU {
    var head: PageNode?
    var tail: PageNode?
    var size: int
    ghost var nodes: seq<PageNode>
    ghost var members: set<PageNode>

    /** `head`, `tail`, `size` and the links of the nodes spell out the sequence `nodes`,
        whose set of elements is `members`. */
    ghost predicate Valid()
      reads this, members`prev, members`next
    {
      && size == |nodes|
      && (forall j, k :: 0 <= j < k < |nodes| ==> nodes[j] != nodes[k])
      && (forall k :: 0 <= k < |nodes| ==> nodes[k] in members)
      && (forall n :: n in members ==> n in nodes)
      && (nodes == [] ==> head == null && tail == null)
      && (nodes != [] ==>
            && head == nodes[0] && tail == nodes[|nodes| - 1]
            && head.prev == null && tail.next == null)
      && (forall k {:trigger nodes[k].next} :: 0 <= k < |nodes| - 1 ==> nodes[k].next == nodes[k + 1])
      && (forall k {:trigger nodes[k].prev} :: 0 < k < |nodes| ==> nodes[k].prev == nodes[k - 1])
    }

    constructor ()
      ensures Valid() && nodes == [] && members == {}
    {
      head, tail, size, nodes, members := null, null, 0, [], {};
    }

    /** Only `next` is written: the caller hands in a node whose `prev` is null. */
    method Prepend(n: PageNode)
      requires Valid() && n !in members && n.prev == null
      modifies this, n`next, members`prev
      ensures Valid() && nodes == [n] + old(nodes) && members == old(members) + {n}
    {
      n.next := head;
      if head == null {
        tail := n;
      } else {
        head.prev := n;
      }
      head := n;
      size := size + 1;
      nodes, members := [n] + nodes, members + {n};
    }

    /** A hit leaves the list as it is: the code that would move the node to the front is disabled. */
    method Get(n: PageNode)
      requires Valid()
      ensures Valid()
    {
    }

    /** Takes the last node, fully detached. */
    method Popback() returns (n: PageNode?)
      requires Valid()
      modifies this, members`prev, members`next
      ensures Valid()
      ensures old(nodes) == [] ==> n == null && nodes == [] && members == {}
      ensures old(nodes) != [] ==>
                n == old(nodes)[|old(nodes)| - 1] && nodes == old(nodes)[..|old(nodes)| - 1] &&
                n in old(members) && members == old(members) - {n} && n.prev == null && n.next == null
    {
      if tail == null { return null; }
      n := tail;
      if n.prev != null {
        tail := n.prev;
        tail.next := null;
        n.prev := null;
      } else {
        assert head == tail;
        head, tail := null, null;
      }
      size := size - 1;
      nodes, members := nodes[..|nodes| - 1], members - {n};
    }

    /** The list's own consistency check; every assert of it is one way to return false. */
    method Check() returns (passed: bool)
      requires Valid()
      ensures passed
    {
      if size > 0 {
        if head.prev != null || tail.next != null { return false; }
      } else if head != null || tail != null { return false; }

      var count, p := 0, head;
      while p != null
        invariant 0 <= count <= |nodes|
        invariant p == if count < |nodes| then nodes[count] else null
        decreases |nodes| - count
      {
        count := count + 1;
        if p.next != null {
          if p.next.prev != p { return false; }
        } else if p != tail || count != size { return false; }
        p := p.next;
      }
      if count != size { return false; }

      count, p := 0, tail;
      while p != null
        invariant 0 <= count <= |nodes|
        invariant p == if count < |nodes| then nodes[|nodes| - 1 - count] else null
        decreases |nodes| - count
      {
        count := count + 1;
        if p.prev != null {
          if p.prev.next != p { return false; }
        } else if p != head || count != size { return false; }
        p := p.prev;
      }
      return count == size;
    }
  }

  /** Popback on one list, Prepend on the other. */
  method MoveLast(from: LRU, to: LRU) returns (n: PageNode)
    requires from != to && from.members !! to.members && from.Valid() && to.Valid() && from.nodes != []
    modifies from, to, from.members`prev, from.members`next, to.members`prev
    ensures from.Valid() && to.Valid() && from.members !! to.members
    ensures n == old(from.nodes)[|old(from.nodes)| - 1]
    ensures from.nodes == old(from.nodes)[..|old(from.nodes)| - 1] && to.nodes == [n] + old(to.nodes)
    ensures n in to.members && from.members + to.members == old(from.members + to.members)
  {
    n := from.Popback();
    to.Prepend(n);
  }
}
