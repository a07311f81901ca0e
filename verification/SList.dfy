/** The singly linked list of unacknowledged packets with its pointer surgery (queue.h, as used by ack.c).
    The removal loop on pointers does what the walk over a sequence in NackTable does. */
module SList {
  import opened NackSpec
  import opened NackTable

  class Node {
    const value: Entry
    var next: Node?

    constructor (value: Entry)
      ensures this.value == value && next == null
    {
      this.value, next := value, null;
    }
  }

  ghost predicate Differ(a: Node, b: Node) { a != b }

  /** The i-th node, or null at the end of the list. */
  ghost function At(ns: seq<Node>, i: nat): Node? { if i < |ns| then ns[i] else null }

  /** The nodes are chained in this order and are all different. */
  ghost predicate Chained(ns: seq<Node>)
    reads ns
  {
    && (forall i :: 0 <= i < |ns| ==> ns[i].next == At(ns, i + 1))
    && (forall i, j {:trigger Differ(ns[i], ns[j])} :: 0 <= i < j < |ns| ==> Differ(ns[i], ns[j]))
  }

  function Values(ns: seq<Node>): seq<Entry> { seq(|ns|, i requires 0 <= i < |ns| => ns[i].value) }

  /** Taking a node out takes its value out. */
  lemma ValuesWithout(ns: seq<Node>, i: nat)
    requires i < |ns|
    ensures Values(ns[..i] + ns[i + 1..]) == Values(ns)[..i] + Values(ns)[i + 1..]
  {
  }

  class List {
    var first: Node?
    /** The nodes in list order. */
    ghost var nodes: seq<Node>
    /** Every node that ever was in the list. */
    ghost var repr: set<Node>

    ghost predicate Valid()
      reads this, nodes
    {
      first == At(nodes, 0) && Chained(nodes) && forall n :: n in nodes ==> n in repr
    }

    constructor ()
      ensures Valid() && nodes == []
    {
      first, nodes, repr := null, [], {};
    }

    /** MYSLIST_INSERT_HEAD */
    method InsertHead(n: Node)
      requires Valid() && n !in nodes
      modifies this, n
      ensures Valid() && nodes == [n] + old(nodes)
    {
      n.next := first;
      first := n;
      nodes, repr := [n] + nodes, repr + {n};
    }

    /** The search of MYSLIST_REMOVE for the node in front of another. */
    method Predecessor(elm: Node, ghost i: nat) returns (cur: Node)
      requires Valid() && 0 < i < |nodes| && nodes[i] == elm
      ensures cur == nodes[i - 1]
    {
      cur := first;
      ghost var k := 0;
      while cur.next != elm
        invariant 0 <= k < i && cur == nodes[k]
        decreases i - k
      {
        assert k + 1 < i;
        k := k + 1;
        cur := cur.next;
      }
      assert k + 1 < i ==> Differ(nodes[k + 1], nodes[i]);
    }

    /** Unlink the node after `cur`, which is the i-th. */
    method UnlinkAfter(cur: Node, ghost i: nat)
      requires Valid() && 0 < i < |nodes| && cur == nodes[i - 1]
      modifies this`nodes, cur
      ensures Valid() && nodes == old(nodes)[..i] + old(nodes)[i + 1..]
    {
      ghost var ns := nodes;
      cur.next := cur.next.next;
      nodes := ns[..i] + ns[i + 1..];
      assert forall j :: 0 <= j < i ==> nodes[j] == ns[j];
      assert forall j :: i <= j < |nodes| ==> nodes[j] == ns[j + 1];
      forall j | 0 <= j < |nodes| ensures nodes[j].next == At(nodes, j + 1) {
        if j < i - 1 { assert Differ(ns[j], ns[i - 1]); } else if j >= i { assert Differ(ns[i - 1], ns[j + 1]); }
      }
    }

    /** MYSLIST_REMOVE: the head is unlinked at once, any other node after a search for its predecessor.
        `i` is the place of the node in the list. */
    method Remove(elm: Node, ghost i: nat)
      requires Valid() && i < |nodes| && nodes[i] == elm
      modifies this`first, this`nodes, repr
      ensures Valid() && nodes == old(nodes)[..i] + old(nodes)[i + 1..]
    {
      if first == elm {
        assert i > 0 ==> Differ(nodes[0], nodes[i]);
        first := first.next;
        nodes := nodes[1..];
      } else {
        var cur := Predecessor(elm, i);
        assert cur in nodes;
        UnlinkAfter(cur, i);
      }
    }

    /** One turn of MYSLIST_FOREACH_SAFE with MYSLIST_REMOVE in its body: the next node is read before
        the current one may be unlinked. */
    method Visit(cur: Node, drop: bool, ghost i: nat) returns (tmp: Node?)
      requires Valid() && i < |nodes| && nodes[i] == cur
      modifies this`first, this`nodes, repr
      ensures Valid()
      ensures var vs := old(Values(nodes)); Values(nodes) == if drop then vs[..i] + vs[i + 1..] else vs
      ensures tmp == At(nodes, if drop then i else i + 1)
    {
      tmp := cur.next;
      if drop {
        ValuesWithout(nodes, i);
        Remove(cur, i);
      }
    }

    /** The removal loops of ack.c on pointers: what is left is the filtered list. */
    method RemoveWhere(drop: Entry -> bool, ghost keep: Entry -> bool)
      requires Valid() && forall e :: e in Values(nodes) ==> (keep(e) <==> !drop(e))
      modifies this`first, this`nodes, repr
      ensures Valid() && Values(nodes) == Filter(old(Values(nodes)), keep)
    {
      var cur := first;
      ghost var es := Values(nodes);
      ghost var done, gone, rest := [], [], es;
      while cur != null
        invariant Valid() && Values(nodes) == done + rest && cur == At(nodes, |done|)
        invariant Walked(es, drop, keep, done, gone, rest)
        decreases |rest|
      {
        var e := cur.value;
        assert e == Values(nodes)[|done|] == rest[0];
        WalkStep(es, drop, keep, done, gone, rest);
        Unlinked(done, rest);
        cur := Visit(cur, drop(e), |done|);
        if drop(e) { gone := gone + [e]; } else { done := done + [e]; }
        rest := rest[1..];
      }
      assert rest == [] && Values(nodes) == done;
      WalkEnd(es, drop, keep, done, gone);
    }
  }
}
