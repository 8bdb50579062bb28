/** The circular doubly linked lists of rtservice.h, and the wait queues of ipc.c built on them.

    A ring is the sequence of nodes met by following `next` from its first node; in a wait queue the
    first node is the list object and the others are the tlist members of the suspended threads. */
module IntrusiveList {
  import opened WaitQueue

  class Node {
    var next: Node
    var prev: Node
    /** The thread whose tlist this is; of no meaning in a list object. */
    const thread: Thread

    /** rt_list_init */
    constructor (thread: Thread)
      ensures Ring([this]) && this.thread == thread
    {
      this.thread := thread;
      next, prev := this, this;
    }
  }

  function Succ(r: seq<Node>, i: nat): Node
    requires i < |r|
  {
    if i + 1 < |r| then r[i + 1] else r[0]
  }

  function Pred(r: seq<Node>, i: nat): Node
    requires i < |r|
  {
    if i > 0 then r[i - 1] else r[|r| - 1]
  }

  ghost predicate Unique(r: seq<Node>) {
    forall i, j | 0 <= i < j < |r| :: r[i] != r[j]
  }

  ghost predicate LinkedAt(r: seq<Node>, i: nat)
    requires i < |r|
    reads r[i]
  {
    r[i].next == Succ(r, i) && r[i].prev == Pred(r, i)
  }

  ghost predicate Linked(r: seq<Node>)
    reads r
  {
    forall i: nat | i < |r| :: LinkedAt(r, i)
  }

  ghost predicate Ring(r: seq<Node>)
    reads r
  {
    r != [] && Unique(r) && Linked(r)
  }

  lemma OnePlace(r: seq<Node>, i: nat, j: nat)
    requires Unique(r) && i < |r| && j < |r| && i != j
    ensures r[i] != r[j]
  {
  }

  function Inserted(r: seq<Node>, i: nat, n: Node): (s: seq<Node>)
    requires i <= |r|
  {
    seq(|r| + 1, k requires 0 <= k <= |r| => if k < i then r[k] else if k == i then n else r[k - 1])
  }

  function Removed(r: seq<Node>, i: nat): (s: seq<Node>)
    requires i < |r|
  {
    seq(|r| - 1, k requires 0 <= k < |r| - 1 => if k < i then r[k] else r[k + 1])
  }

  lemma InsertedUnique(r: seq<Node>, i: nat, n: Node)
    requires i <= |r| && Unique(r) && n !in r
    ensures Unique(Inserted(r, i, n))
  {
  }

  // ---- rtservice.h ---------------------------------------------------------------------------

  /** rt_list_insert_after; `i` is the place of l in its ring. */
  method InsertAfter(l: Node, n: Node, ghost r: seq<Node>, ghost i: nat)
    requires Ring(r) && i < |r| && r[i] == l && n !in r
    modifies l, l.next, n
    ensures Ring(Inserted(r, i + 1, n))
  {
    InsertedUnique(r, i + 1, n);
    ghost var s := Inserted(r, i + 1, n);
    ghost var j := if i + 1 < |r| then i + 1 else 0;
    assert LinkedAt(r, i) && l.next == r[j];
    l.next.prev := n;
    n.next := l.next;
    l.next := n;
    n.prev := l;
    forall k: nat | k < |s| ensures LinkedAt(s, k) {
      if k != i + 1 {
        ghost var m := if k <= i then k else k - 1;
        assert old(LinkedAt(r, m)) && r[m] != n;
        Untouched(r, i, j, m);
      }
    }
    hide Unique, Inserted;
  }

  lemma Untouched(r: seq<Node>, i: nat, j: nat, m: nat)
    requires Unique(r) && i < |r| && j < |r| && m < |r|
    ensures r[m] == r[i] <==> m == i
    ensures r[m] == r[j] <==> m == j
  {
  }

  /** rt_list_insert_before; before the first node of a ring is after its last. */
  method InsertBefore(l: Node, n: Node, ghost r: seq<Node>, ghost i: nat)
    requires Ring(r) && i < |r| && r[i] == l && n !in r
    modifies l, l.prev, n
    ensures Ring(Inserted(r, if i == 0 then |r| else i, n))
  {
    ghost var at := if i == 0 then |r| else i;
    InsertedUnique(r, at, n);
    ghost var s := Inserted(r, at, n);
    assert LinkedAt(r, i) && l.prev == r[at - 1];
    l.prev.next := n;
    n.prev := l.prev;
    l.prev := n;
    n.next := l;
    forall k: nat | k < |s| ensures LinkedAt(s, k) {
      if k != at {
        ghost var m := if k < at then k else k - 1;
        assert old(LinkedAt(r, m)) && r[m] != n;
        Untouched(r, i, at - 1, m);
      }
    }
    hide Unique, Inserted;
  }

  /** rt_list_remove for a node other than the one the ring starts from. */
  method Remove(n: Node, ghost r: seq<Node>, ghost i: nat)
    requires Ring(r) && 0 < i < |r| && r[i] == n
    modifies n, n.next, n.prev
    ensures Ring(Removed(r, i)) && Ring([n])
  {
    ghost var s := Removed(r, i);
    ghost var j := if i + 1 < |r| then i + 1 else 0;
    assert LinkedAt(r, i) && n.next == r[j] && n.prev == r[i - 1];
    n.next.prev := n.prev;
    n.prev.next := n.next;
    n.next := n;
    n.prev := n;
    forall k: nat | k < |s| ensures LinkedAt(s, k) {
      ghost var m := if k < i then k else k + 1;
      assert old(LinkedAt(r, m));
      Untouched(r, i - 1, j, m);
      OnePlace(r, m, i);
    }
    assert Unique(s);
    hide Unique, Removed;
  }

  method IsEmpty(l: Node, ghost r: seq<Node>) returns (b: bool)
    requires Ring(r) && r[0] == l
    ensures b <==> |r| == 1
  {
    b := l.next == l;
    assert LinkedAt(r, 0);
  }

  /** rt_list_len counts the nodes behind the list object. */
  method Len(l: Node, ghost r: seq<Node>) returns (len: nat)
    requires Ring(r) && r[0] == l
    ensures len == |r| - 1
  {
    len := 0;
    var p := l;
    assert LinkedAt(r, 0);
    while p.next != l
      invariant len < |r| && p == r[len] && p.next == Succ(r, len)
      decreases |r| - len
    {
      p := p.next;
      len := len + 1;
      assert LinkedAt(r, len);
    }
  }
}
