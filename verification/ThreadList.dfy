/** The suspended-thread list of ipc.c as a circular list of tlist nodes: each operation does to the
    nodes what the sequence operation of WaitQueue does to the threads. */
module ThreadList {
  import opened WaitQueue
  import opened IntrusiveList

  /** The threads on a list, first to last. */
  function Threads(r: seq<Node>): (q: seq<Thread>)
    requires r != []
  {
    seq(|r| - 1, k requires 0 <= k < |r| - 1 => r[k + 1].thread)
  }

  lemma InsertedThreads(r: seq<Node>, i: nat, n: Node)
    requires r != [] && 0 < i <= |r|
    ensures Threads(Inserted(r, i, n)) == Threads(r)[..i - 1] + [n.thread] + Threads(r)[i - 1..]
  {
  }

  /** The walk of rt_ipc_list_suspend, up to the first thread less urgent than p or back to the list object. */
  method FindPlace(list: Node, p: nat, priority: map<Thread, nat>, ghost r: seq<Node>)
    returns (n: Node, ghost i: nat)
    requires Ring(r) && r[0] == list && forall x | x in Threads(r) :: x in priority
    ensures i == 1 + Position(Threads(r), priority, p) && n == (if i < |r| then r[i] else r[0])
  {
    ghost var q := Threads(r);
    assert LinkedAt(r, 0);
    n := list.next;
    i := 1;
    while n != list && !(p < priority[n.thread])
      invariant 1 <= i <= |r| && n == (if i < |r| then r[i] else r[0])
      invariant Position(q, priority, p) == i - 1 + Position(q[i - 1..], priority, p)
      decreases |r| - i
    {
      NotHead(r, i);
      assert q[i - 1] == n.thread && q[i - 1..][1..] == q[i..] && LinkedAt(r, i);
      n := n.next;
      i := i + 1;
    }
    if n == list {
      OnlyHead(r, i);
    } else {
      NotHead(r, i);
      assert q[i - 1] == n.thread;
    }
  }

  /** rt_ipc_list_suspend */
  method Suspend(list: Node, t: Node, priority: map<Thread, nat>, flag: Flag, ghost r: seq<Node>)
    returns (ghost s: seq<Node>)
    requires Ring(r) && r[0] == list && t !in r
    requires t.thread in priority && forall x | x in Threads(r) :: x in priority
    modifies r, t
    ensures Ring(s) && s[0] == list && Threads(s) == Enqueue(Threads(r), priority, flag, t.thread)
    ensures forall n :: n in s <==> n in r || n == t
  {
    ghost var at := |r|;
    assert LinkedAt(r, 0);
    match flag {
      case FIFO => InsertBefore(list, t, r, 0);
      case PRIO =>
        var n;
        n, at := FindPlace(list, priority[t.thread], priority, r);
        if n == list {
          OnlyHead(r, at);
          InsertBefore(list, t, r, 0);
        } else {
          assert LinkedAt(r, at);
          InsertBefore(n, t, r, at);
        }
    }
    s := Inserted(r, at, t);
    InsertedThreads(r, at, t);
    InsertedNodes(r, at, t);
  }

  lemma NotHead(r: seq<Node>, i: nat)
    requires Unique(r) && 1 <= i <= |r| && (if i < |r| then r[i] else r[0]) != r[0]
    ensures i < |r|
  {
  }

  lemma OnlyHead(r: seq<Node>, i: nat)
    requires Unique(r) && 1 <= i <= |r| && (if i < |r| then r[i] else r[0]) == r[0]
    ensures i == |r|
  {
  }

  lemma InsertedNodes(r: seq<Node>, i: nat, n: Node)
    requires i <= |r|
    ensures forall x :: x in Inserted(r, i, n) <==> x in r || x == n
  {
    var s := Inserted(r, i, n);
    assert s[i] == n;
    forall k: nat | k < |r| ensures r[k] in s {
      assert s[if k < i then k else k + 1] == r[k];
    }
  }

  /** rt_ipc_list_resume takes the first thread off a list that is not empty. */
  method Resume(list: Node, ghost r: seq<Node>) returns (t: Node, ghost s: seq<Node>)
    requires Ring(r) && |r| > 1 && r[0] == list
    modifies r
    ensures Ring(s) && s[0] == list && Ring([t])
    ensures t == r[1] && s == Removed(r, 1) && Threads(s) == Threads(r)[1..]
  {
    assert LinkedAt(r, 0) && LinkedAt(r, 1);
    t := list.next;
    Remove(t, r, 1);
    s := Removed(r, 1);
  }

  /** The removal in rt_thread_resume and rt_thread_timeout, wherever the thread stands. */
  method Leave(t: Node, ghost r: seq<Node>, ghost i: nat) returns (ghost s: seq<Node>)
    requires Ring(r) && 0 < i < |r| && r[i] == t && Distinct(Threads(r))
    modifies r
    ensures Ring(s) && s[0] == r[0] && Ring([t]) && s == Removed(r, i) && Threads(s) == Without(Threads(r), t.thread)
  {
    assert LinkedAt(r, i);
    Remove(t, r, i);
    s := Removed(r, i);
    RemovedThreads(r, i);
    WithoutAt(Threads(r), i - 1);
  }

  lemma RemovedThreads(r: seq<Node>, i: nat)
    requires 0 < i < |r|
    ensures Threads(Removed(r, i)) == Threads(r)[..i - 1] + Threads(r)[i..]
  {
  }

  lemma {:induction false} WithoutAt(q: seq<Thread>, i: nat)
    requires i < |q| && Distinct(q)
    ensures Without(q, q[i]) == q[..i] + q[i + 1..]
  {
    if i > 0 {
      WithoutAt(q[1..], i - 1);
      assert q[1..][i - 1] == q[i];
      assert q[..i] + q[i + 1..] == [q[0]] + (q[1..][..i - 1] + q[1..][i..]);
    }
  }

  /** rt_ipc_get_highest_priority walks the whole list. */
  method GetHighestPriority(list: Node, priority: map<Thread, nat>, ghost r: seq<Node>) returns (p: nat)
    requires Ring(r) && r[0] == list && forall x | x in Threads(r) :: x in priority
    ensures p == Highest(Threads(r), priority)
  {
    ghost var q := Threads(r);
    p := PRIORITY_MAX - 1;
    assert LinkedAt(r, 0);
    var n := list.next;
    ghost var i := 1;
    while n != list
      invariant 1 <= i <= |r| && n == (if i < |r| then r[i] else r[0])
      invariant p == Highest(q[..i - 1], priority)
      decreases |r| - i
    {
      NotHead(r, i);
      assert q[i - 1] == n.thread && q[..i][..i - 1] == q[..i - 1] && LinkedAt(r, i);
      p := if p < priority[n.thread] then p else priority[n.thread];
      n := n.next;
      i := i + 1;
    }
    OnlyHead(r, i);
    assert q[..i - 1] == q;
  }
}
