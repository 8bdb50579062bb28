/** The suspended-thread list that every IPC object of ipc.c carries.

    A list is the sequence of suspended threads in list order; `priority` gives the
    current_priority of every thread (a smaller number is more urgent). */
module WaitQueue {
  type Thread = nat

  datatype Flag = FIFO | PRIO

  /** Codes a call returns; the source uses the negated RT_ constants. */
  datatype Code = EOK | ERROR | ETIMEOUT | EFULL | EINVAL

  /** Whether a thread runs, waits in one of the blocking calls (with a timer or not), or was resumed
      and has not run yet. */
  datatype Phase = Ready | Waiting(timed: bool) | Woken

  const PRIORITY_MAX := 32

  ghost predicate Distinct(q: seq<Thread>) {
    forall i, j | 0 <= i < j < |q| :: q[i] != q[j]
  }

  /** Most urgent first. */
  ghost predicate Sorted(q: seq<Thread>, priority: map<Thread, nat>) {
    && (forall i | 0 <= i < |q| :: q[i] in priority)
    && forall i, j | 0 <= i < j < |q| :: priority[q[i]] <= priority[q[j]]
  }

  // ---- rt_ipc_list_suspend ---------------------------------------------------------

  /** Where a thread of priority p goes: before the first strictly less urgent thread. */
  function Position(q: seq<Thread>, priority: map<Thread, nat>, p: nat): (n: nat)
    requires forall x | x in q :: x in priority
    ensures n <= |q|
    ensures forall i | 0 <= i < n :: priority[q[i]] <= p
    ensures n < |q| ==> p < priority[q[n]]
  {
    if q == [] || p < priority[q[0]] then 0 else 1 + Position(q[1..], priority, p)
  }

  function Enqueue(q: seq<Thread>, priority: map<Thread, nat>, flag: Flag, t: Thread): (r: seq<Thread>)
    requires t in priority && forall x | x in q :: x in priority
  {
    match flag
    case FIFO => q + [t]
    case PRIO => var n := Position(q, priority, priority[t]); q[..n] + [t] + q[n..]
  }

  /** Suspending inserts the thread somewhere and keeps the others in their order. */
  lemma EnqueueInserts(q: seq<Thread>, priority: map<Thread, nat>, flag: Flag, t: Thread) returns (n: nat)
    requires t in priority && (forall x | x in q :: x in priority)
    ensures n <= |q| && Enqueue(q, priority, flag, t) == q[..n] + [t] + q[n..]
    ensures flag == FIFO ==> n == |q|
  {
    n := match flag case FIFO => |q| case PRIO => Position(q, priority, priority[t]);
  }

  lemma InsertOnce(q: seq<Thread>, n: nat, t: Thread)
    requires n <= |q| && Distinct(q) && t !in q
    ensures Distinct(q[..n] + [t] + q[n..])
    ensures forall x :: x in q[..n] + [t] + q[n..] <==> x == t || x in q
  {
    var r := q[..n] + [t] + q[n..];
    assert forall i | 0 <= i < |r| :: r[i] == if i < n then q[i] else if i == n then t else q[i - 1];
    forall x | x in q ensures x in r {
      var i :| 0 <= i < |q| && q[i] == x;
      assert r[if i < n then i else i + 1] == x;
    }
    assert r[n] == t;
  }

  /** The list keeps no thread twice, and a priority list stays sorted. */
  lemma EnqueueOrder(q: seq<Thread>, priority: map<Thread, nat>, flag: Flag, t: Thread)
    requires t in priority && (forall x | x in q :: x in priority) && Distinct(q) && t !in q
    ensures Distinct(Enqueue(q, priority, flag, t))
    ensures forall x :: x in Enqueue(q, priority, flag, t) <==> x == t || x in q
    ensures flag == PRIO && Sorted(q, priority) ==> Sorted(Enqueue(q, priority, flag, t), priority)
  {
    var n := EnqueueInserts(q, priority, flag, t);
    InsertOnce(q, n, t);
    if flag == PRIO && Sorted(q, priority) {
      EnqueueSorted(q, priority, t);
    }
  }

  lemma EnqueueSorted(q: seq<Thread>, priority: map<Thread, nat>, t: Thread)
    requires t in priority && (forall x | x in q :: x in priority) && Sorted(q, priority)
    ensures Sorted(Enqueue(q, priority, PRIO, t), priority)
  {
    var n := Position(q, priority, priority[t]);
    var r := Enqueue(q, priority, PRIO, t);
    forall i, j | 0 <= i < j < |r| ensures priority[r[i]] <= priority[r[j]] {
      if n < j && n < |q| {
        assert priority[q[n]] <= priority[q[j - 1]];
      }
    }
  }

  /** Where a thread is inserted: last in a FIFO list; in a priority list behind all threads at least as urgent
      and before all less urgent ones. */
  lemma EnqueueExactly(q: seq<Thread>, priority: map<Thread, nat>, flag: Flag, t: Thread)
    requires t in priority && (forall x | x in q :: x in priority) && (flag == PRIO ==> Sorted(q, priority))
    ensures flag == FIFO ==> Enqueue(q, priority, flag, t) == q + [t]
    ensures flag == PRIO ==> exists n: nat ::
      && n <= |q| && Enqueue(q, priority, flag, t) == q[..n] + [t] + q[n..]
      && (forall i | 0 <= i < n :: priority[q[i]] <= priority[t])
      && forall i | n <= i < |q| :: priority[t] < priority[q[i]]
  {
    var n := EnqueueInserts(q, priority, flag, t);
    if flag == PRIO {
      n := Position(q, priority, priority[t]);
      assert forall i | n <= i < |q| :: priority[q[n]] <= priority[q[i]];
    } else {
      assert q[..n] + [t] + q[n..] == q + [t];
    }
  }

  // ---- rt_ipc_get_highest_priority ----------------------------------------------------

  function Highest(q: seq<Thread>, priority: map<Thread, nat>): (r: nat)
    requires forall x | x in q :: x in priority
    ensures r <= PRIORITY_MAX - 1
    ensures forall i | 0 <= i < |q| :: r <= priority[q[i]]
    ensures r == PRIORITY_MAX - 1 || exists i | 0 <= i < |q| :: r == priority[q[i]]
  {
    if q == [] then PRIORITY_MAX - 1
    else
      var last := priority[q[|q| - 1]];
      var rest := Highest(q[..|q| - 1], priority);
      if rest < last then rest else last
  }

  // ---- rt_ipc_list_resume_all -------------------------------------------------------------

  /** Every thread on the list gets an error code; then the list is empty. */
  function FailAll(error: map<Thread, Code>, q: seq<Thread>): map<Thread, Code>
    decreases |q|
  {
    if q == [] then error else FailAll(error[q[0] := ERROR], q[1..])
  }

  lemma {:induction false} FailAllCodes(error: map<Thread, Code>, q: seq<Thread>)
    ensures forall t :: t in FailAll(error, q) <==> t in error || t in q
    ensures forall t | t in FailAll(error, q) :: FailAll(error, q)[t] == if t in q then ERROR else error[t]
    decreases |q|
  {
    if q != [] {
      FailAllCodes(error[q[0] := ERROR], q[1..]);
      assert q == [q[0]] + q[1..];
    }
  }

  /** Waking the threads of a list one by one. */
  function WakeAll(phase: map<Thread, Phase>, q: seq<Thread>): map<Thread, Phase>
    decreases |q|
  {
    if q == [] then phase else WakeAll(phase[q[0] := Woken], q[1..])
  }

  lemma {:induction false} WakeAllPhases(phase: map<Thread, Phase>, q: seq<Thread>)
    requires forall t | t in q :: t in phase
    ensures WakeAll(phase, q) == map t | t in phase :: if t in q then Woken else phase[t]
    decreases |q|
  {
    if q != [] {
      WakeAllPhases(phase[q[0] := Woken], q[1..]);
      assert q == [q[0]] + q[1..];
    }
  }

  /** Resuming everybody on two lists, as the reset of a mailbox or message queue does. */
  lemma ResumeAllCodes(error: map<Thread, Code>, p: seq<Thread>, q: seq<Thread>)
    ensures forall t :: t in FailAll(FailAll(error, p), q) <==> t in error || t in p || t in q
    ensures forall t | t in FailAll(FailAll(error, p), q) ::
              FailAll(FailAll(error, p), q)[t] == if t in p || t in q then ERROR else error[t]
  {
    FailAllCodes(error, p);
    FailAllCodes(FailAll(error, p), q);
  }

  // ---- Taking a thread out of a list (rt_thread_resume, rt_thread_timeout) ---------------

  function Without(q: seq<Thread>, t: Thread): (r: seq<Thread>)
    ensures |r| <= |q|
    ensures forall x | x in r :: x in q
    ensures t !in q ==> r == q
  {
    if q == [] then [] else if q[0] == t then q[1..] else [q[0]] + Without(q[1..], t)
  }

  lemma {:induction false} WithoutMembers(q: seq<Thread>, t: Thread)
    requires Distinct(q)
    ensures Distinct(Without(q, t))
    ensures forall x :: x in Without(q, t) <==> x in q && x != t
  {
    if q != [] {
      assert forall x :: x in q <==> x == q[0] || x in q[1..];
      assert q[0] !in q[1..];
      WithoutMembers(q[1..], t);
    }
  }

  lemma {:induction false} WithoutSorted(q: seq<Thread>, t: Thread, priority: map<Thread, nat>)
    requires Sorted(q, priority)
    ensures Sorted(Without(q, t), priority)
  {
    hide Sorted;
    if q != [] {
      SortedTail(q, priority);
      if q[0] != t {
        WithoutSorted(q[1..], t, priority);
        var r := Without(q[1..], t);
        forall x | x in r ensures x in priority && priority[q[0]] <= priority[x] {
          assert x in q[1..];
        }
        SortedCons(q[0], r, priority);
      }
    }
  }

  lemma SortedTail(q: seq<Thread>, priority: map<Thread, nat>)
    requires Sorted(q, priority) && q != []
    ensures Sorted(q[1..], priority) && q[0] in priority
    ensures forall x | x in q[1..] :: x in priority && priority[q[0]] <= priority[x]
  {
    forall x | x in q[1..] ensures x in priority && priority[q[0]] <= priority[x] {
      var k :| 0 <= k < |q| - 1 && q[1..][k] == x;
      assert q[k + 1] == x;
    }
  }

  lemma SortedCons(x: Thread, r: seq<Thread>, priority: map<Thread, nat>)
    requires Sorted(r, priority) && x in priority && forall y | y in r :: y in priority && priority[x] <= priority[y]
    ensures Sorted([x] + r, priority)
  {
  }
}
