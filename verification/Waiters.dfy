/** Threads waiting for one countable resource: mails, free mail slots, messages, pool blocks.

    A waiter is resumed by a thread that makes a unit available, but takes the unit only when it runs
    again; until then others may take it.  `woken` are the resumed threads that have not run yet. */
module Waiters {
  import opened WaitQueue

  datatype Side = Side(waiting: seq<Thread>, woken: set<Thread>)

  /** Waiters are left on the list only if enough resumed threads are on their way for all units. */
  ghost predicate NotStranded(s: Side, available: int) {
    && Distinct(s.waiting)
    && (forall t | t in s.waiting :: t !in s.woken)
    && (s.waiting != [] ==> available <= |s.woken|)
  }

  /** rt_ipc_list_resume on a list that may be empty. */
  function WakeOne(s: Side): Side {
    if s.waiting == [] then s else Side(s.waiting[1..], s.woken + {s.waiting[0]})
  }

  /** The thread runs again, or was never suspended. */
  function Runs(s: Side, t: Thread): Side {
    s.(woken := s.woken - {t})
  }

  function Sleeps(s: Side, q: seq<Thread>): Side {
    s.(waiting := q)
  }

  function Expires(s: Side, t: Thread): Side {
    s.(waiting := Without(s.waiting, t))
  }

  /** The first thread of a list, if there is one, has been resumed. */
  ghost predicate FirstResumed(before: Side, after: Side) {
    if before.waiting == [] then after == before
    else after.waiting == before.waiting[1..] && after.woken == before.woken + {before.waiting[0]}
  }

  /** The list is as before, and t is not on its way from it. */
  ghost predicate RunsOn(before: Side, after: Side, t: Thread) {
    after.waiting == before.waiting && after.woken == before.woken - {t}
  }

  lemma WakeOneMembers(s: Side)
    ensures forall t :: t in WakeOne(s).waiting || t in WakeOne(s).woken <==> t in s.waiting || t in s.woken
    ensures forall t | t in WakeOne(s).waiting :: t in s.waiting
  {
    if s.waiting != [] {
      assert s.waiting == [s.waiting[0]] + s.waiting[1..];
    }
  }

  /** A unit was added and one waiter resumed. */
  lemma PostKeeps(s: Side, available: int)
    requires NotStranded(s, available)
    ensures NotStranded(WakeOne(s), available + 1)
  {
    if s.waiting != [] {
      assert s.waiting[0] !in s.woken;
      assert forall i | 0 <= i < |s.waiting[1..]| :: s.waiting[1..][i] == s.waiting[i + 1];
      assert forall t | t in s.waiting[1..] :: t in s.waiting && t != s.waiting[0];
    }
  }

  /** A running thread took a unit, whether it had been resumed for it or not. */
  lemma TakeKeeps(s: Side, available: int, t: Thread)
    requires NotStranded(s, available)
    ensures NotStranded(Runs(s, t), available - 1)
  {
    if t !in s.woken {
      assert s.woken - {t} == s.woken;
    } else {
      assert |s.woken - {t}| == |s.woken| - 1;
    }
  }

  /** A resumed thread found nothing to take. */
  lemma MissKeeps(s: Side, t: Thread)
    requires NotStranded(s, 0)
    ensures NotStranded(Runs(s, t), 0)
  {
  }

  /** A thread joins the list; it does so only when nothing is available. */
  lemma SleepKeeps(s: Side, priority: map<Thread, nat>, flag: Flag, t: Thread)
    requires NotStranded(s, 0) && t !in s.waiting && t !in s.woken
    requires t in priority && forall x | x in s.waiting :: x in priority
    ensures NotStranded(Sleeps(s, Enqueue(s.waiting, priority, flag, t)), 0)
  {
    EnqueueOrder(s.waiting, priority, flag, t);
    hide Enqueue;
  }

  /** The same for a list whose newcomers go to the front. */
  lemma SleepFirstKeeps(s: Side, t: Thread)
    requires NotStranded(s, 0) && t !in s.waiting && t !in s.woken
    ensures NotStranded(Sleeps(s, [t] + s.waiting), 0)
  {
    var q := [t] + s.waiting;
    assert forall i | 0 < i < |q| :: q[i] == s.waiting[i - 1] && q[i] in s.waiting;
  }

  lemma ExpireKeeps(s: Side, available: int, t: Thread)
    requires NotStranded(s, available)
    ensures NotStranded(Expires(s, t), available)
  {
    WithoutMembers(s.waiting, t);
    hide Without;
  }

  /** Fewer units are never a reason to be stranded. */
  lemma LessKeeps(s: Side, available: int, less: int)
    requires NotStranded(s, available) && less <= available
    ensures NotStranded(s, less)
  {
  }
}
