/** The recursive mutex with priority inheritance as a step system.

    Every interrupts-disabled region of rt_mutex_take and rt_mutex_release is one step.
    A thread that blocks goes from Ready to Waiting, is taken off the list by a hand-off or
    by its timer (Woken), and then leaves rt_mutex_take with the code in thread->error. */
module MutexModel {
  import opened Options
  import opened WaitQueue

  const HOLD_MAX := 0xFF
  const VALUE_MAX := 0xFFFF

  datatype Outcome = Returned(code: Code) | Blocked

  datatype State = State(
    value: nat,
    owner: Option<Thread>,
    hold: nat,
    original: nat,
    flag: Flag,
    waiters: seq<Thread>,
    priority: map<Thread, nat>,
    error: map<Thread, Code>,
    phase: map<Thread, Phase>)

  ghost predicate Typed(s: State) {
    && s.priority.Keys == s.error.Keys == s.phase.Keys
    && (forall t | t in s.priority :: s.priority[t] < PRIORITY_MAX)
    && (forall t | t in s.waiters :: t in s.priority)
    && (s.owner.Some? ==> s.owner.value in s.priority)
    && (s.value == 0 ==> s.owner.Some?)
  }

  // ---- Steps -----------------------------------------------------------------------

  /** rt_mutex_take up to its return or to rt_schedule. */
  function Take(s: State, t: Thread, time: int): (State, Outcome)
    requires Typed(s) && t in s.priority
  {
    var s0 := s.(error := s.error[t := EOK]);
    if s.owner == Some(t) then
      if s.hold < HOLD_MAX then (s0.(hold := s.hold + 1), Returned(EOK)) else (s0, Returned(EFULL))
    else if s.value > 0 then
      var s1 := s0.(value := s.value - 1, owner := Some(t), original := s.priority[t]);
      if s.hold < HOLD_MAX then (s1.(hold := s.hold + 1), Returned(EOK)) else (s1, Returned(EFULL))
    else if time == 0 then
      (s0.(error := s0.error[t := ETIMEOUT]), Returned(ETIMEOUT))
    else
      var o := s.owner.value;
      var p := if s.priority[t] < s.priority[o] then s.priority[o := s.priority[t]] else s.priority;
      (s0.(priority := p,
           waiters := Enqueue(s.waiters, p, s.flag, t),
           phase := s.phase[t := Waiting(time > 0)]), Blocked)
  }

  /** The part of rt_mutex_take after rt_schedule. */
  function Leave(s: State, t: Thread): (State, Outcome)
    requires Typed(s) && t in s.priority
  {
    (s.(phase := s.phase[t := Ready]), Returned(s.error[t]))
  }

  function Release(s: State, t: Thread): (State, Outcome)
    requires Typed(s) && t in s.priority
    requires s.owner == Some(t) ==> s.hold > 0
  {
    if s.owner != Some(t) then
      (s.(error := s.error[t := ERROR]), Returned(ERROR))
    else if s.hold > 1 then
      (s.(hold := s.hold - 1), Returned(EOK))
    else
      var p := if s.original != s.priority[t] then s.priority[t := s.original] else s.priority;
      if s.waiters != [] then HandOff(s.(hold := 0, priority := p))
      else if s.value < VALUE_MAX then
        (s.(hold := 0, priority := p, value := s.value + 1, owner := None, original := 0xFF), Returned(EOK))
      else
        (s.(hold := 0, priority := p), Returned(EFULL))
  }

  /** A full release with waiters: the first one becomes the owner. */
  function HandOff(s: State): (State, Outcome)
    requires s.waiters != []
    requires forall x | x in s.waiters :: x in s.priority
  {
    var n := s.waiters[0];
    var top := Highest(s.waiters, s.priority);
    var p := if s.flag == FIFO && s.priority[n] != top then s.priority[n := top] else s.priority;
    var s1 := s.(owner := Some(n), original := s.priority[n], priority := p);
    if s.hold < HOLD_MAX then
      (s1.(hold := s.hold + 1, waiters := s.waiters[1..], phase := s.phase[n := Woken]), Returned(EOK))
    else
      (s1, Returned(EFULL))
  }

  /** rt_thread_timeout for a thread whose timer runs. */
  function Expire(s: State, t: Thread): State
    requires Typed(s) && t in s.priority
  {
    s.(error := s.error[t := ETIMEOUT], waiters := Without(s.waiters, t), phase := s.phase[t := Woken])
  }

  // ---- The initial state ---------------------------------------------------------------

  function NoErrors(base: map<Thread, nat>): map<Thread, Code> { map t | t in base :: EOK }

  function AllReady(base: map<Thread, nat>): map<Thread, Phase> { map t | t in base :: Ready }

  /** rt_mutex_init, with all threads ready at their own priority. */
  function InitialState(flag: Flag, base: map<Thread, nat>): State {
    State(1, None, 0, 0xFF, flag, [], base, NoErrors(base), AllReady(base))
  }

  // ---- The invariant -----------------------------------------------------------------

  /** Owner, value and hold agree, and waiters exist only while the mutex is owned. */
  ghost predicate Exclusive(s: State) {
    && (s.owner.None? <==> s.value == 1) && (s.value == 1 <==> s.hold == 0)
    && (s.value == 0 || s.value == 1) && s.hold <= HOLD_MAX
    && (s.waiters != [] ==> s.owner.Some?)
    && (s.owner.Some? ==> s.owner.value !in s.waiters)
  }

  /** The list holds each waiting thread once, with a clean error code; a priority list is sorted. */
  ghost predicate Queued(s: State) {
    && Distinct(s.waiters)
    && (forall t | t in s.phase :: s.phase[t].Waiting? <==> t in s.waiters)
    && (forall t | t in s.waiters :: t in s.error && s.error[t] == EOK)
    && (s.flag == PRIO ==> Sorted(s.waiters, s.priority))
  }

  /** No waiter is more urgent than the owner. */
  ghost predicate Inherited(s: State) {
    s.owner.Some? && s.owner.value in s.priority ==>
      forall w | w in s.waiters && w in s.priority :: s.priority[s.owner.value] <= s.priority[w]
  }

  /** Only the owner runs above its own priority, which `original` remembers. */
  ghost predicate Restorable(s: State, base: map<Thread, nat>) {
    && base.Keys == s.priority.Keys
    && (forall t | t in base :: base[t] < PRIORITY_MAX)
    && (forall t | t in base && s.owner != Some(t) :: s.priority[t] == base[t])
    && (s.owner.Some? && s.owner.value in base ==>
          s.original == base[s.owner.value] && s.priority[s.owner.value] <= base[s.owner.value])
  }

  /** A thread woken without an error code owns the mutex once and has not used it yet. */
  ghost predicate Granted(s: State) {
    forall t | t in s.phase && t in s.error && s.phase[t] == Woken ::
      if s.error[t] == EOK then s.owner == Some(t) && s.hold == 1 else s.owner != Some(t)
  }

  ghost predicate Inv(s: State, base: map<Thread, nat>) {
    Typed(s) && Exclusive(s) && Queued(s) && Inherited(s) && Restorable(s, base) && Granted(s)
  }

  // ---- rt_mutex_take keeps it -----------------------------------------------------------

  /** The thread has to wait. */
  ghost predicate MustWait(s: State, t: Thread, time: int) {
    t in s.phase && s.phase[t] == Ready && s.owner != Some(t) && s.value == 0 && time != 0
  }

  /** The owner's priority after a more urgent thread starts to wait. */
  function Boosted(s: State, t: Thread): map<Thread, nat>
    requires Typed(s) && t in s.priority && s.owner.Some?
  {
    var o := s.owner.value;
    if s.priority[t] < s.priority[o] then s.priority[o := s.priority[t]] else s.priority
  }

  lemma SortedSame(q: seq<Thread>, p1: map<Thread, nat>, p2: map<Thread, nat>)
    requires Sorted(q, p1) && forall w | w in q :: w in p1 && w in p2 && p2[w] == p1[w]
    ensures Sorted(q, p2)
  {
  }

  /** A priority list stays sorted when the owner, who is not on it, is boosted. */
  lemma BoostedSorted(s: State, t: Thread)
    requires Typed(s) && Exclusive(s) && Queued(s) && t in s.priority && s.owner.Some?
    ensures s.flag == PRIO ==> Sorted(s.waiters, Boosted(s, t))
    ensures forall w | w in s.waiters :: w in Boosted(s, t) && Boosted(s, t)[w] == s.priority[w]
  {
    hide Sorted, Distinct;
    if s.flag == PRIO {
      SortedSame(s.waiters, s.priority, Boosted(s, t));
    }
  }

  lemma BlockQueued(s: State, t: Thread, time: int, base: map<Thread, nat>)
    requires Inv(s, base) && MustWait(s, t, time)
    ensures Queued(Take(s, t, time).0)
    ensures forall x :: x in Take(s, t, time).0.waiters <==> x == t || x in s.waiters
  {
    hide Enqueue, Sorted, Distinct, Inherited, Restorable, Granted;
    var p := Boosted(s, t);
    BoostedSorted(s, t);
    assert t !in s.waiters;
    EnqueueOrder(s.waiters, p, s.flag, t);
    assert Take(s, t, time).0.waiters == Enqueue(s.waiters, p, s.flag, t);
  }

  lemma BlockShape(s: State, t: Thread, time: int)
    requires Typed(s) && Exclusive(s) && MustWait(s, t, time)
    ensures s.owner.Some? && t in s.priority
    ensures var r := Take(s, t, time).0;
      r == s.(error := s.error[t := EOK], priority := Boosted(s, t), waiters := r.waiters,
              phase := s.phase[t := Waiting(time > 0)])
  {
    hide Enqueue;
  }

  lemma BlockPriorities(s: State, t: Thread, time: int, base: map<Thread, nat>)
    requires Inv(s, base) && MustWait(s, t, time)
    ensures Inherited(Take(s, t, time).0) && Restorable(Take(s, t, time).0, base)
  {
    hide Queued, Enqueue, Take, Granted;
    BlockQueued(s, t, time, base);
    BlockShape(s, t, time);
    var p := Boosted(s, t);
    assert forall w | w in s.waiters :: p[s.owner.value] <= p[w];
  }

  lemma BlockKeeps(s: State, t: Thread, time: int, base: map<Thread, nat>)
    requires Inv(s, base) && MustWait(s, t, time)
    ensures Inv(Take(s, t, time).0, base)
  {
    BlockPriorities(s, t, time, base);
    BlockQueued(s, t, time, base);
    BlockShape(s, t, time);
    hide Queued, Enqueue, Take, Inherited, Restorable;
  }

  /** A step that changes no list keeps it well-formed. */
  lemma QueuedSame(s: State, r: State)
    requires Queued(s) && r.waiters == s.waiters && r.phase == s.phase && r.flag == s.flag && r.priority == s.priority
    requires forall w | w in s.waiters :: w in r.error && r.error[w] == EOK
    ensures Queued(r)
  {
    hide Sorted, Distinct;
  }

  /** What a take that does not block leaves as it was. */
  lemma TakeNowShape(s: State, t: Thread, time: int, base: map<Thread, nat>)
    requires Inv(s, base) && t in s.priority && s.phase[t] == Ready && !MustWait(s, t, time)
    ensures var r := Take(s, t, time).0;
      r == s.(owner := r.owner, value := r.value, hold := r.hold, original := r.original,
              error := s.error[t := r.error[t]])
    ensures t !in s.waiters
  {
    hide Sorted, Distinct, Restorable, Granted, Inherited;
  }

  lemma TakeNowExclusive(s: State, t: Thread, time: int, base: map<Thread, nat>)
    requires Inv(s, base) && t in s.priority && s.phase[t] == Ready && !MustWait(s, t, time)
    ensures Typed(Take(s, t, time).0) && Exclusive(Take(s, t, time).0) && Granted(Take(s, t, time).0)
  {
    hide Sorted, Distinct, Restorable, Inherited;
  }

  lemma TakeNowPriorities(s: State, t: Thread, time: int, base: map<Thread, nat>)
    requires Inv(s, base) && t in s.priority && s.phase[t] == Ready && !MustWait(s, t, time)
    ensures Inherited(Take(s, t, time).0) && Restorable(Take(s, t, time).0, base)
  {
    hide Queued, Granted;
  }

  lemma TakeKeeps(s: State, t: Thread, time: int, base: map<Thread, nat>)
    requires Inv(s, base) && t in s.priority && s.phase[t] == Ready
    ensures Inv(Take(s, t, time).0, base)
  {
    if MustWait(s, t, time) {
      BlockKeeps(s, t, time, base);
    } else {
      TakeNowShape(s, t, time, base);
      TakeNowExclusive(s, t, time, base);
      TakeNowPriorities(s, t, time, base);
      QueuedSame(s, Take(s, t, time).0);
    }
    hide Take, Exclusive, Granted, Restorable, Inherited;
  }

  lemma LeaveKeeps(s: State, t: Thread, base: map<Thread, nat>)
    requires Inv(s, base) && t in s.priority && s.phase[t] == Woken
    ensures Inv(Leave(s, t).0, base)
    ensures Leave(s, t).1 == Returned(EOK) <==> s.owner == Some(t)
  {
    hide Sorted, Distinct;
  }

  lemma ExpireQueued(s: State, t: Thread)
    requires Typed(s) && Queued(s) && t in s.priority && s.phase[t] == Waiting(true)
    ensures Queued(Expire(s, t)) && t in s.waiters
    ensures forall x :: x in Expire(s, t).waiters <==> x in s.waiters && x != t
  {
    hide Sorted, Distinct, Without;
    WithoutMembers(s.waiters, t);
    if s.flag == PRIO {
      WithoutSorted(s.waiters, t, s.priority);
    }
  }

  lemma ExpireKeeps(s: State, t: Thread, base: map<Thread, nat>)
    requires Inv(s, base) && t in s.priority && s.phase[t] == Waiting(true)
    ensures Inv(Expire(s, t), base)
  {
    hide Queued, Without;
    ExpireQueued(s, t);
  }

  // ---- rt_mutex_release keeps it ----------------------------------------------------------

  /** The owner gives up its last hold. */
  ghost predicate LastHold(s: State, t: Thread) {
    t in s.phase && s.phase[t] == Ready && s.owner == Some(t) && s.hold == 1
  }

  /** What the wake-up part of a full release starts from. */
  function Dropped(s: State, t: Thread): State
    requires t in s.priority
  {
    s.(hold := 0, priority := if s.original != s.priority[t] then s.priority[t := s.original] else s.priority)
  }

  lemma DroppedBase(s: State, t: Thread, base: map<Thread, nat>)
    requires Inv(s, base) && LastHold(s, t)
    ensures Typed(Dropped(s, t)) && Queued(Dropped(s, t)) && Dropped(s, t).priority == base
  {
    var d := Dropped(s, t);
    assert d.priority.Keys == base.Keys;
    assert forall x | x in base :: d.priority[x] == base[x];
    assert forall w | w in s.waiters :: d.priority[w] == s.priority[w];
  }

  lemma TailOrder(q: seq<Thread>, p1: map<Thread, nat>, p2: map<Thread, nat>)
    requires Distinct(q) && q != [] && forall w | w in q[1..] && w in p1 :: w in p2 && p2[w] == p1[w]
    ensures Distinct(q[1..]) && q[0] !in q[1..] && forall x :: x in q <==> x == q[0] || x in q[1..]
    ensures Sorted(q, p1) ==> Sorted(q[1..], p2)
  {
    assert forall i | 0 <= i < |q[1..]| :: q[1..][i] == q[i + 1];
    assert q == [q[0]] + q[1..];
  }

  /** Removing the head leaves a well-formed list. */
  lemma HeadOff(s: State, d: State)
    requires Queued(s) && s.waiters != [] && (forall w | w in s.waiters :: w in s.phase)
    requires d.waiters == s.waiters[1..] && d.error == s.error && d.flag == s.flag
    requires d.phase == s.phase[s.waiters[0] := Woken]
    requires forall w | w in d.waiters && w in s.priority :: w in d.priority && d.priority[w] == s.priority[w]
    ensures Queued(d) && s.waiters[0] !in d.waiters
    ensures forall w | w in d.waiters :: w in s.waiters
  {
    hide Sorted, Distinct;
    TailOrder(s.waiters, s.priority, d.priority);
  }

  /** The hand-off makes the new owner at least as urgent as every thread left behind. */
  lemma NewOwnerUrgent(d: State)
    requires Typed(d) && Queued(d) && d.waiters != []
    ensures d.flag == PRIO ==> d.priority[d.waiters[0]] <= Highest(d.waiters, d.priority)
    ensures Highest(d.waiters, d.priority) <= d.priority[d.waiters[0]]
    ensures forall w | w in d.waiters :: Highest(d.waiters, d.priority) <= d.priority[w]
  {
  }

  /** The state right after the hand-off, seen from the state `d` it starts from. */
  lemma HandOffShape(d: State)
    requires Typed(d) && Queued(d) && d.waiters != [] && d.hold == 0
    ensures var r := HandOff(d).0;
      var n := d.waiters[0];
      && HandOff(d).1 == Returned(EOK)
      && r == d.(owner := Some(n), original := d.priority[n], hold := 1, waiters := d.waiters[1..],
                 phase := d.phase[n := Woken], priority := r.priority)
      && r.priority == d.priority[n := r.priority[n]]
      && r.priority[n] <= d.priority[n]
      && (forall w | w in d.waiters :: r.priority[n] <= d.priority[w])
      && Queued(r) && n !in r.waiters
      && (forall w | w in r.waiters :: w in d.waiters)
  {
    NewOwnerUrgent(d);
    var r := HandOff(d).0;
    var n := d.waiters[0];
    assert d.priority == d.priority[n := d.priority[n]];
    assert forall w | w in d.waiters && w != n :: r.priority[w] == d.priority[w];
    assert n !in d.waiters[1..];
    HeadOff(d, r);
  }

  lemma ReleaseIsHandOff(s: State, t: Thread, base: map<Thread, nat>)
    requires Inv(s, base) && LastHold(s, t) && s.waiters != []
    ensures Release(s, t) == HandOff(Dropped(s, t)) && forall w | w in s.waiters :: w in s.priority
  {
    hide HandOff, Queued, Inherited, Restorable, Granted;
  }

  lemma HandOffPriorities(s: State, t: Thread, base: map<Thread, nat>)
    requires Inv(s, base) && LastHold(s, t) && s.waiters != []
    ensures Inherited(Release(s, t).0) && Restorable(Release(s, t).0, base)
  {
    hide HandOff, Queued, Release, Granted, Exclusive, Inherited;
    var d := Dropped(s, t);
    DroppedBase(s, t, base);
    ReleaseIsHandOff(s, t, base);
    HandOffShape(d);
    NewOwnerInherits(s, t, base);
  }

  lemma NewOwnerInherits(s: State, t: Thread, base: map<Thread, nat>)
    requires Inv(s, base) && LastHold(s, t) && s.waiters != []
    ensures Inherited(Release(s, t).0)
  {
    hide HandOff, Queued, Release, Granted, Exclusive, Restorable;
    DroppedBase(s, t, base);
    ReleaseIsHandOff(s, t, base);
    HandOffShape(Dropped(s, t));
  }

  lemma HandOffKeeps(s: State, t: Thread, base: map<Thread, nat>)
    requires Inv(s, base) && LastHold(s, t) && s.waiters != []
    ensures Inv(Release(s, t).0, base)
    ensures Release(s, t).1 == Returned(EOK)
  {
    hide HandOff, Queued, Release, Inherited, Restorable;
    DroppedBase(s, t, base);
    HandOffPriorities(s, t, base);
    ReleaseIsHandOff(s, t, base);
    HandOffShape(Dropped(s, t));
  }

  /** A release that hands nothing over. */
  lemma ReleaseAlone(s: State, t: Thread, base: map<Thread, nat>)
    requires Inv(s, base) && t in s.priority && s.phase[t] == Ready && !(LastHold(s, t) && s.waiters != [])
    ensures var r := Release(s, t).0;
      Typed(r) && Exclusive(r) && Granted(r) && Queued(r)
  {
    hide Sorted, Distinct, Restorable, Inherited;
    var r := Release(s, t).0;
    if LastHold(s, t) {
      DroppedBase(s, t, base);
      LastRelease(s, t);
      QueuedSame(Dropped(s, t), r);
    } else {
      QueuedSame(s, r);
    }
    hide Queued;
  }

  lemma LastRelease(s: State, t: Thread)
    requires Typed(s) && Exclusive(s) && LastHold(s, t) && s.waiters == []
    ensures Release(s, t).0 == Dropped(s, t).(value := 1, owner := None, original := 0xFF)
  {
  }

  lemma ReleaseAlonePriorities(s: State, t: Thread, base: map<Thread, nat>)
    requires Inv(s, base) && t in s.priority && s.phase[t] == Ready && !(LastHold(s, t) && s.waiters != [])
    ensures Inherited(Release(s, t).0) && Restorable(Release(s, t).0, base)
  {
    hide Queued, Granted;
    if LastHold(s, t) {
      DroppedBase(s, t, base);
      LastRelease(s, t);
      hide Release;
    }
  }

  lemma ReleaseKeeps(s: State, t: Thread, base: map<Thread, nat>)
    requires Inv(s, base) && t in s.priority && s.phase[t] == Ready
    ensures Inv(Release(s, t).0, base)
  {
    if LastHold(s, t) && s.waiters != [] {
      HandOffKeeps(s, t, base);
    } else {
      ReleaseAlone(s, t, base);
      ReleaseAlonePriorities(s, t, base);
    }
    hide Release, Queued, Granted, Inherited, Restorable;
  }
}
