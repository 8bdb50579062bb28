/** What rt_mutex_take and rt_mutex_release answer in every state of a run, and the state they leave. */
module MutexAnswers {
  import opened Options
  import opened WaitQueue
  import opened MutexModel

  /** A take succeeds at once exactly when the mutex is free or the caller's own with less than 255 holds, and
      fails exactly at 255; from another owner the caller gives up or blocks by its timeout. */
  lemma TakeExactly(s: State, t: Thread, time: int, base: map<Thread, nat>)
    requires Inv(s, base) && t in s.priority
    ensures var (r, o) := Take(s, t, time);
      && (o == Returned(EOK) <==> s.owner.None? || (s.owner.value == t && s.hold < 255))
      && (o == Returned(EFULL) <==> s.owner.Some? && s.owner.value == t && s.hold == 255)
      && (o == Returned(ETIMEOUT) <==> s.owner.Some? && s.owner.value != t && time == 0)
      && (o == Blocked <==> s.owner.Some? && s.owner.value != t && time != 0)
      && (o == Returned(EOK) ==>
            r == s.(owner := Some(t), hold := s.hold + 1, value := 0, error := s.error[t := EOK],
                    original := if s.owner.None? then s.priority[t] else s.original))
      && (o == Returned(EFULL) ==> r == s.(error := s.error[t := EOK]))
      && (o == Returned(ETIMEOUT) ==> r == s.(error := s.error[t := ETIMEOUT]))
  {
    hide Queued, Inherited, Restorable, Granted, Enqueue;
  }

  /** A blocked take puts the caller on the list and makes the owner as urgent as the caller, if it is less
      urgent, and no more than that; nothing else changes. */
  lemma BlocksExactly(s: State, t: Thread, time: int, base: map<Thread, nat>)
    requires Inv(s, base) && t in s.priority && s.owner.Some? && s.owner.value != t && time != 0
    ensures s.owner.value in s.priority
    ensures var p := s.priority[s.owner.value := Least(s.priority[s.owner.value], s.priority[t])];
      && (forall x | x in s.waiters :: x in p)
      && Take(s, t, time).0 ==
         s.(priority := p, waiters := Enqueue(s.waiters, p, s.flag, t), error := s.error[t := EOK],
            phase := s.phase[t := Waiting(time > 0)])
  {
    hide Queued, Inherited, Restorable, Granted, Enqueue;
    assert s.priority[s.owner.value := s.priority[s.owner.value]] == s.priority;
  }

  function Least(a: nat, b: nat): nat { if a < b then a else b }

  /** A release by another thread fails; the owner's own release always succeeds, takes one hold off, and with
      the last one gives the mutex up or to the first waiter. */
  lemma ReleaseExactly(s: State, t: Thread, base: map<Thread, nat>)
    requires Inv(s, base) && t in s.priority && s.phase[t] == Ready
    ensures var (r, o) := Release(s, t);
      && (o == Returned(ERROR) <==> s.owner != Some(t))
      && (o == Returned(EOK) <==> s.owner == Some(t))
      && (s.owner != Some(t) ==> r == s.(error := s.error[t := ERROR]))
      && (s.owner == Some(t) && s.hold > 1 ==> r == s.(hold := s.hold - 1))
      && (s.owner == Some(t) && s.hold == 1 && s.waiters == [] ==>
            r == s.(hold := 0, value := 1, owner := None, original := 0xFF, priority := base))
  {
    if s.owner == Some(t) && s.hold == 1 {
      DroppedBase(s, t, base);
      if s.waiters == [] {
        LastRelease(s, t);
      } else {
        ReleaseIsHandOff(s, t, base);
        HandOffShape(Dropped(s, t));
      }
    }
    hide Queued, Inherited, Restorable, Granted, HandOff;
  }

  /** With waiters, the last release makes the first of them the owner, once; all threads run at their own
      priority, the new owner at that of the most urgent waiter. */
  lemma HandsOverExactly(s: State, t: Thread, base: map<Thread, nat>)
    requires Inv(s, base) && t in s.priority && s.phase[t] == Ready
    requires s.owner == Some(t) && s.hold == 1 && s.waiters != []
    ensures var r := Release(s, t).0;
      var n := s.waiters[0];
      && n in base && n in r.priority
      && r == s.(owner := Some(n), original := base[n], hold := 1, waiters := s.waiters[1..],
                 phase := s.phase[n := Woken], priority := base[n := r.priority[n]])
      && (forall x | x in s.waiters :: x in base && r.priority[n] <= base[x])
      && exists x :: x in s.waiters && r.priority[n] == base[x]
  {
    var d := Dropped(s, t);
    DroppedBase(s, t, base);
    ReleaseIsHandOff(s, t, base);
    HandOffShape(d);
    LeastUrgency(d);
    hide Queued, Inherited, Restorable, Granted, HandOff, Release;
  }

  /** The urgency that the new owner gets is that of some waiter. */
  lemma LeastUrgency(d: State)
    requires Typed(d) && d.waiters != []
    ensures var r := HandOff(d).0;
      var n := d.waiters[0];
      n in r.priority && exists x :: x in d.waiters && x in d.priority && r.priority[n] == d.priority[x]
  {
    var n := d.waiters[0];
    assert n in d.waiters;
    var top := Highest(d.waiters, d.priority);
    if top == PRIORITY_MAX - 1 {
      assert d.priority[n] == top;
    } else {
      var i :| 0 <= i < |d.waiters| && top == d.priority[d.waiters[i]];
      assert d.waiters[i] in d.waiters;
    }
    hide Highest;
  }
}
