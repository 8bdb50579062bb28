/** What rt_mp_alloc and rt_mp_free answer in every state of a run, and what they do to the blocks and to the
    waiting threads. */
module PoolAnswers {
  import opened Links
  import opened WaitQueue
  import opened Waiters
  import opened WaitTime
  import opened PoolModel

  /** The loop ends with a block exactly when one is free, the first of the free list, whose header then points
      to the pool; otherwise the caller gives up, or goes to the front of the list, by its timeout. */
  lemma AllocExactly(s: State, t: Thread, time: int, now: int)
    requires Inv(s) && Member(s, t)
    ensures var (r, o) := AllocLoop(s, t, time, now);
      && (o.Allocated? <==> s.free != [])
      && (o == Failed <==> s.free == [] && time == 0)
      && (o == Blocked <==> s.free == [] && time != 0)
      && (if o.Allocated? then
            && o.block == s.free[0] && RunsOn(s.waiters, r.waiters, t)
            && r == s.(free := s.free[1..], freeCount := s.freeCount - 1, call := s.call[t := Idle],
                       headers := s.headers[s.free[0] := Owner], waiters := r.waiters)
          else if o == Blocked then
            && r.waiters.waiting == [t] + s.waiters.waiting
            && r == s.(error := s.error[t := EOK], waiters := r.waiters,
                       call := s.call[t := Allocating(time, if time > 0 then now else 0)])
          else
            && RunsOn(s.waiters, r.waiters, t)
            && r == s.(error := s.error[t := ETIMEOUT], call := s.call[t := Idle], waiters := r.waiters))
  {
    hide Placed, NotStranded, SideAt;
  }

  /** A resumed call fails exactly when its thread has an error code; otherwise it takes what it has slept off
      its time. */
  lemma WakesExactly(s: State, t: Thread, now: int)
    requires Member(s, t) && s.call[t].Allocating?
    ensures var (r, o) := AllocWake(s, t, now);
      var c := s.call[t];
      && (o == Failed <==> s.error[t] != EOK)
      && (o == Awake <==> s.error[t] == EOK)
      && r == s.(call := s.call[t := if o == Failed then Idle else Retrying(Remaining(c.time, c.start, now))])
  {
  }

  /** A block that is freed becomes the first of the free list; the first waiter, if there is one, is resumed
      with RT_EOK. */
  lemma FreesExactly(s: State, n: Block)
    requires Inv(s) && n < |s.headers| && s.headers[n] == Owner
    ensures var r := Free(s, n);
      && r.free == [n] + s.free && r.freeCount == s.freeCount + 1
      && r.headers == s.headers[n := Next(if s.free == [] then -1 else s.free[0])]
      && FirstResumed(s.waiters, r.waiters) && r.call == s.call
      && r.error == if s.waiters.waiting == [] then s.error else s.error[s.waiters.waiting[0] := EOK]
  {
  }
}
