/** What each part of a send and of a receive answers in every state of a run of the message queue, and what
    it does to the nodes and to the waiting threads. */
module QueueAnswers {
  import opened WaitQueue
  import opened Waiters
  import opened WaitTime
  import opened QueueModel
  import QueueSteps

  // ---- Sending ------------------------------------------------------------------------------------

  /** A call fails at once exactly when the message is too long, or when there is no free node and it may not
      wait; all others enter the loop. */
  lemma SendStarts(s: State, t: Thread, msg: Bytes, timeout: int, now: int)
    requires Typed(s) && Member(s, t)
    ensures var (r, o) := SendCall(s, t, msg, timeout, now);
      && (o == Returned(ERROR) <==> |msg| > s.msgSize)
      && (|msg| > s.msgSize ==> r == s)
      && (|msg| <= s.msgSize && s.free == [] && timeout == 0 ==> r == s && o == Returned(EFULL))
      && (|msg| <= s.msgSize && (s.free != [] || timeout != 0) ==> (r, o) == SendLoop(s, t, msg, timeout, now))
  {
  }

  /** The loop ends with a node exactly when one is free, the first of the free list; otherwise the caller
      gives up or blocks by its timeout. */
  lemma SendExactly(s: State, t: Thread, msg: Bytes, timeout: int, now: int)
    requires Typed(s) && Member(s, t)
    ensures var (r, o) := SendLoop(s, t, msg, timeout, now);
      && (o == Working <==> s.free != [])
      && (o == Returned(EFULL) <==> s.free == [] && timeout == 0)
      && (o == Blocked <==> s.free == [] && timeout != 0)
      && (if o == Working then
            r == s.(free := s.free[1..], call := s.call[t := Filling(s.free[0], msg, false)], senders := r.senders)
          else if o == Blocked then
            r == s.(error := s.error[t := EOK], senders := r.senders,
                    call := s.call[t := Sending(msg, timeout, if timeout > 0 then now else 0)])
          else r == s.(error := s.error[t := EOK], call := s.call[t := Idle], senders := r.senders))
      && (if o == Blocked then r.senders.waiting == Enqueue(s.senders.waiting, s.priority, s.flag, t)
          else RunsOn(s.senders, r.senders, t))
  {
    hide Enqueue;
  }

  /** rt_mq_urgent never waits. */
  lemma UrgentExactly(s: State, t: Thread, msg: Bytes)
    requires Typed(s) && Member(s, t)
    ensures var (r, o) := UrgentCall(s, t, msg);
      && (o == Returned(ERROR) <==> |msg| > s.msgSize)
      && (o == Returned(EFULL) <==> |msg| <= s.msgSize && s.free == [])
      && (o == Working <==> |msg| <= s.msgSize && s.free != [])
      && r == if o == Working then s.(free := s.free[1..], call := s.call[t := Filling(s.free[0], msg, true)]) else s
  {
  }

  /** The copy puts the message at the front of the thread's node and changes no other byte. */
  lemma CopyInExactly(s: State, t: Thread)
    requires Typed(s) && t in s.call && s.call[t].Filling?
    ensures var r, c := CopyIn(s, t), s.call[t];
      && c.node < |s.data| && |r.data| == |s.data| && |r.data[c.node]| == s.msgSize && |c.msg| <= s.msgSize
      && (forall k | 0 <= k < s.msgSize ::
            r.data[c.node][k] == if k < |c.msg| then c.msg[k] else s.data[c.node][k])
      && (forall n | 0 <= n < |s.data| && n != c.node :: r.data[n] == s.data[n])
      && r == s.(data := r.data, call := s.call[t := Filled(c.node, c.msg, c.urgent)])
  {
  }

  /** A filled node always gets into the queue: behind the others, or in front of them for an urgent message;
      the first receiver is resumed. */
  lemma LinkExactly(s: State, t: Thread)
    requires Inv(s) && t in s.call && s.call[t].Filled?
    ensures var (r, o) := Link(s, t);
      && o == Returned(EOK) && FirstResumed(s.receivers, r.receivers)
      && r == s.(queue := if s.call[t].urgent then [s.call[t].node] + s.queue else s.queue + [s.call[t].node],
                 entry := s.entry + 1, call := s.call[t := Idle], receivers := r.receivers)
  {
    QueueSteps.RoomToLink(s, t);
  }

  // ---- Receiving ----------------------------------------------------------------------------------

  lemma RecvStarts(s: State, t: Thread, size: nat, timeout: int, now: int)
    requires Inv(s) && Member(s, t)
    ensures var (r, o) := RecvCall(s, t, size, timeout, now);
      if s.queue == [] && timeout == 0 then r == s && o == Returned(ETIMEOUT)
      else (r, o) == RecvLoop(s, t, size, timeout, now)
  {
  }

  /** The loop ends with a message exactly when there is one, the first of the queue; otherwise the caller
      gives up or blocks by its timeout. */
  lemma RecvExactly(s: State, t: Thread, size: nat, timeout: int, now: int)
    requires Inv(s) && Member(s, t)
    ensures var (r, o) := RecvLoop(s, t, size, timeout, now);
      && (o == Working <==> s.queue != [])
      && (o == Returned(ETIMEOUT) <==> s.queue == [] && timeout == 0)
      && (o == Blocked <==> s.queue == [] && timeout != 0)
      && (if o == Working then
            r == s.(queue := s.queue[1..], entry := s.entry - 1, call := s.call[t := Draining(s.queue[0], size)],
                    receivers := r.receivers)
          else if o == Blocked then
            r == s.(error := s.error[t := EOK], receivers := r.receivers,
                    call := s.call[t := Receiving(size, timeout, if timeout > 0 then now else 0)])
          else r == s.(error := s.error[t := ETIMEOUT], call := s.call[t := Idle], receivers := r.receivers))
      && (if o == Blocked then r.receivers.waiting == Enqueue(s.receivers.waiting, s.priority, s.flag, t)
          else RunsOn(s.receivers, r.receivers, t))
  {
    hide Enqueue, Partition, Placed, Quiet;
    assert s.error[t := EOK][t := ETIMEOUT] == s.error[t := ETIMEOUT];
  }

  /** The copy takes the first bytes of the node, as many as the buffer and a node hold. */
  lemma CopyOutExactly(s: State, t: Thread)
    requires Typed(s) && t in s.call && s.call[t].Draining?
    ensures var r, c := CopyOut(s, t), s.call[t];
      && c.node < |s.data| && t in r.call && r.call[t].Drained?
      && r == s.(call := s.call[t := Drained(c.node, c.size, r.call[t].copy)])
      && (|r.call[t].copy| == if c.size < s.msgSize then c.size else s.msgSize)
      && forall k | 0 <= k < |r.call[t].copy| :: k < |s.data[c.node]| && r.call[t].copy[k] == s.data[c.node][k]
  {
  }

  /** The node goes back to the front of the free list, the first sender is resumed, and the copy is
      returned. */
  lemma UnlinkExactly(s: State, t: Thread)
    requires t in s.call && s.call[t].Drained?
    ensures var (r, o) := Unlink(s, t);
      && o == Received(s.call[t].copy) && FirstResumed(s.senders, r.senders)
      && r == s.(free := [s.call[t].node] + s.free, call := s.call[t := Idle], senders := r.senders)
  {
  }

  /** A call whose thread was resumed returns the thread's error code exactly when there is one, and goes on
      with what is left of its timeout otherwise. */
  lemma ReturnsExactly(s: State, t: Thread, now: int)
    requires Typed(s) && Member(s, t)
    ensures s.call[t].Sending? ==>
      var c := s.call[t];
      SendReturn(s, t, now) ==
        if s.error[t] != EOK then (s.(call := s.call[t := Idle]), Returned(s.error[t]))
        else SendLoop(s, t, c.msg, Remaining(c.timeout, c.start, now), now)
    ensures s.call[t].Receiving? ==>
      var c := s.call[t];
      RecvReturn(s, t, now) ==
        if s.error[t] != EOK then (s.(call := s.call[t := Idle]), Returned(s.error[t]))
        else RecvLoop(s, t, c.size, Remaining(c.timeout, c.start, now), now)
  {
  }
}
