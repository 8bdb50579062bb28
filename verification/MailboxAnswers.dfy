/** What a send, an urgent send and a receive answer in every state of a run, and what they do to the mails
    and to the waiting threads. */
module MailboxAnswers {
  import opened MailRing
  import opened WaitQueue
  import opened Waiters
  import opened WaitTime
  import opened MailboxModel

  /** The mails in the box, in the order in which they will be received. */
  ghost function Mails(s: State): seq<Mail>
    requires Valid(s.ring)
  {
    Contents(s.ring)
  }

  /** rt_mb_send_wait, from the test of its loop: the mail is accepted exactly when there is room for it and
      goes behind the others, and the first receiver is resumed; on a full mailbox the caller gives up or
      blocks by its timeout. */
  lemma SendExactly(s: State, t: Thread, v: Mail, timeout: int, now: int)
    requires Inv(s) && Member(s, t)
    ensures var (r, o) := SendLoop(s, t, v, timeout, now);
      && (o == Returned(EOK) <==> |Mails(s)| < s.ring.size)
      && (o == Returned(EFULL) <==> |Mails(s)| == s.ring.size && timeout == 0)
      && (o == Blocked <==> |Mails(s)| == s.ring.size && timeout != 0)
      && (o == Returned(EOK) ==>
            && Valid(r.ring) && Mails(r) == Mails(s) + [v] && FirstResumed(s.receivers, r.receivers)
            && RunsOn(s.senders, r.senders, t) && r.error == s.error)
      && (o != Returned(EOK) ==> r.ring == s.ring && r.receivers == s.receivers && r.error == s.error[t := EOK])
      && (o == Returned(EFULL) ==> RunsOn(s.senders, r.senders, t))
      && (o == Blocked ==> r.senders.waiting == Enqueue(s.senders.waiting, s.priority, s.flag, t))
      && r.call == s.call[t := if o == Blocked then Sending(v, timeout, if timeout > 0 then now else 0) else Idle]
  {
    hide Valid, Contents, Placed, Quiet, Put, Enqueue;
    RingSize(s.ring);
    if s.ring.entry < s.ring.size {
      PutAppends(s.ring, v);
    }
  }

  lemma RingSize(r: Ring)
    requires Valid(r)
    ensures r.entry <= r.size && |Contents(r)| == r.entry
  {
  }

  /** A call fails at once on a full mailbox exactly when it may not wait; all others enter the loop. */
  lemma SendStarts(s: State, t: Thread, v: Mail, timeout: int, now: int)
    requires Inv(s) && Member(s, t)
    ensures var (r, o) := SendCall(s, t, v, timeout, now);
      if |Mails(s)| == s.ring.size && timeout == 0 then r == s && o == Returned(EFULL)
      else (r, o) == SendLoop(s, t, v, timeout, now)
  {
  }

  /** rt_mb_urgent: accepted exactly when there is room, in front of the others. */
  lemma UrgentExactly(s: State, v: Mail)
    requires Inv(s)
    ensures var (r, o) := Urgent(s, v);
      && (o == Returned(EOK) <==> |Mails(s)| < s.ring.size)
      && (o == Returned(EFULL) <==> |Mails(s)| == s.ring.size)
      && (if o == Returned(EOK) then
            && Valid(r.ring) && Mails(r) == [v] + Mails(s) && FirstResumed(s.receivers, r.receivers)
            && r == s.(ring := r.ring, receivers := r.receivers)
          else r == s)
  {
    hide Valid, Contents, Placed, Quiet, PutFront;
    RingSize(s.ring);
    if s.ring.entry < s.ring.size {
      PutFrontPrepends(s.ring, v);
    }
  }

  /** rt_mb_recv, from the test of its loop: it returns the first mail exactly when there is one, and resumes
      the first sender; on an empty mailbox the caller gives up or blocks by its timeout. */
  lemma RecvExactly(s: State, t: Thread, timeout: int, now: int)
    requires Inv(s) && Member(s, t)
    ensures var (r, o) := RecvLoop(s, t, timeout, now);
      && (o.Received? <==> Mails(s) != [])
      && (o == Returned(ETIMEOUT) <==> Mails(s) == [] && timeout == 0)
      && (o == Blocked <==> Mails(s) == [] && timeout != 0)
      && (o.Received? ==>
            && Valid(r.ring) && Mails(s) == [o.mail] + Mails(r) && FirstResumed(s.senders, r.senders)
            && RunsOn(s.receivers, r.receivers, t) && r.error == s.error)
      && (!o.Received? ==> r.ring == s.ring && r.senders == s.senders)
      && (o == Returned(ETIMEOUT) ==> RunsOn(s.receivers, r.receivers, t) && r.error == s.error[t := ETIMEOUT])
      && (o == Blocked ==>
            && r.receivers.waiting == Enqueue(s.receivers.waiting, s.priority, s.flag, t)
            && r.error == s.error[t := EOK])
      && r.call == s.call[t := if o == Blocked then Receiving(timeout, if timeout > 0 then now else 0) else Idle]
  {
    hide Valid, Contents, Placed, Quiet, Drop, Enqueue;
    RingSize(s.ring);
    if s.ring.entry > 0 {
      DropPops(s.ring);
    }
  }

  lemma RecvStarts(s: State, t: Thread, timeout: int, now: int)
    requires Inv(s) && Member(s, t)
    ensures var (r, o) := RecvCall(s, t, timeout, now);
      if Mails(s) == [] && timeout == 0 then r == s && o == Returned(ETIMEOUT)
      else (r, o) == RecvLoop(s, t, timeout, now)
  {
    RingSize(s.ring);
  }

  /** A call whose thread was resumed returns the thread's error code exactly when there is one, and goes on
      with what is left of its timeout otherwise. */
  lemma ReturnsExactly(s: State, t: Thread, now: int)
    requires Inv(s) && Member(s, t)
    ensures s.call[t].Sending? ==>
      var c := s.call[t];
      SendReturn(s, t, now) ==
        if s.error[t] != EOK then (s.(call := s.call[t := Idle]), Returned(s.error[t]))
        else SendLoop(s, t, c.mail, Remaining(c.timeout, c.start, now), now)
    ensures s.call[t].Receiving? ==>
      var c := s.call[t];
      RecvReturn(s, t, now) ==
        if s.error[t] != EOK then (s.(call := s.call[t := Idle]), Returned(s.error[t]))
        else RecvLoop(s, t, Remaining(c.timeout, c.start, now), now)
  {
  }
}
