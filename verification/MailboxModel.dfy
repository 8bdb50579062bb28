/** The mailbox as a step system: send, urgent, receive, timeout and reset on a bounded ring.

    Every interrupts-disabled region of rt_mb_send_wait, rt_mb_urgent, rt_mb_recv and rt_mb_control is
    one step.  A blocked call keeps its arguments in `call`; it goes on when its thread was resumed. */
module MailboxModel {
  import opened MailRing
  import opened WaitQueue
  import opened Waiters
  import opened WaitTime

  const ENTRY_MAX := 0xFFFF

  /** What a thread is doing inside the mailbox functions; `start` is the source's tick_delta. */
  datatype Call = Idle | Sending(mail: Mail, timeout: int, start: int) | Receiving(timeout: int, start: int)

  datatype Outcome = Returned(code: Code) | Received(mail: Mail) | Blocked

  datatype State = State(
    ring: Ring,
    flag: Flag,
    receivers: Side,
    senders: Side,
    priority: map<Thread, nat>,
    error: map<Thread, Code>,
    call: map<Thread, Call>)

  ghost predicate Member(s: State, t: Thread) {
    t in s.priority && t in s.error && t in s.call
  }

  ghost predicate Typed(s: State) {
    && Valid(s.ring)
    && (forall t | t in s.receivers.waiting :: Member(s, t))
    && (forall t | t in s.senders.waiting :: Member(s, t))
  }

  // ---- Steps ---------------------------------------------------------------------------

  /** The loop of rt_mb_send_wait from its test to the next rt_schedule or to the return. */
  function SendLoop(s: State, t: Thread, v: Mail, timeout: int, now: int): (State, Outcome)
    requires Typed(s) && Member(s, t)
  {
    var senders := Runs(s.senders, t);
    if s.ring.entry == s.ring.size then
      var error := s.error[t := EOK];
      if timeout == 0 then
        (s.(senders := senders, error := error, call := s.call[t := Idle]), Returned(EFULL))
      else
        (s.(senders := Sleeps(senders, Enqueue(s.senders.waiting, s.priority, s.flag, t)), error := error,
            call := s.call[t := Sending(v, timeout, if timeout > 0 then now else 0)]), Blocked)
    else if s.ring.entry < ENTRY_MAX then
      (s.(ring := Put(s.ring, v), senders := senders, receivers := WakeOne(s.receivers),
          call := s.call[t := Idle]), Returned(EOK))
    else
      (s.(ring := Put(s.ring, v).(entry := s.ring.entry), senders := senders, call := s.call[t := Idle]),
       Returned(EFULL))
  }

  function SendCall(s: State, t: Thread, v: Mail, timeout: int, now: int): (State, Outcome)
    requires Typed(s) && Member(s, t)
  {
    if s.ring.entry == s.ring.size && timeout == 0 then (s, Returned(EFULL))
    else SendLoop(s, t, v, timeout, now)
  }

  /** The sender runs after rt_schedule. */
  function SendReturn(s: State, t: Thread, now: int): (State, Outcome)
    requires Typed(s) && Member(s, t) && s.call[t].Sending?
  {
    var c := s.call[t];
    if s.error[t] != EOK then (s.(call := s.call[t := Idle]), Returned(s.error[t]))
    else SendLoop(s, t, c.mail, Remaining(c.timeout, c.start, now), now)
  }

  function Urgent(s: State, v: Mail): (State, Outcome)
    requires Typed(s)
  {
    if s.ring.entry == s.ring.size then (s, Returned(EFULL))
    else (s.(ring := PutFront(s.ring, v), receivers := WakeOne(s.receivers)), Returned(EOK))
  }

  function RecvLoop(s: State, t: Thread, timeout: int, now: int): (State, Outcome)
    requires Typed(s) && Member(s, t)
  {
    var receivers := Runs(s.receivers, t);
    if s.ring.entry == 0 then
      if timeout == 0 then
        (s.(receivers := receivers, error := s.error[t := EOK][t := ETIMEOUT], call := s.call[t := Idle]),
         Returned(ETIMEOUT))
      else
        (s.(receivers := Sleeps(receivers, Enqueue(s.receivers.waiting, s.priority, s.flag, t)),
            error := s.error[t := EOK],
            call := s.call[t := Receiving(timeout, if timeout > 0 then now else 0)]), Blocked)
    else
      (s.(ring := Drop(s.ring), receivers := receivers, senders := WakeOne(s.senders),
          call := s.call[t := Idle]), Received(Head(s.ring)))
  }

  function RecvCall(s: State, t: Thread, timeout: int, now: int): (State, Outcome)
    requires Typed(s) && Member(s, t)
  {
    if s.ring.entry == 0 && timeout == 0 then (s, Returned(ETIMEOUT))
    else RecvLoop(s, t, timeout, now)
  }

  function RecvReturn(s: State, t: Thread, now: int): (State, Outcome)
    requires Typed(s) && Member(s, t) && s.call[t].Receiving?
  {
    var c := s.call[t];
    if s.error[t] != EOK then (s.(call := s.call[t := Idle]), Returned(s.error[t]))
    else RecvLoop(s, t, Remaining(c.timeout, c.start, now), now)
  }

  /** rt_thread_timeout takes a thread off the list it waits on. */
  function Timeout(s: State, t: Thread): State {
    s.(error := s.error[t := ETIMEOUT], receivers := Expires(s.receivers, t), senders := Expires(s.senders, t))
  }

  function Reset(s: State): State {
    s.(ring := s.ring.(inOffset := 0, outOffset := 0, entry := 0),
       error := FailAll(FailAll(s.error, s.receivers.waiting), s.senders.waiting),
       receivers := Sleeps(s.receivers, []), senders := Sleeps(s.senders, []))
  }

  // ---- The initial state -----------------------------------------------------------------

  function NoErrors(priority: map<Thread, nat>): map<Thread, Code> { map t | t in priority :: EOK }

  function NoCalls(priority: map<Thread, nat>): map<Thread, Call> { map t | t in priority :: Idle }

  /** rt_mb_init */
  function InitialState(pool: seq<Mail>, flag: Flag, priority: map<Thread, nat>): State {
    State(Empty(pool), flag, Side([], {}), Side([], {}), priority, NoErrors(priority), NoCalls(priority))
  }

  // ---- The invariant ---------------------------------------------------------------------

  function Free(s: State): int { s.ring.size - s.ring.entry }

  ghost predicate PlacedAt(s: State, t: Thread) {
    && (t in s.senders.waiting || t in s.senders.woken <==>
          Member(s, t) && s.call[t].Sending? && s.error[t] == EOK)
    && (t in s.receivers.waiting || t in s.receivers.woken <==>
          Member(s, t) && s.call[t].Receiving? && s.error[t] == EOK)
  }

  /** A blocked thread without an error code is on its list or was resumed from it, and no other is. */
  ghost predicate Placed(s: State) {
    forall t: Thread :: PlacedAt(s, t)
  }

  /** No thread sleeps for a mail, or for a free slot, that nobody is on the way to take. */
  ghost predicate Quiet(s: State) {
    NotStranded(s.receivers, s.ring.entry) && NotStranded(s.senders, Free(s))
  }

  ghost predicate Inv(s: State) {
    Typed(s) && s.ring.size <= ENTRY_MAX && Placed(s) && Quiet(s)
  }

  ghost predicate Asleep(s: State, t: Thread) {
    t in s.receivers.waiting || t in s.senders.waiting
  }

  // ---- Sending keeps it --------------------------------------------------------------------

  /** The thread may run the send loop: it just called, or was resumed. */
  ghost predicate MaySend(s: State, t: Thread) {
    Member(s, t) && !Asleep(s, t) && (s.call[t].Idle? || (s.call[t].Sending? && s.error[t] == EOK))
  }

  ghost predicate MayRecv(s: State, t: Thread) {
    Member(s, t) && !Asleep(s, t) && (s.call[t].Idle? || (s.call[t].Receiving? && s.error[t] == EOK))
  }

  lemma SendPlaced(s: State, t: Thread, v: Mail, timeout: int, now: int)
    requires Inv(s) && MaySend(s, t)
    ensures Placed(SendLoop(s, t, v, timeout, now).0)
    ensures forall x | x in SendLoop(s, t, v, timeout, now).0.senders.waiting :: x == t || x in s.senders.waiting
    ensures forall x | x in SendLoop(s, t, v, timeout, now).0.receivers.waiting :: x in s.receivers.waiting
  {
    EnqueueOrder(s.senders.waiting, s.priority, s.flag, t);
    WakeOneMembers(s.receivers);
    hide Enqueue, Valid, WakeOne, Quiet, Put, PlacedAt;
    forall x: Thread ensures PlacedAt(SendLoop(s, t, v, timeout, now).0, x) {
      SendPlacedAt(s, t, v, timeout, now, x);
    }
  }

  lemma SendPlacedAt(s: State, t: Thread, v: Mail, timeout: int, now: int, x: Thread)
    requires Inv(s) && MaySend(s, t)
    ensures PlacedAt(SendLoop(s, t, v, timeout, now).0, x)
  {
    assert PlacedAt(s, x) && PlacedAt(s, t) && Distinct(s.senders.waiting);
    hide Enqueue, Valid, WakeOne, Quiet, Put, Placed, Distinct, Sorted;
    EnqueueOrder(s.senders.waiting, s.priority, s.flag, t);
    WakeOneMembers(s.receivers);
  }

  lemma SendQuiet(s: State, t: Thread, v: Mail, timeout: int, now: int)
    requires Inv(s) && MaySend(s, t)
    ensures Quiet(SendLoop(s, t, v, timeout, now).0)
  {
    if s.ring.entry == s.ring.size {
      MissKeeps(s.senders, t);
      if timeout != 0 {
        SleepKeeps(Runs(s.senders, t), s.priority, s.flag, t);
      }
    } else {
      TakeKeeps(s.senders, Free(s), t);
      PostKeeps(s.receivers, s.ring.entry);
    }
    hide NotStranded, Enqueue, Valid, WakeOne;
  }

  lemma SendLoopKeeps(s: State, t: Thread, v: Mail, timeout: int, now: int)
    requires Inv(s) && MaySend(s, t)
    ensures Inv(SendLoop(s, t, v, timeout, now).0)
  {
    assert s.ring.entry <= s.ring.size;
    hide Placed, Quiet, Valid, WakeOne, Enqueue, Contents;
    SendPlaced(s, t, v, timeout, now);
    SendQuiet(s, t, v, timeout, now);
    if s.ring.entry < s.ring.size {
      PutAppends(s.ring, v);
    }
  }

  /** The overflow exit of rt_mb_send_wait is never taken. */
  lemma NoOverflow(s: State)
    requires Inv(s) && s.ring.entry != s.ring.size
    ensures s.ring.entry < ENTRY_MAX
  {
  }

  lemma UrgentKeeps(s: State, v: Mail)
    requires Inv(s)
    ensures Inv(Urgent(s, v).0)
  {
    if s.ring.entry < s.ring.size {
      PutFrontPrepends(s.ring, v);
      PostKeeps(s.receivers, s.ring.entry);
      LessKeeps(s.senders, Free(s), Free(s) - 1);
      WakeOneMembers(s.receivers);
      hide Valid, PutFront, WakeOne, Contents, NotStranded;
      var r := Urgent(s, v).0;
      forall x: Thread ensures PlacedAt(r, x) {
        assert PlacedAt(s, x);
      }
    }
  }

  // ---- Receiving keeps it ------------------------------------------------------------------

  lemma RecvPlaced(s: State, t: Thread, timeout: int, now: int)
    requires Inv(s) && MayRecv(s, t)
    ensures Placed(RecvLoop(s, t, timeout, now).0)
    ensures forall x | x in RecvLoop(s, t, timeout, now).0.receivers.waiting :: x == t || x in s.receivers.waiting
    ensures forall x | x in RecvLoop(s, t, timeout, now).0.senders.waiting :: x in s.senders.waiting
  {
    EnqueueOrder(s.receivers.waiting, s.priority, s.flag, t);
    WakeOneMembers(s.senders);
    hide Enqueue, Valid, WakeOne, Quiet, Drop, PlacedAt;
    forall x: Thread ensures PlacedAt(RecvLoop(s, t, timeout, now).0, x) {
      RecvPlacedAt(s, t, timeout, now, x);
    }
  }

  lemma RecvPlacedAt(s: State, t: Thread, timeout: int, now: int, x: Thread)
    requires Inv(s) && MayRecv(s, t)
    ensures PlacedAt(RecvLoop(s, t, timeout, now).0, x)
  {
    hide Inv, PlacedAt, RecvLoop;
    if s.ring.entry == 0 {
      RecvWaitsPlacedAt(s, t, timeout, now, x);
    } else {
      RecvTakesPlacedAt(s, t, timeout, now, x);
    }
  }

  lemma RecvWaitsPlacedAt(s: State, t: Thread, timeout: int, now: int, x: Thread)
    requires Inv(s) && MayRecv(s, t) && s.ring.entry == 0
    ensures PlacedAt(RecvLoop(s, t, timeout, now).0, x)
  {
    assert PlacedAt(s, x) && PlacedAt(s, t) && Distinct(s.receivers.waiting);
    hide Enqueue, Valid, Quiet, Placed, Distinct, Sorted;
    EnqueueOrder(s.receivers.waiting, s.priority, s.flag, t);
  }

  lemma RecvTakesPlacedAt(s: State, t: Thread, timeout: int, now: int, x: Thread)
    requires Inv(s) && MayRecv(s, t) && s.ring.entry > 0
    ensures PlacedAt(RecvLoop(s, t, timeout, now).0, x)
  {
    assert PlacedAt(s, x) && PlacedAt(s, t);
    hide Enqueue, Valid, WakeOne, Quiet, Drop, Placed;
    WakeOneMembers(s.senders);
  }

  lemma RecvQuiet(s: State, t: Thread, timeout: int, now: int)
    requires Inv(s) && MayRecv(s, t)
    ensures Quiet(RecvLoop(s, t, timeout, now).0)
  {
    if s.ring.entry == 0 {
      MissKeeps(s.receivers, t);
      if timeout != 0 {
        SleepKeeps(Runs(s.receivers, t), s.priority, s.flag, t);
      }
    } else {
      TakeKeeps(s.receivers, s.ring.entry, t);
      PostKeeps(s.senders, Free(s));
    }
    hide NotStranded, Enqueue, Valid, WakeOne;
  }

  lemma RecvLoopKeeps(s: State, t: Thread, timeout: int, now: int)
    requires Inv(s) && MayRecv(s, t)
    ensures Inv(RecvLoop(s, t, timeout, now).0)
  {
    assert s.ring.entry <= s.ring.size;
    hide Placed, Quiet, Valid, WakeOne, Enqueue, Contents;
    RecvPlaced(s, t, timeout, now);
    RecvQuiet(s, t, timeout, now);
    if s.ring.entry > 0 {
      DropPops(s.ring);
    }
  }

  // ---- Timeouts and reset keep it -------------------------------------------------------------

  ghost predicate Timed(c: Call) { !c.Idle? && c.timeout > 0 }

  lemma TimeoutKeeps(s: State, t: Thread)
    requires Inv(s) && Member(s, t) && Asleep(s, t)
    ensures Inv(Timeout(s, t))
  {
    ExpireKeeps(s.receivers, s.ring.entry, t);
    ExpireKeeps(s.senders, Free(s), t);
    WithoutMembers(s.receivers.waiting, t);
    WithoutMembers(s.senders.waiting, t);
    assert PlacedAt(s, t);
    hide Without, Valid;
    var r := Timeout(s, t);
    forall x: Thread ensures PlacedAt(r, x) {
      assert PlacedAt(s, x);
    }
  }

  lemma ResetKeeps(s: State)
    requires Inv(s)
    ensures Inv(Reset(s))
  {
    ResumeAllCodes(s.error, s.receivers.waiting, s.senders.waiting);
    var r := Reset(s);
    forall x: Thread ensures PlacedAt(r, x) {
      assert PlacedAt(s, x);
    }
  }

  // ---- Leaving with an error code --------------------------------------------------------------

  lemma LeaveKeeps(s: State, t: Thread)
    requires Inv(s) && Member(s, t) && s.error[t] != EOK
    ensures Inv(s.(call := s.call[t := Idle]))
  {
    hide Valid, NotStranded;
    var r := s.(call := s.call[t := Idle]);
    forall x: Thread ensures PlacedAt(r, x) {
      assert PlacedAt(s, x);
    }
  }
}
