/** What the mailbox guarantees over whole runs: it is a bounded deque, nobody is stranded, and a
    blocked call waits for the time it was given. */
module MailboxRuns {
  import opened MailRing
  import opened Options
  import opened WaitQueue
  import opened Waiters
  import opened WaitTime
  import opened MailboxModel

  /** One critical section, a thread's timer, or the passing of time. */
  datatype Event =
    | SendStart(t: Thread, v: Mail, timeout: int) | SendAgain(t: Thread) | UrgentStart(v: Mail)
    | RecvStart(t: Thread, timeout: int) | RecvAgain(t: Thread)
    | Timer(t: Thread) | ResetStart | Ticks(n: nat)

  /** `deque` is what the mailbox should hold, `sent` and `received` what callers saw go in and out;
      `time` is the unwrapped tick count. */
  datatype World = World(
    s: State, deque: seq<Mail>, sent: seq<Mail>, received: seq<Mail>,
    time: nat, clock: map<Thread, Clock>)

  function Now(w: World): int { w.time % TWO32 }

  ghost predicate Legal(w: World, e: Event) {
    && Typed(w.s)
    && match e
       case SendStart(t, v, timeout) => Member(w.s, t) && w.s.call[t].Idle? && timeout < TWO31
       case SendAgain(t) => Member(w.s, t) && w.s.call[t].Sending? && !Asleep(w.s, t)
       case UrgentStart(v) => true
       case RecvStart(t, timeout) => Member(w.s, t) && w.s.call[t].Idle? && timeout < TWO31
       case RecvAgain(t) => Member(w.s, t) && w.s.call[t].Receiving? && !Asleep(w.s, t)
       case Timer(t) => Member(w.s, t) && Asleep(w.s, t) && Timed(w.s.call[t])
       case ResetStart => true
       case Ticks(n) => true
  }

  function After(w: World, e: Event): (State, Outcome)
    requires Legal(w, e)
  {
    match e
    case SendStart(t, v, timeout) => SendCall(w.s, t, v, timeout, Now(w))
    case SendAgain(t) => SendReturn(w.s, t, Now(w))
    case UrgentStart(v) => Urgent(w.s, v)
    case RecvStart(t, timeout) => RecvCall(w.s, t, timeout, Now(w))
    case RecvAgain(t) => RecvReturn(w.s, t, Now(w))
    case Timer(t) => (Timeout(w.s, t), Blocked)
    case ResetStart => (Reset(w.s), Returned(EOK))
    case Ticks(n) => (w.s, Blocked)
  }

  /** The mail a send event carries, if the event is a send. */
  function Carried(w: World, e: Event): Option<Mail>
    requires Legal(w, e)
  {
    match e
    case SendStart(t, v, timeout) => Some(v)
    case SendAgain(t) => Some(w.s.call[t].mail)
    case _ => None
  }

  /** The bounded deque: what an accepted call does to it. */
  function DequeAfter(w: World, e: Event): seq<Mail>
    requires Legal(w, e)
  {
    var o := After(w, e).1;
    match e
    case SendStart(t, v, timeout) => if o == Returned(EOK) then w.deque + [v] else w.deque
    case SendAgain(t) => if o == Returned(EOK) then w.deque + [w.s.call[t].mail] else w.deque
    case UrgentStart(v) => if o == Returned(EOK) then [v] + w.deque else w.deque
    case RecvStart(t, timeout) => if o.Received? && w.deque != [] then w.deque[1..] else w.deque
    case RecvAgain(t) => if o.Received? && w.deque != [] then w.deque[1..] else w.deque
    case Timer(t) => w.deque
    case ResetStart => []
    case Ticks(n) => w.deque
  }

  function ClockAfter(w: World, e: Event): map<Thread, Clock>
    requires Legal(w, e)
  {
    match e
    case SendStart(t, v, timeout) => w.clock[t := Clock(timeout, 0, w.time)]
    case RecvStart(t, timeout) => w.clock[t := Clock(timeout, 0, w.time)]
    case SendAgain(t) => if t in w.clock then w.clock[t := Slept(w.clock[t], w.time)] else w.clock
    case RecvAgain(t) => if t in w.clock then w.clock[t := Slept(w.clock[t], w.time)] else w.clock
    case _ => w.clock
  }

  function Step(w: World, e: Event): World
    requires Legal(w, e)
  {
    var (s, o) := After(w, e);
    World(s, DequeAfter(w, e),
          if Carried(w, e).Some? && o == Returned(EOK) then w.sent + [Carried(w, e).value] else w.sent,
          if o.Received? then w.received + [o.mail] else w.received,
          if e.Ticks? then w.time + e.n else w.time,
          ClockAfter(w, e))
  }

  ghost predicate Run(worlds: seq<World>, events: seq<Event>) {
    && |worlds| == |events| + 1
    && forall n: nat | n < |events| :: Legal(worlds[n], events[n]) && worlds[n + 1] == Step(worlds[n], events[n])
  }

  function Initial(pool: seq<Mail>, flag: Flag, priority: map<Thread, nat>): World {
    World(InitialState(pool, flag, priority), [], [], [], 0, map[])
  }

  // ---- The invariant in every run ------------------------------------------------------------

  lemma StepKeeps(w: World, e: Event)
    requires Legal(w, e) && Inv(w.s)
    ensures Inv(Step(w, e).s)
  {
    match e {
      case SendStart(t, v, timeout) =>
        assert PlacedAt(w.s, t);
        SendLoopKeeps(w.s, t, v, timeout, Now(w));
      case SendAgain(t) =>
        LeaveKeepsOr(w.s, t);
        if w.s.error[t] == EOK {
          var c := w.s.call[t];
          SendLoopKeeps(w.s, t, c.mail, Remaining(c.timeout, c.start, Now(w)), Now(w));
        }
      case UrgentStart(v) => UrgentKeeps(w.s, v);
      case RecvStart(t, timeout) =>
        assert PlacedAt(w.s, t);
        RecvLoopKeeps(w.s, t, timeout, Now(w));
      case RecvAgain(t) =>
        LeaveKeepsOr(w.s, t);
        if w.s.error[t] == EOK {
          var c := w.s.call[t];
          RecvLoopKeeps(w.s, t, Remaining(c.timeout, c.start, Now(w)), Now(w));
        }
      case Timer(t) => TimeoutKeeps(w.s, t);
      case ResetStart => ResetKeeps(w.s);
      case Ticks(n) =>
    }
    hide Inv, SendLoop, RecvLoop, Urgent, Timeout, Reset, DequeAfter, ClockAfter;
  }

  lemma LeaveKeepsOr(s: State, t: Thread)
    requires Inv(s) && Member(s, t)
    ensures s.error[t] != EOK ==> Inv(s.(call := s.call[t := Idle]))
  {
    if s.error[t] != EOK {
      LeaveKeeps(s, t);
    }
  }

  // ---- The bounded deque ---------------------------------------------------------------------

  ghost predicate Refines(w: World) {
    Valid(w.s.ring) && Contents(w.s.ring) == w.deque
  }

  lemma SendRefines(s: State, t: Thread, v: Mail, timeout: int, now: int)
    requires Inv(s) && Member(s, t)
    ensures var (r, o) := SendLoop(s, t, v, timeout, now);
      && Valid(r.ring) && r.ring.size == s.ring.size
      && (o == Returned(EOK) <==> |Contents(s.ring)| < s.ring.size)
      && Contents(r.ring) == (if o == Returned(EOK) then Contents(s.ring) + [v] else Contents(s.ring))
  {
    if s.ring.entry < s.ring.size {
      PutAppends(s.ring, v);
    }
    hide Contents, Enqueue, WakeOne, Runs, Sleeps, Placed, Quiet;
  }

  lemma RecvRefines(s: State, t: Thread, timeout: int, now: int)
    requires Inv(s) && Member(s, t)
    ensures var (r, o) := RecvLoop(s, t, timeout, now);
      && Valid(r.ring) && r.ring.size == s.ring.size
      && (o.Received? <==> Contents(s.ring) != [])
      && (o.Received? ==> Contents(s.ring) == [o.mail] + Contents(r.ring))
      && (!o.Received? ==> Contents(r.ring) == Contents(s.ring))
  {
    if s.ring.entry > 0 {
      DropPops(s.ring);
    }
    hide Contents, Enqueue, WakeOne, Runs, Sleeps, Placed, Quiet;
  }

  lemma StepRefines(w: World, e: Event)
    requires Legal(w, e) && Inv(w.s) && Refines(w)
    ensures Refines(Step(w, e))
  {
    match e {
      case SendStart(t, v, timeout) => SendRefines(w.s, t, v, timeout, Now(w));
      case SendAgain(t) =>
        var c := w.s.call[t];
        SendRefines(w.s, t, c.mail, Remaining(c.timeout, c.start, Now(w)), Now(w));
      case UrgentStart(v) =>
        if w.s.ring.entry < w.s.ring.size {
          PutFrontPrepends(w.s.ring, v);
        }
      case RecvStart(t, timeout) => RecvRefines(w.s, t, timeout, Now(w));
      case RecvAgain(t) =>
        var c := w.s.call[t];
        RecvRefines(w.s, t, Remaining(c.timeout, c.start, Now(w)), Now(w));
      case Timer(t) =>
      case ResetStart =>
      case Ticks(n) =>
    }
    hide SendLoop, RecvLoop, ClockAfter, Contents, Inv, Remaining;
  }

  /** Without urgent mails and resets, what was received followed by what the mailbox holds is
      what was sent, in the same order. */
  ghost predicate Fifo(w: World) {
    w.received + w.deque == w.sent
  }

  lemma RecvFifo(w: World, e: Event)
    requires Legal(w, e) && Inv(w.s) && Refines(w) && Fifo(w) && (e.RecvStart? || e.RecvAgain?)
    ensures Fifo(Step(w, e))
  {
    hide RecvLoop, SendLoop, Urgent, ClockAfter, Contents, Inv, Remaining, Valid;
    match e {
      case RecvStart(t, timeout) => RecvRefines(w.s, t, timeout, Now(w));
      case RecvAgain(t) =>
        var c := w.s.call[t];
        RecvRefines(w.s, t, Remaining(c.timeout, c.start, Now(w)), Now(w));
    }
  }

  lemma StepFifo(w: World, e: Event)
    requires Legal(w, e) && Inv(w.s) && Refines(w) && Fifo(w) && !e.UrgentStart? && !e.ResetStart?
    ensures Fifo(Step(w, e))
  {
    hide RecvLoop, ClockAfter, Contents, Inv, Remaining, Valid, Refines;
    if e.RecvStart? || e.RecvAgain? {
      RecvFifo(w, e);
      hide Step;
    }
  }

  // ---- The waiting time ----------------------------------------------------------------------

  ghost predicate OnTimeAt(w: World, t: Thread) {
    Member(w.s, t) && !w.s.call[t].Idle? ==>
      t in w.clock && Shows(w.clock[t], w.time, w.s.call[t].timeout, w.s.call[t].start)
  }

  /** Every blocked call has its remaining time. */
  ghost predicate OnTime(w: World) {
    forall t: Thread :: OnTimeAt(w, t)
  }

  /** A call with a timeout that was resumed to go on waiting runs again in time. */
  ghost predicate Punctual(w: World, e: Event)
    requires Legal(w, e)
  {
    (e.SendAgain? || e.RecvAgain?) && w.s.error[e.t] == EOK && e.t in w.clock ==>
      Prompt(w.clock[e.t], w.time, w.s.call[e.t].timeout)
  }

  lemma StepOnTime(w: World, e: Event)
    requires Legal(w, e) && OnTime(w) && Punctual(w, e)
    ensures OnTime(Step(w, e))
  {
    match e {
      case SendAgain(t) => AgainLeft(w, e);
      case RecvAgain(t) => AgainLeft(w, e);
      case ResetStart => ResumeAllCodes(w.s.error, w.s.receivers.waiting, w.s.senders.waiting);
      case _ =>
    }
    hide Remaining, Enqueue, WakeOne, Runs, Sleeps, Valid, Put, PutFront, Drop, DequeAfter;
    var u := Step(w, e);
    forall x: Thread ensures OnTimeAt(u, x) {
      assert OnTimeAt(w, x);
    }
  }

  lemma AgainLeft(w: World, e: Event)
    requires Legal(w, e) && OnTime(w) && Punctual(w, e) && (e.SendAgain? || e.RecvAgain?)
    ensures e.t in w.clock
    ensures var c := w.s.call[e.t];
      w.s.error[e.t] == EOK ==> Remaining(c.timeout, c.start, Now(w)) == Left(Slept(w.clock[e.t], w.time))
  {
    hide Remaining;
    assert OnTimeAt(w, e.t);
    if w.s.error[e.t] == EOK {
      LeftRight(w.clock[e.t], w.time, w.s.call[e.t].timeout, w.s.call[e.t].start);
    }
  }

  // ---- Whole runs ------------------------------------------------------------------------------

  lemma InitialSafe(pool: seq<Mail>, flag: Flag, priority: map<Thread, nat>)
    requires |pool| <= ENTRY_MAX
    ensures Inv(Initial(pool, flag, priority).s)
    ensures Refines(Initial(pool, flag, priority)) && OnTime(Initial(pool, flag, priority))
  {
    var w := Initial(pool, flag, priority);
    forall t: Thread ensures PlacedAt(w.s, t) && OnTimeAt(w, t) {}
  }

  /** The main theorem: in every state of every run the mailbox holds exactly what the bounded deque
      does, in_offset is (out_offset + entry) mod size with entry <= size, and nobody is stranded. */
  lemma {:induction false} RunSafe(worlds: seq<World>, events: seq<Event>, pool: seq<Mail>, flag: Flag,
                                   priority: map<Thread, nat>, n: nat)
    requires |pool| <= ENTRY_MAX
    requires Run(worlds, events) && worlds[0] == Initial(pool, flag, priority) && n < |worlds|
    ensures Inv(worlds[n].s) && Refines(worlds[n])
  {
    if n == 0 {
      InitialSafe(pool, flag, priority);
    } else {
      RunSafe(worlds, events, pool, flag, priority, n - 1);
      StepKeeps(worlds[n - 1], events[n - 1]);
      StepRefines(worlds[n - 1], events[n - 1]);
    }
  }

  /** In a run whose timed calls are punctual every blocked call has what it was given minus what it has
      slept, across any number of wake-ups and tick wraps. */
  lemma {:induction false} RunOnTime(worlds: seq<World>, events: seq<Event>, pool: seq<Mail>, flag: Flag,
                                     priority: map<Thread, nat>, n: nat)
    requires |pool| <= ENTRY_MAX
    requires Run(worlds, events) && worlds[0] == Initial(pool, flag, priority) && n < |worlds|
    requires forall i | 0 <= i < n :: Punctual(worlds[i], events[i])
    ensures OnTime(worlds[n])
  {
    if n == 0 {
      InitialSafe(pool, flag, priority);
    } else {
      hide OnTime, Step, Legal, Punctual;
      RunOnTime(worlds, events, pool, flag, priority, n - 1);
      StepOnTime(worlds[n - 1], events[n - 1]);
    }
  }

  lemma {:induction false} RunFifo(worlds: seq<World>, events: seq<Event>, pool: seq<Mail>, flag: Flag,
                                   priority: map<Thread, nat>, n: nat)
    requires |pool| <= ENTRY_MAX
    requires Run(worlds, events) && worlds[0] == Initial(pool, flag, priority) && n < |worlds|
    requires forall e | e in events :: !e.UrgentStart? && !e.ResetStart?
    ensures Refines(worlds[n]) && worlds[n].received + worlds[n].deque == worlds[n].sent
  {
    RunSafe(worlds, events, pool, flag, priority, n);
    if n > 0 {
      RunSafe(worlds, events, pool, flag, priority, n - 1);
      RunFifo(worlds, events, pool, flag, priority, n - 1);
      assert events[n - 1] in events;
      StepFifo(worlds[n - 1], events[n - 1]);
    }
  }

  /** Once every resumed thread has run, receivers wait only on an empty mailbox and senders only
      on a full one. */
  lemma Settled(s: State)
    requires Inv(s) && s.receivers.woken == {} && s.senders.woken == {}
    ensures s.receivers.waiting != [] ==> Contents(s.ring) == []
    ensures s.senders.waiting != [] ==> |Contents(s.ring)| == s.ring.size
  {
  }

  /** A sender that runs again gives up exactly when the mailbox is still full and it has slept for
      the time it was given; a sender that waits forever never does. */
  lemma SenderGivesUpInTime(w: World, t: Thread)
    requires Inv(w.s) && OnTime(w) && Legal(w, SendAgain(t)) && Punctual(w, SendAgain(t)) && w.s.error[t] == EOK
    ensures t in w.clock
    ensures After(w, SendAgain(t)).1 == Returned(EFULL) <==>
      w.s.ring.entry == w.s.ring.size && w.clock[t].asked > 0 && Slept(w.clock[t], w.time).slept >= w.clock[t].asked
  {
    AgainLeft(w, SendAgain(t));
    assert OnTimeAt(w, t);
    hide Remaining, Enqueue, WakeOne, Runs, Sleeps, Valid, Put;
  }

  /** A receiver that runs again gives up exactly when the mailbox is still empty and it has slept for
      the time it was given. */
  lemma ReceiverGivesUpInTime(w: World, t: Thread)
    requires Inv(w.s) && OnTime(w) && Legal(w, RecvAgain(t)) && Punctual(w, RecvAgain(t)) && w.s.error[t] == EOK
    ensures t in w.clock
    ensures After(w, RecvAgain(t)).1 == Returned(ETIMEOUT) <==>
      w.s.ring.entry == 0 && w.clock[t].asked > 0 && Slept(w.clock[t], w.time).slept >= w.clock[t].asked
  {
    AgainLeft(w, RecvAgain(t));
    assert OnTimeAt(w, t);
    hide Remaining, Enqueue, WakeOne, Runs, Sleeps, Valid, Drop;
  }
}
