/** What the message queue guarantees over whole runs of any number of interleaved senders, urgent
    senders, receivers, timeouts and resets. */
module QueueRuns {
  import opened WaitQueue
  import opened Waiters
  import opened QueueModel
  import opened QueueSteps
  import opened WaitTime

  /** One critical section, one copy with interrupts on, a thread's timer, or the passing of time. */
  datatype Event =
    | SendStart(t: Thread, msg: Bytes, timeout: int) | SendAgain(t: Thread)
    | UrgentStart(t: Thread, msg: Bytes) | CopyInBy(t: Thread) | LinkBy(t: Thread)
    | RecvStart(t: Thread, size: nat, timeout: int) | RecvAgain(t: Thread)
    | CopyOutBy(t: Thread) | UnlinkBy(t: Thread)
    | Timer(t: Thread) | ResetStart | Ticks(n: nat)

  /** `deque` holds the messages of the completed sends that nobody has received, and `owed[t]` the
      message that receiver t took off it.  `sent` lists the messages in the order in which their sends
      completed, `taken` counts the receives that took a node, and `ticket[t]` is the count when t did.
      `time` is the unwrapped tick count. */
  datatype World = World(
    s: State, deque: seq<Bytes>, owed: map<Thread, Bytes>,
    sent: seq<Bytes>, taken: nat, ticket: map<Thread, nat>,
    time: nat, clock: map<Thread, Clock>)

  function Now(w: World): int { w.time % TWO32 }

  ghost predicate Timed(c: Call) {
    (c.Sending? || c.Receiving?) && c.timeout > 0
  }

  ghost predicate Legal(w: World, e: Event) {
    && Typed(w.s)
    && (e.ResetStart? || e.Ticks? || Member(w.s, e.t))
    && match e
       case SendStart(t, msg, timeout) => w.s.call[t].Idle? && timeout < TWO31
       case SendAgain(t) => w.s.call[t].Sending? && !Asleep(w.s, t)
       case UrgentStart(t, msg) => w.s.call[t].Idle?
       case CopyInBy(t) => w.s.call[t].Filling?
       case LinkBy(t) => w.s.call[t].Filled?
       case RecvStart(t, size, timeout) => w.s.call[t].Idle? && timeout < TWO31
       case RecvAgain(t) => w.s.call[t].Receiving? && !Asleep(w.s, t)
       case CopyOutBy(t) => w.s.call[t].Draining?
       case UnlinkBy(t) => w.s.call[t].Drained?
       case Timer(t) => Asleep(w.s, t) && Timed(w.s.call[t])
       case ResetStart => true
       case Ticks(n) => true
  }

  function After(w: World, e: Event): (State, Outcome)
    requires Legal(w, e)
  {
    match e
    case SendStart(t, msg, timeout) => SendCall(w.s, t, msg, timeout, Now(w))
    case SendAgain(t) => SendReturn(w.s, t, Now(w))
    case UrgentStart(t, msg) => UrgentCall(w.s, t, msg)
    case CopyInBy(t) => (CopyIn(w.s, t), Working)
    case LinkBy(t) => Link(w.s, t)
    case RecvStart(t, size, timeout) => RecvCall(w.s, t, size, timeout, Now(w))
    case RecvAgain(t) => RecvReturn(w.s, t, Now(w))
    case CopyOutBy(t) => (CopyOut(w.s, t), Working)
    case UnlinkBy(t) => Unlink(w.s, t)
    case Timer(t) => (Timeout(w.s, t), Blocked)
    case ResetStart => (Reset(w.s), Returned(EOK))
    case Ticks(n) => (w.s, Blocked)
  }

  /** A receive takes a node. */
  ghost predicate Takes(w: World, e: Event)
    requires Legal(w, e)
  {
    (e.RecvStart? || e.RecvAgain?) && After(w, e).1 == Working
  }

  function ClockAfter(w: World, e: Event): map<Thread, Clock> {
    match e
    case SendStart(t, msg, timeout) => w.clock[t := Clock(timeout, 0, w.time)]
    case RecvStart(t, size, timeout) => w.clock[t := Clock(timeout, 0, w.time)]
    case SendAgain(t) => if t in w.clock then w.clock[t := Slept(w.clock[t], w.time)] else w.clock
    case RecvAgain(t) => if t in w.clock then w.clock[t := Slept(w.clock[t], w.time)] else w.clock
    case _ => w.clock
  }

  ghost function Step(w: World, e: Event): World
    requires Legal(w, e)
  {
    var u := w.(s := After(w, e).0, clock := ClockAfter(w, e));
    if e.LinkBy? then
      var c := w.s.call[e.t];
      u.(deque := if c.urgent then [c.msg] + w.deque else w.deque + [c.msg], sent := w.sent + [c.msg])
    else if Takes(w, e) then
      u.(deque := if w.deque == [] then [] else w.deque[1..],
         owed := if w.deque == [] then w.owed else w.owed[e.t := w.deque[0]],
         ticket := w.ticket[e.t := w.taken], taken := w.taken + 1)
    else if e.ResetStart? then u.(deque := [])
    else if e.Ticks? then u.(time := w.time + e.n)
    else u
  }

  ghost predicate Run(worlds: seq<World>, events: seq<Event>) {
    && |worlds| == |events| + 1
    && forall n: nat | n < |events| :: Legal(worlds[n], events[n]) && worlds[n + 1] == Step(worlds[n], events[n])
  }

  // ---- Conservation --------------------------------------------------------------------------

  lemma StepKeeps(w: World, e: Event)
    requires Legal(w, e) && Inv(w.s)
    ensures Inv(Step(w, e).s)
  {
    assert Step(w, e).s == After(w, e).0;
    match e {
      case SendStart(t, msg, timeout) =>
        assert PlacedAt(w.s, t);
        if |msg| <= w.s.msgSize {
          SendLoopKeeps(w.s, t, msg, timeout, Now(w));
        }
      case SendAgain(t) =>
        if w.s.error[t] != EOK {
          LeaveKeeps(w.s, t);
        } else {
          var c := w.s.call[t];
          SendLoopKeeps(w.s, t, c.msg, Remaining(c.timeout, c.start, Now(w)), Now(w));
        }
      case UrgentStart(t, msg) => UrgentKeeps(w.s, t, msg);
      case CopyInBy(t) => CopyInKeeps(w.s, t);
      case LinkBy(t) => LinkKeeps(w.s, t);
      case RecvStart(t, size, timeout) =>
        assert PlacedAt(w.s, t);
        RecvLoopKeeps(w.s, t, size, timeout, Now(w));
      case RecvAgain(t) =>
        if w.s.error[t] != EOK {
          LeaveKeeps(w.s, t);
        } else {
          var c := w.s.call[t];
          RecvLoopKeeps(w.s, t, c.size, Remaining(c.timeout, c.start, Now(w)), Now(w));
        }
      case CopyOutBy(t) => CopyOutKeeps(w.s, t);
      case UnlinkBy(t) => UnlinkKeeps(w.s, t);
      case Timer(t) => TimeoutKeeps(w.s, t);
      case ResetStart => ResetKeeps(w.s);
      case Ticks(n) =>
    }
    hide Inv, SendLoop, RecvLoop, UrgentCall, CopyIn, CopyOut, Link, Unlink, Timeout, Reset, Step;
  }

  // ---- Messages arrive unchanged ----------------------------------------------------------------

  /** The deque message by message: each one is the front of its node. */
  ghost predicate Mirrors(w: World) {
    && |w.deque| == |w.s.queue|
    && forall i | 0 <= i < |w.deque| :: w.s.queue[i] < |w.s.data| && w.deque[i] <= w.s.data[w.s.queue[i]]
  }

  /** One is a prefix of the other: a receive copies at most its own buffer size. */
  predicate Agree(copy: Bytes, msg: Bytes) {
    if |copy| >= |msg| then msg <= copy else copy <= msg
  }

  /** What a thread with a node can rely on while others run. */
  ghost predicate Carries(w: World, t: Thread) {
    t in w.s.call ==>
      var c := w.s.call[t];
      && (Busy(c) ==> c.node < |w.s.data|)
      && (c.Filled? ==> c.msg <= w.s.data[c.node])
      && (c.Draining? ==> t in w.owed && w.owed[t] <= w.s.data[c.node])
      && (c.Drained? ==> t in w.owed && Agree(c.copy, w.owed[t]) && |c.copy| == Cut(w.s, c.size))
  }

  ghost predicate Intact(w: World) {
    Mirrors(w) && forall t: Thread :: Carries(w, t)
  }

  /** Steps that touch neither the queue nor the memory of any node. */
  lemma AsideIntact(w: World, u: World, t: Thread)
    requires Inv(w.s) && Intact(w) && t in w.s.call && t in u.s.call
    requires u.s.data == w.s.data && u.s.msgSize == w.s.msgSize && u.s.queue == w.s.queue
    requires u.deque == w.deque && u.owed == w.owed
    requires u.s.call == w.s.call[t := u.s.call[t]] && Carries(u, t)
    ensures Intact(u)
  {
    forall x: Thread ensures Carries(u, x) {
      assert Carries(w, x);
    }
  }

  /** A send touches its own call only, and may get the first free node. */
  ghost predicate SendsAside(s: State, r: State, t: Thread) {
    && r.data == s.data && r.msgSize == s.msgSize && r.queue == s.queue
    && t in s.call && t in r.call && r.call == s.call[t := r.call[t]]
    && (r.call[t] == s.call[t] || r.call[t].Idle? || r.call[t].Sending?
        || (r.call[t].Filling? && s.free != [] && r.call[t].node == s.free[0]))
  }

  lemma SendLoopAside(s: State, t: Thread, msg: Bytes, timeout: int, now: int)
    requires Typed(s) && Member(s, t)
    ensures SendsAside(s, SendLoop(s, t, msg, timeout, now).0, t)
  {
    hide Typed, Enqueue, Runs, Sleeps;
  }

  lemma SendAside(w: World, e: Event)
    requires Legal(w, e) && (e.SendStart? || e.SendAgain? || e.UrgentStart?)
    ensures SendsAside(w.s, After(w, e).0, e.t)
  {
    hide Typed, SendLoop, Remaining;
    assert w.s.call == w.s.call[e.t := w.s.call[e.t]];
    match e {
      case SendStart(t, msg, timeout) => SendLoopAside(w.s, t, msg, timeout, Now(w));
      case SendAgain(t) =>
        var c := w.s.call[t];
        SendLoopAside(w.s, t, c.msg, Remaining(c.timeout, c.start, Now(w)), Now(w));
      case UrgentStart(t, msg) =>
    }
  }

  lemma SendIntact(w: World, e: Event)
    requires Legal(w, e) && Inv(w.s) && Intact(w) && (e.SendStart? || e.SendAgain? || e.UrgentStart?)
    ensures Intact(Step(w, e))
  {
    hide Partition, Placed, Quiet, Intact, After;
    SendAside(w, e);
    assert w.s.free != [] ==> w.s.free[0] in w.s.free;
    assert Carries(w, e.t) by { IntactCarries(w, e.t); }
    AsideIntact(w, Step(w, e), e.t);
  }

  lemma IntactCarries(w: World, t: Thread)
    requires Intact(w)
    ensures Carries(w, t)
  {
  }

  lemma CopyInIntact(w: World, t: Thread)
    requires Legal(w, CopyInBy(t)) && Inv(w.s) && Intact(w)
    ensures Intact(Step(w, CopyInBy(t)))
  {
    var u := Step(w, CopyInBy(t));
    var n := w.s.call[t].node;
    assert Holds(w.s, t, n) && Alone(w.s, t, n);
    hide Partition, Placed, Quiet, Typed;
    forall x: Thread ensures Carries(u, x) {
      assert Carries(w, x);
      assert x != t && Holds(w.s, x, n) ==> false by {
        if x != t && Holds(w.s, x, n) {
          SharedNever(w.s, t, x, n);
        }
      }
    }
    assert forall i | 0 <= i < |w.s.queue| :: w.s.queue[i] in w.s.queue;
  }

  lemma SharedNever(s: State, t: Thread, x: Thread, n: Node)
    requires Partition(s) && Holds(s, t, n) && Holds(s, x, n)
    ensures t == x
  {
    assert NotShared(s, t, x, n);
  }

  lemma LinkMirrors(w: World, t: Thread)
    requires Legal(w, LinkBy(t)) && Mirrors(w) && Carries(w, t)
    ensures Mirrors(Step(w, LinkBy(t)))
  {
    hide Typed, WakeOne;
  }

  lemma LinkIntact(w: World, t: Thread)
    requires Legal(w, LinkBy(t)) && Inv(w.s) && Intact(w)
    ensures Intact(Step(w, LinkBy(t)))
  {
    var u := Step(w, LinkBy(t));
    assert Carries(w, t);
    hide Partition, Placed, Quiet, Typed, WakeOne, Mirrors;
    LinkMirrors(w, t);
    forall x: Thread ensures Carries(u, x) {
      assert Carries(w, x);
    }
  }

  /** A receive touches its own call only, and may get the head of the queue. */
  ghost predicate RecvsAside(s: State, r: State, t: Thread, takes: bool) {
    && r.data == s.data && r.msgSize == s.msgSize
    && t in s.call && t in r.call && r.call == s.call[t := r.call[t]]
    && if takes then s.queue != [] && r.queue == s.queue[1..] && r.call[t].Draining? && r.call[t].node == s.queue[0]
       else r.queue == s.queue && (r.call[t] == s.call[t] || r.call[t].Idle? || r.call[t].Receiving?)
  }

  lemma RecvLoopAside(s: State, t: Thread, size: nat, timeout: int, now: int)
    requires Typed(s) && Member(s, t)
    ensures var (r, o) := RecvLoop(s, t, size, timeout, now); RecvsAside(s, r, t, o == Working)
  {
    assert s.entry <= |s.queue|;
    hide Typed, Enqueue, Runs, Sleeps;
  }

  lemma RecvAside(w: World, e: Event)
    requires Legal(w, e) && (e.RecvStart? || e.RecvAgain?)
    ensures RecvsAside(w.s, After(w, e).0, e.t, Takes(w, e))
  {
    hide Typed, RecvLoop, Remaining;
    assert w.s.call == w.s.call[e.t := w.s.call[e.t]];
    match e {
      case RecvStart(t, size, timeout) => RecvLoopAside(w.s, t, size, timeout, Now(w));
      case RecvAgain(t) =>
        var c := w.s.call[t];
        RecvLoopAside(w.s, t, c.size, Remaining(c.timeout, c.start, Now(w)), Now(w));
    }
  }

  lemma RecvIntact(w: World, e: Event)
    requires Legal(w, e) && Inv(w.s) && Intact(w) && (e.RecvStart? || e.RecvAgain?)
    ensures Intact(Step(w, e))
  {
    hide Partition, Placed, Quiet, Typed, After, Takes;
    var u := Step(w, e);
    RecvAside(w, e);
    assert Carries(w, e.t);
    if Takes(w, e) {
      assert w.deque[0] <= w.s.data[w.s.queue[0]];
      forall x: Thread ensures Carries(u, x) {
        assert Carries(w, x);
      }
    } else {
      AsideIntact(w, u, e.t);
    }
  }

  lemma CopyOutIntact(w: World, t: Thread)
    requires Legal(w, CopyOutBy(t)) && Inv(w.s) && Intact(w)
    ensures Intact(Step(w, CopyOutBy(t)))
  {
    assert Carries(w, t);
    hide Partition, Placed, Quiet;
    AsideIntact(w, Step(w, CopyOutBy(t)), t);
  }

  lemma StepIntact(w: World, e: Event)
    requires Legal(w, e) && Inv(w.s) && Intact(w)
    ensures Intact(Step(w, e))
  {
    match e {
      case SendStart(_, _, _) => SendIntact(w, e);
      case SendAgain(_) => SendIntact(w, e);
      case UrgentStart(_, _) => SendIntact(w, e);
      case CopyInBy(t) => CopyInIntact(w, t);
      case LinkBy(t) => LinkIntact(w, t);
      case RecvStart(_, _, _) => RecvIntact(w, e);
      case RecvAgain(_) => RecvIntact(w, e);
      case CopyOutBy(t) => CopyOutIntact(w, t);
      case UnlinkBy(t) => AsideIntact(w, Step(w, e), t);
      case Timer(t) =>
        assert Carries(w, t);
        assert w.s.call == w.s.call[t := w.s.call[t]];
        AsideIntact(w, Step(w, e), t);
      case ResetStart =>
        forall x: Thread ensures Carries(Step(w, e), x) {
          assert Carries(w, x);
        }
      case Ticks(n) =>
        forall x: Thread ensures Carries(Step(w, e), x) {
          assert Carries(w, x);
        }
    }
    hide Intact, Inv;
  }

  // ---- One thread's step leaves the calls of the others alone ------------------------------------

  ghost predicate OwnCall(s: State, r: State, e: Event) {
    if e.Timer? || e.ResetStart? || e.Ticks? then r.call == s.call
    else e.t in r.call && r.call == s.call[e.t := r.call[e.t]]
  }

  lemma StepOwnCall(w: World, e: Event)
    requires Legal(w, e)
    ensures OwnCall(w.s, After(w, e).0, e)
  {
    hide Typed, SendCall, SendReturn, UrgentCall, RecvCall, RecvReturn, WakeOne, Overlay;
    if e.SendStart? || e.SendAgain? || e.UrgentStart? {
      SendAside(w, e);
    } else if e.RecvStart? || e.RecvAgain? {
      RecvAside(w, e);
    }
  }

  // ---- The waiting time ----------------------------------------------------------------------

  ghost predicate OnTimeAt(w: World, t: Thread) {
    t in w.s.call && (w.s.call[t].Sending? || w.s.call[t].Receiving?) ==>
      t in w.clock && Shows(w.clock[t], w.time, w.s.call[t].timeout, w.s.call[t].start)
  }

  /** Every blocked call has its remaining time. */
  ghost predicate OnTime(w: World) {
    forall t: Thread :: OnTimeAt(w, t)
  }

  /** A call with a timeout that was resumed to go on waiting runs again in time. */
  ghost predicate Punctual(w: World, e: Event)
    requires Legal(w, e)
  {
    (e.SendAgain? || e.RecvAgain?) && w.s.error[e.t] == EOK && e.t in w.clock ==>
      Prompt(w.clock[e.t], w.time, w.s.call[e.t].timeout)
  }

  lemma AgainLeft(w: World, e: Event)
    requires Legal(w, e) && OnTime(w) && Punctual(w, e) && (e.SendAgain? || e.RecvAgain?)
    ensures e.t in w.clock && w.clock[e.t].asked < TWO31
    ensures var c := w.s.call[e.t];
      w.s.error[e.t] == EOK ==> Remaining(c.timeout, c.start, Now(w)) == Left(Slept(w.clock[e.t], w.time))
  {
    hide Remaining, Typed;
    assert OnTimeAt(w, e.t);
    if w.s.error[e.t] == EOK {
      LeftRight(w.clock[e.t], w.time, w.s.call[e.t].timeout, w.s.call[e.t].start);
    }
  }

  lemma SendOnTime(s: State, t: Thread, msg: Bytes, timeout: int, time: nat, c: Clock)
    requires Typed(s) && Member(s, t) && timeout == Left(c) && c.asked < TWO31 && c.since == time
    ensures var r := SendLoop(s, t, msg, timeout, time % TWO32).0;
      r.call[t].Sending? ==> Shows(c, time, r.call[t].timeout, r.call[t].start)
  {
    hide Typed, Enqueue, Runs, Sleeps;
  }

  lemma RecvOnTime(s: State, t: Thread, size: nat, timeout: int, time: nat, c: Clock)
    requires Typed(s) && Member(s, t) && timeout == Left(c) && c.asked < TWO31 && c.since == time
    ensures var r := RecvLoop(s, t, size, timeout, time % TWO32).0;
      r.call[t].Receiving? ==> Shows(c, time, r.call[t].timeout, r.call[t].start)
  {
    hide Typed, Enqueue, Runs, Sleeps;
  }

  lemma SendStepOnTime(w: World, e: Event)
    requires Legal(w, e) && OnTime(w) && Punctual(w, e) && (e.SendStart? || e.SendAgain?)
    ensures OnTimeAt(Step(w, e), e.t)
  {
    hide Typed, SendLoop, Remaining, OnTime, Shows, Left;
    match e {
      case SendStart(t, msg, timeout) =>
        FreshLeft(w, timeout);
        SendOnTime(w.s, t, msg, timeout, w.time, Clock(timeout, 0, w.time));
      case SendAgain(t) =>
        AgainLeft(w, e);
        var c := w.s.call[t];
        if w.s.error[t] == EOK {
          SendOnTime(w.s, t, c.msg, Remaining(c.timeout, c.start, Now(w)), w.time, Slept(w.clock[t], w.time));
        }
    }
    SendAside(w, e);
  }

  lemma RecvStepOnTime(w: World, e: Event)
    requires Legal(w, e) && OnTime(w) && Punctual(w, e) && (e.RecvStart? || e.RecvAgain?)
    ensures OnTimeAt(Step(w, e), e.t)
  {
    hide Typed, RecvLoop, Remaining, OnTime, Shows, Left;
    match e {
      case RecvStart(t, size, timeout) =>
        FreshLeft(w, timeout);
        RecvOnTime(w.s, t, size, timeout, w.time, Clock(timeout, 0, w.time));
      case RecvAgain(t) =>
        AgainLeft(w, e);
        var c := w.s.call[t];
        if w.s.error[t] == EOK {
          RecvOnTime(w.s, t, c.size, Remaining(c.timeout, c.start, Now(w)), w.time, Slept(w.clock[t], w.time));
        }
    }
    RecvAside(w, e);
  }

  lemma FreshLeft(w: World, timeout: int)
    ensures Left(Clock(timeout, 0, w.time)) == timeout
  {
  }

  lemma StepOnTime(w: World, e: Event)
    requires Legal(w, e) && OnTime(w) && Punctual(w, e)
    ensures OnTime(Step(w, e))
  {
    var u := Step(w, e);
    StepOwnCall(w, e);
    if e.SendStart? || e.SendAgain? {
      SendStepOnTime(w, e);
    } else if e.RecvStart? || e.RecvAgain? {
      RecvStepOnTime(w, e);
    } else if !e.Timer? && !e.ResetStart? && !e.Ticks? {
      StepNotBlocked(w, e);
    }
    hide After, Typed, Takes, Shows;
    forall x: Thread ensures OnTimeAt(u, x) {
      assert OnTimeAt(w, x);
      if e.Timer? || e.ResetStart? || e.Ticks? || x != e.t {
        StaysOnTime(w, u, x);
      }
    }
  }

  lemma StaysOnTime(w: World, u: World, x: Thread)
    requires OnTimeAt(w, x) && w.time <= u.time && (x in u.s.call ==> x in w.s.call && u.s.call[x] == w.s.call[x])
    requires x in w.clock ==> x in u.clock && u.clock[x] == w.clock[x]
    ensures OnTimeAt(u, x)
  {
  }

  /** Only the send and receive loops block. */
  lemma StepNotBlocked(w: World, e: Event)
    requires Legal(w, e) && (e.UrgentStart? || e.CopyInBy? || e.LinkBy? || e.CopyOutBy? || e.UnlinkBy?)
    ensures e.t in After(w, e).0.call && !After(w, e).0.call[e.t].Sending? && !After(w, e).0.call[e.t].Receiving?
  {
    hide Typed, WakeOne, Overlay;
  }

  // ---- Whole runs ------------------------------------------------------------------------------

  function Initial(msgSize: nat, data: seq<Bytes>, flag: Flag, priority: map<Thread, nat>): World {
    World(InitialState(msgSize, data, flag, priority), [], map[], [], 0, map[], 0, map[])
  }

  lemma InitialSafe(msgSize: nat, data: seq<Bytes>, flag: Flag, priority: map<Thread, nat>)
    requires |data| <= ENTRY_MAX && forall n | 0 <= n < |data| :: |data[n]| == msgSize
    ensures Inv(Initial(msgSize, data, flag, priority).s)
    ensures Intact(Initial(msgSize, data, flag, priority)) && OnTime(Initial(msgSize, data, flag, priority))
  {
    var w := Initial(msgSize, data, flag, priority);
    forall n: Node ensures Kept(w.s, n) {
      if n < |data| {
        assert w.s.free[|data| - 1 - n] == n;
      }
    }
    forall t: Thread ensures PlacedAt(w.s, t) && Carries(w, t) && OnTimeAt(w, t) {}
  }

  /** The main theorem: in every state of every run the nodes are partitioned, entry is the length of
      the queue, nobody is stranded, and the queued messages are those of the completed sends. */
  lemma {:induction false} RunSafe(worlds: seq<World>, events: seq<Event>, msgSize: nat, data: seq<Bytes>,
                                   flag: Flag, priority: map<Thread, nat>, n: nat)
    requires |data| <= ENTRY_MAX && forall i | 0 <= i < |data| :: |data[i]| == msgSize
    requires Run(worlds, events) && worlds[0] == Initial(msgSize, data, flag, priority) && n < |worlds|
    ensures Inv(worlds[n].s) && Intact(worlds[n])
  {
    if n == 0 {
      InitialSafe(msgSize, data, flag, priority);
    } else {
      RunSafe(worlds, events, msgSize, data, flag, priority, n - 1);
      StepKeeps(worlds[n - 1], events[n - 1]);
      StepIntact(worlds[n - 1], events[n - 1]);
    }
  }

  /** In a run whose timed calls are punctual every blocked call has what it was given minus what it has
      slept, across any number of wake-ups and tick wraps. */
  lemma {:induction false} RunOnTime(worlds: seq<World>, events: seq<Event>, msgSize: nat, data: seq<Bytes>,
                                     flag: Flag, priority: map<Thread, nat>, n: nat)
    requires |data| <= ENTRY_MAX && forall i | 0 <= i < |data| :: |data[i]| == msgSize
    requires Run(worlds, events) && worlds[0] == Initial(msgSize, data, flag, priority) && n < |worlds|
    requires forall i | 0 <= i < n :: Punctual(worlds[i], events[i])
    ensures OnTime(worlds[n])
  {
    if n == 0 {
      InitialSafe(msgSize, data, flag, priority);
    } else {
      hide OnTime, Step, Legal, Punctual;
      RunOnTime(worlds, events, msgSize, data, flag, priority, n - 1);
      StepOnTime(worlds[n - 1], events[n - 1]);
    }
  }

  /** A sender that runs again gives up exactly when the pool is still used up and it has slept for
      the time it was given; a sender that waits forever never does. */
  lemma SenderGivesUpInTime(w: World, t: Thread)
    requires Inv(w.s) && OnTime(w) && Legal(w, SendAgain(t)) && Punctual(w, SendAgain(t)) && w.s.error[t] == EOK
    ensures t in w.clock
    ensures After(w, SendAgain(t)).1 == Returned(EFULL) <==>
      w.s.free == [] && w.clock[t].asked > 0 && Slept(w.clock[t], w.time).slept >= w.clock[t].asked
  {
    AgainLeft(w, SendAgain(t));
    assert OnTimeAt(w, t);
    hide Remaining, Enqueue, Runs, Sleeps, Typed, Partition, Placed, Quiet;
  }

  lemma ReceiverGivesUpInTime(w: World, t: Thread)
    requires Inv(w.s) && OnTime(w) && Legal(w, RecvAgain(t)) && Punctual(w, RecvAgain(t)) && w.s.error[t] == EOK
    ensures t in w.clock
    ensures After(w, RecvAgain(t)).1 == Returned(ETIMEOUT) <==>
      w.s.queue == [] && w.clock[t].asked > 0 && Slept(w.clock[t], w.time).slept >= w.clock[t].asked
  {
    AgainLeft(w, RecvAgain(t));
    assert OnTimeAt(w, t);
    hide Remaining, Enqueue, Runs, Sleeps, Typed, Partition, Placed, Quiet;
  }

  /** A receiver returns with the message it was owed, cut to its buffer, whatever ran meanwhile. */
  lemma Delivered(w: World, t: Thread)
    requires Inv(w.s) && Intact(w) && Legal(w, UnlinkBy(t))
    ensures t in w.owed && After(w, UnlinkBy(t)).1.Received? && Agree(After(w, UnlinkBy(t)).1.copy, w.owed[t])
    ensures |After(w, UnlinkBy(t)).1.copy| == Cut(w.s, w.s.call[t].size)
  {
    assert Carries(w, t);
  }

  /** Linking a message never takes the overflow exit. */
  lemma LinkSucceeds(w: World, t: Thread)
    requires Inv(w.s) && Legal(w, LinkBy(t))
    ensures After(w, LinkBy(t)).1 == Returned(EOK)
  {
    RoomToLink(w.s, t);
  }

  /** When nothing is in flight and every resumed thread has run, receivers wait only on an empty
      queue and senders only on a full one. */
  lemma Settled(s: State)
    requires Inv(s) && s.receivers.woken == {} && s.senders.woken == {}
    requires forall t | t in s.call :: !Busy(s.call[t])
    ensures s.receivers.waiting != [] ==> s.queue == []
    ensures s.senders.waiting != [] ==> forall n: Node | n < |s.data| :: n in s.queue
  {
    if s.senders.waiting != [] {
      forall n: Node | n < |s.data| ensures n in s.queue {
        assert Kept(s, n);
      }
    }
  }
}
