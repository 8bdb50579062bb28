/** The order in which the message queue delivers: without urgent messages and resets, first in, first
    out, whatever senders and receivers do in between. */
module QueueOrder {
  import opened WaitQueue
  import opened Waiters
  import opened QueueModel
  import opened QueueRuns
  import WaitTime

  /** In every state the queued nodes start with the messages sent but not taken, in the order of their
      sends, and a receiver's node or copy has the message whose number is the receiver's ticket. */
  ghost predicate Fifo(w: World) {
    && w.taken + |w.s.queue| == |w.sent|
    && (forall k | 0 <= k < |w.s.queue| ::
          w.s.queue[k] < |w.s.data| && w.sent[w.taken + k] <= w.s.data[w.s.queue[k]])
    && forall t: Thread :: FifoAt(w, t)
  }

  ghost predicate FifoAt(w: World, t: Thread) {
    t in w.s.call && (w.s.call[t].Draining? || w.s.call[t].Drained?) ==>
      && t in w.ticket && w.ticket[t] < w.taken <= |w.sent|
      && var c := w.s.call[t];
      && (c.Draining? ==> c.node < |w.s.data| && w.sent[w.ticket[t]] <= w.s.data[c.node])
      && (c.Drained? ==> Agree(c.copy, w.sent[w.ticket[t]]))
  }

  // ---- The log of a run ----------------------------------------------------------------------

  /** The deque is what was sent and not taken, and every receiver is owed the message of its ticket. */
  ghost predicate Numbered(w: World) {
    && w.taken <= |w.sent| && w.deque == w.sent[w.taken..]
    && forall t | t in w.owed ::
         t in w.ticket && w.ticket[t] < w.taken && w.owed[t] == w.sent[w.ticket[t]]
  }

  /** Without urgent calls no node in flight is an urgent one. */
  ghost predicate NoneUrgent(s: State) {
    forall t | t in s.call && (s.call[t].Filling? || s.call[t].Filled?) :: !s.call[t].urgent
  }

  lemma StepNoneUrgent(w: World, e: Event)
    requires Legal(w, e) && NoneUrgent(w.s) && !e.UrgentStart? && !e.ResetStart?
    ensures NoneUrgent(Step(w, e).s)
  {
    var u := Step(w, e);
    StepOwnCall(w, e);
    if !e.Timer? && !e.Ticks? {
      OwnNotUrgent(w, e);
    }
    hide After, Typed, Takes;
    forall t | t in u.s.call && (u.s.call[t].Filling? || u.s.call[t].Filled?) ensures !u.s.call[t].urgent {}
  }

  lemma SendNotUrgent(s: State, t: Thread, msg: Bytes, timeout: int, now: int)
    requires Typed(s) && Member(s, t)
    ensures var r := SendLoop(s, t, msg, timeout, now).0; r.call[t].Filling? ==> !r.call[t].urgent
  {
    hide Typed, Enqueue, Runs, Sleeps;
  }

  lemma OwnNotUrgent(w: World, e: Event)
    requires Legal(w, e) && NoneUrgent(w.s) && !e.UrgentStart? && !e.ResetStart? && !e.Timer? && !e.Ticks?
    ensures var r := After(w, e).0;
      e.t in r.call && (r.call[e.t].Filling? || r.call[e.t].Filled? ==> !r.call[e.t].urgent)
  {
    hide Typed, SendLoop, RecvLoop, WaitTime.Remaining, WakeOne, Overlay;
    match e {
      case SendStart(t, msg, timeout) =>
        SendAside(w, e);
        SendNotUrgent(w.s, t, msg, timeout, Now(w));
      case SendAgain(t) =>
        SendAside(w, e);
        var c := w.s.call[t];
        SendNotUrgent(w.s, t, c.msg, WaitTime.Remaining(c.timeout, c.start, Now(w)), Now(w));
      case RecvStart(_, _, _) => RecvAside(w, e);
      case RecvAgain(_) => RecvAside(w, e);
      case _ =>
    }
  }

  lemma TakesFromQueue(w: World, e: Event)
    requires Legal(w, e) && Takes(w, e) && Intact(w)
    ensures w.deque != []
  {
    hide Typed, RecvLoop, Intact;
    RecvAside(w, e);
    IntactMirrors(w);
  }

  lemma IntactMirrors(w: World)
    requires Intact(w)
    ensures Mirrors(w)
  {
  }

  lemma StepNumbered(w: World, e: Event)
    requires Legal(w, e) && Intact(w) && NoneUrgent(w.s) && Numbered(w) && !e.UrgentStart? && !e.ResetStart?
    ensures Numbered(Step(w, e))
  {
    hide Typed, After, NoneUrgent, Intact, Takes;
    if Takes(w, e) {
      TakesFromQueue(w, e);
    }
    LinkNotUrgent(w, e);
  }

  lemma LinkNotUrgent(w: World, e: Event)
    requires Legal(w, e) && NoneUrgent(w.s)
    ensures e.LinkBy? ==> e.t in w.s.call && w.s.call[e.t].Filled? && !w.s.call[e.t].urgent
  {
    hide Typed;
  }

  lemma NumberedFifo(w: World)
    requires Intact(w) && Numbered(w)
    ensures Fifo(w)
  {
    forall t: Thread ensures FifoAt(w, t) {
      assert Carries(w, t);
    }
  }

  // ---- Whole runs ------------------------------------------------------------------------------

  lemma InitialNumbered(msgSize: nat, data: seq<Bytes>, flag: Flag, priority: map<Thread, nat>)
    ensures var w := Initial(msgSize, data, flag, priority); Numbered(w) && NoneUrgent(w.s)
  {
  }

  lemma RunStep(worlds: seq<World>, events: seq<Event>, n: nat)
    requires Run(worlds, events) && n + 1 < |worlds|
    ensures |worlds| == |events| + 1 && events[n] in events
    ensures Legal(worlds[n], events[n]) && worlds[n + 1] == Step(worlds[n], events[n])
  {
  }

  lemma {:induction false} RunNumbered(worlds: seq<World>, events: seq<Event>, msgSize: nat, data: seq<Bytes>,
                                       flag: Flag, priority: map<Thread, nat>, n: nat)
    requires |data| <= ENTRY_MAX && forall i | 0 <= i < |data| :: |data[i]| == msgSize
    requires Run(worlds, events) && worlds[0] == Initial(msgSize, data, flag, priority) && n < |worlds|
    requires forall e | e in events :: !e.UrgentStart? && !e.ResetStart?
    ensures Numbered(worlds[n]) && NoneUrgent(worlds[n].s)
  {
    hide Numbered, NoneUrgent, Step, Legal, Initial, QueueModel.Inv, Intact, Run;
    if n == 0 {
      InitialNumbered(msgSize, data, flag, priority);
    } else {
      RunNumbered(worlds, events, msgSize, data, flag, priority, n - 1);
      RunSafe(worlds, events, msgSize, data, flag, priority, n - 1);
      RunStep(worlds, events, n - 1);
      StepNumbered(worlds[n - 1], events[n - 1]);
      StepNoneUrgent(worlds[n - 1], events[n - 1]);
    }
  }

  /** First in, first out, in every state of every run without urgent messages and resets. */
  lemma RunFifo(worlds: seq<World>, events: seq<Event>, msgSize: nat, data: seq<Bytes>,
                flag: Flag, priority: map<Thread, nat>, n: nat)
    requires |data| <= ENTRY_MAX && forall i | 0 <= i < |data| :: |data[i]| == msgSize
    requires Run(worlds, events) && worlds[0] == Initial(msgSize, data, flag, priority) && n < |worlds|
    requires forall e | e in events :: !e.UrgentStart? && !e.ResetStart?
    ensures Fifo(worlds[n])
  {
    hide Fifo, Numbered, NoneUrgent, Run, Initial, QueueModel.Inv, Intact;
    RunSafe(worlds, events, msgSize, data, flag, priority, n);
    RunNumbered(worlds, events, msgSize, data, flag, priority, n);
    NumberedFifo(worlds[n]);
  }

  /** Between taking its node and giving it back, a receiver keeps its ticket. */
  lemma KeepsNode(w: World, e: Event, t: Thread)
    requires Legal(w, e) && t in w.s.call && (w.s.call[t].Draining? || w.s.call[t].Drained?) && e != UnlinkBy(t)
    ensures var r := After(w, e).0; t in r.call && (r.call[t].Draining? || r.call[t].Drained?)
    ensures Takes(w, e) ==> e.t != t
  {
    hide Typed, Takes, SendCall, SendReturn, UrgentCall, RecvCall, RecvReturn, Link, Unlink, CopyIn, Reset, Timeout;
    StepOwnCall(w, e);
    assert Takes(w, e) ==> (e.RecvStart? || e.RecvAgain?) by { OnlyReceivesTake(w, e); }
  }

  lemma OnlyReceivesTake(w: World, e: Event)
    requires Legal(w, e)
    ensures Takes(w, e) ==> e.RecvStart? || e.RecvAgain?
  {
    hide After, Typed;
  }

  lemma StepTicket(w: World, e: Event, t: Thread)
    requires Legal(w, e) && t in w.s.call && (w.s.call[t].Draining? || w.s.call[t].Drained?) && e != UnlinkBy(t)
    requires t in w.ticket
    ensures var u := Step(w, e);
      t in u.s.call && (u.s.call[t].Draining? || u.s.call[t].Drained?) && t in u.ticket && u.ticket[t] == w.ticket[t]
  {
    hide After, Typed, Takes;
    KeepsNode(w, e, t);
  }

  lemma {:induction false} TicketKept(worlds: seq<World>, events: seq<Event>, k: nat, n: nat, t: Thread)
    requires Run(worlds, events) && k < n <= |events| && Takes(worlds[k], events[k]) && events[k].t == t
    requires forall i | k < i < n :: events[i] != UnlinkBy(t)
    ensures t in worlds[n].s.call && (worlds[n].s.call[t].Draining? || worlds[n].s.call[t].Drained?)
    ensures t in worlds[n].ticket && worlds[n].ticket[t] == worlds[k].taken
  {
    if n == k + 1 {
      hide Typed, RecvLoop;
      RecvAside(worlds[k], events[k]);
    } else {
      hide Step, Legal, Takes;
      TicketKept(worlds, events, k, n - 1, t);
      StepTicket(worlds[n - 1], events[n - 1], t);
    }
  }

  /** The receive that takes a node in step k as number m (counting from 0) returns the message whose
      send completed as number m, whatever the other threads do before it returns in step n. */
  lemma ReceivedInOrder(worlds: seq<World>, events: seq<Event>, msgSize: nat, data: seq<Bytes>,
                        flag: Flag, priority: map<Thread, nat>, k: nat, n: nat, t: Thread)
    requires |data| <= ENTRY_MAX && forall i | 0 <= i < |data| :: |data[i]| == msgSize
    requires Run(worlds, events) && worlds[0] == Initial(msgSize, data, flag, priority)
    requires forall e | e in events :: !e.UrgentStart? && !e.ResetStart?
    requires k < n < |events| && Takes(worlds[k], events[k]) && events[k].t == t
    requires events[n] == UnlinkBy(t) && forall i | k < i < n :: events[i] != UnlinkBy(t)
    ensures After(worlds[n], events[n]).1.Received? && worlds[k].taken < |worlds[n].sent|
    ensures Agree(After(worlds[n], events[n]).1.copy, worlds[n].sent[worlds[k].taken])
  {
    hide Fifo, Takes, Initial, Typed, Step;
    RunFifo(worlds, events, msgSize, data, flag, priority, n);
    TicketKept(worlds, events, k, n, t);
    FifoOne(worlds[n], t);
  }

  lemma FifoOne(w: World, t: Thread)
    requires Fifo(w)
    ensures FifoAt(w, t)
  {
  }
}
