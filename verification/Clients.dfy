/** Short programs that put calls of the kernel objects in sequence, as the threads of an application do.

    Each creates an object and the list nodes of threads 1 and 2, lets them make their calls in turn, and
    promises what the application relies on. */
module Clients {
  import opened Options
  import opened WaitQueue
  import opened IntrusiveList
  import opened WaitList
  import opened WaitSides
  import opened Semaphore
  import opened Mutex
  import opened Event
  import opened Mailbox
  import opened MessageQueue
  import opened MemPool
  import opened HeapChain
  import opened HeapRegion
  import opened SmallHeap
  import CText
  import HeapMemory
  import EventModel
  import MailRing
  import SemaphoreModel
  import MutexModel
  import EventRuns
  import EventAnswers
  import MailboxModel
  import QueueModel
  import QueueSteps
  import QueueRuns
  import PoolModel
  import opened Waiters

  /** The priorities of the two threads. */
  const PRIORITIES: map<Thread, nat> := map[1 := 20, 2 := 5]

  method TwoNodes() returns (tlist: map<Thread, Node>)
    ensures tlist.Keys == {1, 2} && fresh(tlist[1]) && fresh(tlist[2])
    ensures forall t | t in tlist :: tlist[t].thread == t
  {
    var a := new Node(1);
    var b := new Node(2);
    tlist := map[1 := a, 2 := b];
  }

  /** A take that waits for a release gets its unit from it. */
  method SignalArrives(time: int) returns (s: Semaphore, r: SemaphoreModel.Outcome)
    requires time != 0
    ensures r == SemaphoreModel.Returned(EOK) && s.value == 0 && s.suspended.Queue() == []
  {
    var tlist := TwoNodes();
    s := new Semaphore(0, FIFO, PRIORITIES, tlist);
    hide WaitList.Valid, WaitList.Queue, WaitList.Nodes;
    r := s.Take(1, time);
    r := s.Release();
    r := s.Leave(1);
  }

  /** A semaphore of n units serves n takes of a thread that never waits, and refuses the next one. */
  method UnitsServe(n: nat) returns (s: Semaphore, r: SemaphoreModel.Outcome)
    requires n <= SemaphoreModel.VALUE_MAX
    ensures r == SemaphoreModel.Returned(ETIMEOUT) && s.value == 0
  {
    var tlist := TwoNodes();
    s := new Semaphore(n, FIFO, PRIORITIES, tlist);
    hide WaitList.Valid, WaitList.Queue, WaitList.Nodes;
    for i := 0 to n
      invariant s.suspended.Valid() && s.State() == SemaphoreModel.Initial(n - i, FIFO, PRIORITIES).s
      invariant fresh(s) && fresh(s.suspended) && fresh(s.suspended.Nodes()) && s.suspended.tlist == tlist
    {
      r := s.Take(1, 0);
      assert r == SemaphoreModel.Returned(EOK);
    }
    r := s.Take(1, 0);
  }

  /** Thread 1 has the mutex, at the priority of thread 2, which waits for it. */
  function Contended(time: int): MutexModel.State {
    var s := MutexModel.InitialState(PRIO, PRIORITIES);
    s.(value := 0, owner := Some(1), hold := 1, original := 20, waiters := [2], priority := PRIORITIES[1 := 5],
       phase := s.phase[2 := Waiting(time > 0)])
  }

  lemma TakeFree(t: Thread)
    requires t in PRIORITIES
    ensures var s := MutexModel.InitialState(PRIO, PRIORITIES);
      MutexModel.Take(s, t, 0).0 ==
      s.(value := 0, owner := Some(t), hold := 1, original := PRIORITIES[t], error := s.error[t := EOK])
  {
  }

  lemma TakeContended(time: int)
    requires time != 0
    ensures var s := MutexModel.Take(MutexModel.InitialState(PRIO, PRIORITIES), 1, 0).0;
      && MutexModel.Typed(s) && 2 in s.phase && s.phase[2] == Ready && s.waiters == []
      && MutexModel.Take(s, 2, time).0 == Contended(time)
  {
    TakeFree(1);
  }

  lemma ReleaseContended(time: int)
    ensures var s := Contended(time);
      && MutexModel.Typed(s) && s.owner == Some(1) && s.hold == 1
      && MutexModel.Release(s, 1).0 ==
         s.(owner := Some(2), original := 5, waiters := [], priority := PRIORITIES, phase := s.phase[2 := Woken])
  {
    assert PRIORITIES[1 := 5][1 := 20] == PRIORITIES;
  }

  method NewMutex() returns (m: Mutex)
    ensures m.State() == MutexModel.InitialState(PRIO, PRIORITIES) && m.suspended.Valid()
    ensures fresh(m) && fresh(m.suspended) && fresh(m.suspended.Nodes()) && m.suspended.tlist.Keys == {1, 2}
    ensures fresh(m.suspended.tlist[1]) && fresh(m.suspended.tlist[2])
  {
    hide WaitList.Valid, WaitList.Queue, WaitList.Nodes, MutexModel.Inv;
    var tlist := TwoNodes();
    m := new Mutex(PRIO, PRIORITIES, tlist);
  }

  method BothTake(time: int) returns (m: Mutex)
    requires time != 0
    ensures m.State() == Contended(time) && m.suspended.Valid()
    ensures fresh(m) && fresh(m.suspended) && fresh(m.suspended.Nodes())
  {
    hide WaitList.Valid, WaitList.Queue, WaitList.Nodes, MutexModel.Take, Contended;
    m := NewMutex();
    TakeContended(time);
    var r := m.Take(1, 0);
    r := m.Take(2, time);
  }

  /** Thread 1 runs at the priority of thread 2 while that waits, and at its own after the hand-over. */
  method HandsOver(time: int) returns (m: Mutex, inherited: nat, r: MutexModel.Outcome)
    requires time != 0
    ensures inherited == 5 && r == MutexModel.Returned(EOK)
    ensures m.owner == Some(2) && m.hold == 1 && m.currentPriority == PRIORITIES
  {
    m := BothTake(time);
    hide WaitList.Valid, WaitList.Queue, WaitList.Nodes, MutexModel.Release;
    ReleaseContended(time);
    inherited := m.currentPriority[1];
    r := m.Release(1);
    r := m.Leave(2);
  }

  // ---- Events -----------------------------------------------------------------------------------

  /** RT_EVENT_FLAG_AND and RT_EVENT_FLAG_OR, with RT_EVENT_FLAG_CLEAR. */
  const BOTH: bv8 := 0x05
  const EITHER: bv8 := 0x06

  /** Thread 1 waits for bits 1 and 2 and will take them; `sent` is what has been sent already. */
  function Expecting(sent: EventModel.Bits, option: bv8, timed: bool): EventRuns.State {
    EventRuns.Asleep(EventRuns.Initial(FIFO, PRIORITIES), 1, 3, option, timed).(flags := sent)
  }

  /** The walk of rt_event_send when thread 1 waits alone. */
  lemma OneWaiter(flags: EventModel.Bits, want: map<Thread, EventModel.Bits>, info: map<Thread, bv8>)
    requires 1 in want && 1 in info && EventModel.HasMode(info[1])
    ensures EventModel.Wake([1], flags, want, info) ==
      if EventModel.Met(flags, want[1], info[1]) then
        var got := EventModel.Delivered(flags, want[1], info[1]);
        EventModel.Walk(EventModel.Cleared(flags, got, info[1]), [], want[1 := got], [1], false)
      else EventModel.Walk(flags, [1], want, [], false)
  {
    hide EventModel.Met, EventModel.Delivered, EventModel.Cleared, EventModel.HasMode;
  }

  lemma Bits()
    ensures EventModel.HasMode(BOTH) && EventModel.SomeBit(1) && EventModel.SomeBit(2)
    ensures EventModel.Union(0, 1) == 1 && !EventModel.Met(1, 3, BOTH)
    ensures EventModel.Union(1, 2) == 3 && EventModel.Met(3, 3, BOTH)
    ensures EventModel.Delivered(3, 3, BOTH) == 3 && EventModel.Cleared(3, 3, BOTH) == 0
    ensures EventModel.HasMode(EITHER) && EventModel.Met(1, 3, EITHER) && !EventModel.Met(0, 3, EITHER)
    ensures !EventModel.Met(0, 3, BOTH)
    ensures EventModel.Delivered(1, 3, EITHER) == 1 && EventModel.Cleared(1, 1, EITHER) == 0
  {
  }

  lemma FirstSent(timed: bool)
    ensures EventRuns.Typed(Expecting(0, BOTH, timed))
    ensures EventRuns.Send(Expecting(0, BOTH, timed), 1) == (Expecting(1, BOTH, timed), EventRuns.Returned(EOK))
  {
    hide EventModel.Met, EventModel.Delivered, EventModel.Cleared, EventModel.HasMode, EventModel.SomeBit,
         EventModel.Union, EventModel.Wake;
    Bits();
    var s := Expecting(0, BOTH, timed);
    assert s.waiters == [1];
    OneWaiter(1, s.want, s.info);
    assert EventRuns.Mark(s.phase, [], Woken) == s.phase;
  }

  lemma SecondSent(timed: bool)
    ensures var s := Expecting(1, BOTH, timed);
      && EventRuns.Typed(s) && EventRuns.Typed(EventRuns.Send(s, 2).0) && EventRuns.Send(s, 2).0.threads == {1, 2}
      && EventRuns.Send(s, 2).0.phase[1] == Woken && EventRuns.Send(s, 2).0.flags == 0
      && EventRuns.Leave(EventRuns.Send(s, 2).0, 1).1 == EventRuns.Received(3)
  {
    hide EventModel.Met, EventModel.Delivered, EventModel.Cleared, EventModel.HasMode, EventModel.SomeBit,
         EventModel.Union, EventModel.Wake;
    Bits();
    var s := Expecting(1, BOTH, timed);
    assert s.waiters == [1];
    OneWaiter(3, s.want, s.info);
  }

  /** A thread that waits for one of two events runs after the first of them. */
  lemma OneSent(timed: bool)
    ensures var s := Expecting(0, EITHER, timed);
      && EventRuns.Typed(s) && EventRuns.Typed(EventRuns.Send(s, 1).0) && EventRuns.Send(s, 1).0.threads == {1, 2}
      && EventRuns.Send(s, 1).0.phase[1] == Woken && EventRuns.Send(s, 1).0.flags == 0
      && EventRuns.Leave(EventRuns.Send(s, 1).0, 1).1 == EventRuns.Received(1)
  {
    hide EventModel.Met, EventModel.Delivered, EventModel.Cleared, EventModel.HasMode, EventModel.SomeBit,
         EventModel.Union, EventModel.Wake;
    Bits();
    var s := Expecting(0, EITHER, timed);
    assert s.waiters == [1];
    OneWaiter(1, s.want, s.info);
  }

  method Expect(option: bv8, timeout: int) returns (e: Event)
    requires timeout != 0 && (option == BOTH || option == EITHER)
    ensures e.State() == Expecting(0, option, timeout > 0) && e.suspended.Valid()
    ensures fresh(e) && fresh(e.suspended) && fresh(e.suspended.Nodes())
  {
    hide WaitList.Valid, WaitList.Queue, WaitList.Nodes, EventModel.Met, EventModel.HasMode, EventModel.SomeBit;
    Bits();
    EventAnswers.Nonzero(3);
    var tlist := TwoNodes();
    e := new Event(FIFO, PRIORITIES, tlist);
    var r := e.Recv(1, 3, option, timeout);
  }

  /** A thread that waits for two events, and takes them, runs after both were sent and gets both. */
  method BothArrive(timeout: int) returns (e: Event, r: EventRuns.Outcome)
    requires timeout != 0
    ensures r == EventRuns.Received(3) && e.flags == 0
  {
    hide WaitList.Valid, WaitList.Queue, WaitList.Nodes, EventRuns.Send, Expecting;
    e := Expect(BOTH, timeout);
    FirstSent(timeout > 0);
    SecondSent(timeout > 0);
    r := e.Send(1);
    r := e.Send(2);
    r := e.Leave(1);
  }

  /** A thread that waits for one of two events, and takes it, runs when one was sent and gets that one. */
  method OneArrives(timeout: int) returns (e: Event, r: EventRuns.Outcome)
    requires timeout != 0
    ensures r == EventRuns.Received(1) && e.flags == 0
  {
    hide WaitList.Valid, WaitList.Queue, WaitList.Nodes, EventRuns.Send, Expecting;
    e := Expect(EITHER, timeout);
    OneSent(timeout > 0);
    r := e.Send(1);
    r := e.Leave(1);
  }

  // ---- Mailboxes ----------------------------------------------------------------------------------

  method NewMailbox() returns (m: Mailbox)
    ensures m.State() == MailboxModel.InitialState(seq(4, i => 0), FIFO, PRIORITIES) && m.threads.Valid()
    ensures fresh(m) && fresh(m.pool) && fresh(m.threads.Objects()) && m.threads.receivers.tlist.Keys == {1, 2}
    ensures fresh(m.threads.receivers.tlist[1]) && fresh(m.threads.receivers.tlist[2])
  {
    hide WaitSides.Valid, WaitSides.Objects, WaitList.Valid, WaitList.Queue, WaitList.Nodes;
    var tlist := TwoNodes();
    var pool := new MailRing.Mail[4](i => 0);
    m := new Mailbox(pool, FIFO, PRIORITIES, tlist);
  }

  /** The state in which thread 1 waits for a mail. */
  lemma Receiving(timeout: int, now: int)
    requires timeout != 0
    ensures var s := MailboxModel.InitialState(seq(4, i => 0), FIFO, PRIORITIES);
      MailboxModel.Typed(s) && Expectant(MailboxModel.RecvCall(s, 1, timeout, now).0)
  {
  }

  ghost predicate Expectant(s: MailboxModel.State) {
    && MailboxModel.Typed(s) && MailboxModel.Member(s, 1) && MailboxModel.Member(s, 2)
    && s.ring.size == 4 && s.ring.entry == 0 && s.receivers.waiting == [1] && s.senders.waiting == []
    && s.call[1].Receiving? && s.error[1] == EOK
  }

  lemma MailPasses(s: MailboxModel.State, v: MailRing.Mail, now: int, later: int)
    requires Expectant(s)
    ensures var s1 := MailboxModel.SendCall(s, 2, v, 0, now).0;
      && MailboxModel.Typed(s1) && MailboxModel.Member(s1, 1) && s1.call[1].Receiving?
      && s1.receivers.waiting == [] && s1.senders.waiting == []
      && var (s2, r) := MailboxModel.RecvReturn(s1, 1, later);
      r == MailboxModel.Received(v) && s2.ring.entry == 0
  {
  }

  /** A mail sent while a receiver waits reaches it. */
  method MailArrives(v: MailRing.Mail, timeout: int, now: int, later: int)
    returns (m: Mailbox, r: MailboxModel.Outcome)
    requires timeout != 0
    ensures r == MailboxModel.Received(v) && m.entry == 0
  {
    hide WaitSides.Valid, WaitList.Valid, WaitList.Queue, WaitList.Nodes, MailboxModel.RecvCall, MailboxModel.SendCall,
         MailboxModel.RecvReturn;
    m := NewMailbox();
    Receiving(timeout, now);
    r := m.RecvCall(1, timeout, now);
    MailPasses(m.State(), v, now, later);
    r := m.SendCall(2, v, 0, now);
    r := m.RecvReturn(1, later);
  }

  // ---- Message queues -----------------------------------------------------------------------------

  /** What an uninterrupted send does, step by step: the message is in the node behind the others. */
  lemma SendEffect(s: QueueModel.State, t: Thread, msg: QueueModel.Bytes)
    requires QueueModel.Typed(s) && QueueModel.Member(s, t) && s.free != [] && |msg| == s.msgSize
    requires s.entry == |s.queue| < QueueModel.ENTRY_MAX && QueueModel.Typed(QueueModel.SendCall(s, t, msg, 0, 0).0)
    ensures var s1 := QueueModel.SendCall(s, t, msg, 0, 0).0;
      && t in s1.call && s1.call[t] == QueueModel.Filling(s.free[0], msg, false)
      && var s2 := QueueModel.CopyIn(s1, t);
      && t in s2.call && s2.call[t].Filled?
      && var (s3, r) := QueueModel.Link(s2, t);
      && r == QueueModel.Returned(EOK) && Holding(s, s3, msg)
      && s3.call.Keys == s.call.Keys && forall x | x in s.call && x != t :: s3.call[x] == s.call[x]
  {
    assert s.free[0] in s.free;
    assert QueueModel.Overlay(msg, s.data[s.free[0]]) == msg;
  }

  /** And it keeps the invariant. */
  lemma SendSteps(s: QueueModel.State, t: Thread, msg: QueueModel.Bytes)
    requires QueueModel.Inv(s) && QueueModel.Member(s, t) && s.call[t].Idle? && s.free != [] && |msg| == s.msgSize
    ensures var s1 := QueueModel.SendCall(s, t, msg, 0, 0).0;
      && QueueModel.Inv(s1) && t in s1.call && s1.call[t].Filling?
      && var s2 := QueueModel.CopyIn(s1, t);
      && QueueModel.Inv(s2) && t in s2.call && s2.call[t].Filled? && s.entry < QueueModel.ENTRY_MAX
      && QueueModel.Inv(QueueModel.Link(s2, t).0)
  {
    assert QueueModel.PlacedAt(s, t);
    QueueSteps.SendLoopKeeps(s, t, msg, 0, 0);
    hide QueueModel.Partition, QueueModel.Placed, QueueModel.Quiet, QueueModel.Typed;
    var s1 := QueueModel.SendCall(s, t, msg, 0, 0).0;
    QueueSteps.CopyInKeeps(s1, t);
    var s2 := QueueModel.CopyIn(s1, t);
    QueueSteps.LinkKeeps(s2, t);
    QueueSteps.RoomToLink(s2, t);
  }

  /** From s to r a message was added and nobody else was affected. */
  ghost predicate Holding(s: QueueModel.State, r: QueueModel.State, msg: QueueModel.Bytes) {
    && r.msgSize == s.msgSize && r.queue != [] && |r.queue| == |s.queue| + 1
    && r.queue[..|s.queue|] == s.queue && r.queue[|s.queue|] < |r.data| && r.data[r.queue[|s.queue|]] == msg
    && r.receivers.waiting == s.receivers.waiting[if s.receivers.waiting == [] then 0 else 1..]
    && r.senders.waiting == s.senders.waiting && r.priority == s.priority && r.error == s.error
  }

  /** An uninterrupted receive, step by step: it returns the first message. */
  lemma RecvSteps(s: QueueModel.State, t: Thread, size: nat)
    requires QueueModel.Inv(s) && QueueModel.Member(s, t) && s.call[t].Idle? && s.queue != [] && size >= s.msgSize
    ensures var s1 := QueueModel.RecvCall(s, t, size, 0, 0).0;
      && QueueModel.Inv(s1) && t in s1.call && s1.call[t].Draining?
      && var s2 := QueueModel.CopyOut(s1, t);
      && QueueModel.Inv(s2) && t in s2.call && s2.call[t].Drained?
      && s.queue[0] < |s.data| && QueueModel.Unlink(s2, t).1 == QueueModel.Received(s.data[s.queue[0]])
  {
    assert QueueModel.PlacedAt(s, t) && s.queue[0] in s.queue;
    QueueSteps.RecvLoopKeeps(s, t, size, 0, 0);
    var s1 := QueueModel.RecvCall(s, t, size, 0, 0).0;
    hide QueueModel.Partition, QueueModel.Placed, QueueModel.Quiet;
    QueueSteps.CopyOutKeeps(s1, t);
  }

  method NewQueue(msgSize: nat) returns (q: MessageQueue)
    ensures q.State() == QueueModel.InitialState(msgSize, q.data[..], FIFO, PRIORITIES)
    ensures QueueModel.Inv(q.State()) && q.Nodes() && q.Ends() && q.threads.Valid() && |q.free| == 2
    ensures fresh(q) && fresh(q.data) && fresh(q.next) && fresh(q.threads.Objects())
    ensures q.threads.receivers.tlist.Keys == {1, 2}
    ensures fresh(q.threads.receivers.tlist[1]) && fresh(q.threads.receivers.tlist[2])
  {
    hide WaitSides.Valid, WaitSides.Objects, WaitList.Valid, WaitList.Queue, WaitList.Nodes, QueueModel.Inv,
         MessageQueue.Nodes, MessageQueue.Ends;
    var tlist := TwoNodes();
    var data := new QueueModel.Bytes[2](i => seq(msgSize, j => 0));
    q := new MessageQueue(msgSize, data, FIFO, PRIORITIES, tlist);
    QueueRuns.InitialSafe(msgSize, data[..], FIFO, PRIORITIES);
  }

  method SendOne(q: MessageQueue, t: Thread, msg: QueueModel.Bytes) returns (r: QueueModel.Outcome)
    requires QueueModel.Inv(q.State()) && q.Nodes() && q.Ends() && q.threads.Valid() && q.threads.Suspendable(t)
    requires QueueModel.Member(q.State(), t) && q.call[t].Idle? && q.free != [] && |msg| == q.msgSize
    modifies q, q.next, q.data, q.threads.Objects(), q.threads.receivers.tlist[t]
    ensures QueueModel.Inv(q.State()) && q.Nodes() && q.Ends() && q.threads.Valid()
    ensures r == QueueModel.Returned(EOK) && Holding(old(q.State()), q.State(), msg)
    ensures q.call.Keys == old(q.call).Keys && forall x | x in q.call && x != t :: q.call[x] == old(q.call[x])
    ensures q.threads.Objects() <= old(q.threads.Objects()) + {q.threads.receivers.tlist[t]}
  {
    hide WaitSides.Valid, WaitSides.Objects, WaitList.Valid, WaitList.Queue, WaitList.Nodes, MessageQueue.Nodes,
         MessageQueue.Ends, QueueModel.SendCall, QueueModel.CopyIn, QueueModel.Link, QueueModel.Partition,
         QueueModel.Placed, QueueModel.Quiet, Holding;
    SendSteps(q.State(), t, msg);
    SendEffect(q.State(), t, msg);
    r := q.SendCall(t, msg, 0, 0);
    q.CopyIn(t);
    r := q.Link(t);
  }

  method ReceiveOne(q: MessageQueue, t: Thread, size: nat) returns (r: QueueModel.Outcome)
    requires QueueModel.Inv(q.State()) && q.Nodes() && q.Ends() && q.threads.Valid() && q.threads.Suspendable(t)
    requires QueueModel.Member(q.State(), t) && q.call[t].Idle? && q.queue != [] && size >= q.msgSize
    modifies q, q.next, q.threads.Objects(), q.threads.receivers.tlist[t]
    ensures q.Nodes() && q.Ends() && q.threads.Valid()
    ensures old(q.queue[0]) < q.data.Length && r == QueueModel.Received(old(q.data[q.queue[0]]))
  {
    hide WaitSides.Valid, WaitSides.Objects, WaitList.Valid, WaitList.Queue, WaitList.Nodes, MessageQueue.Nodes,
         MessageQueue.Ends, QueueModel.RecvCall, QueueModel.CopyOut, QueueModel.Unlink, QueueModel.Partition,
         QueueModel.Placed, QueueModel.Quiet;
    RecvSteps(q.State(), t, size);
    r := q.RecvCall(t, size, 0, 0);
    q.CopyOut(t);
    r := q.Unlink(t);
  }

  /** A message comes back as it was sent. */
  method MessageArrives(msg: QueueModel.Bytes) returns (q: MessageQueue, r: QueueModel.Outcome)
    ensures r == QueueModel.Received(msg)
  {
    hide WaitSides.Valid, WaitSides.Objects, WaitList.Valid, WaitList.Queue, WaitList.Nodes, MessageQueue.Nodes,
         MessageQueue.Ends, QueueModel.Inv;
    q := NewQueue(|msg|);
    r := SendOne(q, 1, msg);
    r := ReceiveOne(q, 2, |msg|);
  }

  // ---- Pools --------------------------------------------------------------------------------------

  /** Thread 1 has the only block and thread 2 waits for it. */
  function UsedUp(timed: int): PoolModel.State {
    var s := PoolModel.Initial(1, {1, 2});
    s.(headers := [PoolModel.Owner], free := [], freeCount := 0, waiters := Side([2], {}),
       call := s.call[1 := PoolModel.Idle][2 := PoolModel.Allocating(timed, 0)])
  }

  method NewPool() returns (p: MemPool)
    ensures p.State() == PoolModel.Initial(1, {1, 2}) && p.Linked() && p.waiting.Valid()
    ensures fresh(p) && fresh(p.header) && fresh(p.waiting) && fresh(p.waiting.Nodes())
    ensures p.waiting.tlist.Keys == {1, 2} && fresh(p.waiting.tlist[1]) && fresh(p.waiting.tlist[2])
  {
    hide WaitList.Valid, WaitList.Queue, WaitList.Nodes, MemPool.Linked;
    var tlist := TwoNodes();
    p := new MemPool(8, 4, {1, 2}, tlist);
  }

  lemma UsedUpAfter(time: int)
    requires time < 0
    ensures var s := PoolModel.Initial(1, {1, 2});
      var s1 := PoolModel.AllocLoop(s, 1, 0, 0).0;
      && PoolModel.Typed(s) && PoolModel.Typed(s1) && PoolModel.Member(s1, 2) && s1.waiters.waiting == []
      && PoolModel.AllocLoop(s1, 2, time, 0).0 == UsedUp(time)
  {
    var s := PoolModel.Initial(1, {1, 2});
    assert s.error[2 := EOK] == s.error;
  }

  method UseUp(time: int) returns (p: MemPool)
    requires time < 0
    ensures p.State() == UsedUp(time) && p.Linked() && p.waiting.Valid()
    ensures fresh(p) && fresh(p.header) && fresh(p.waiting) && fresh(p.waiting.Nodes())
    ensures p.waiting.tlist.Keys == {1, 2} && fresh(p.waiting.tlist[2])
  {
    hide WaitList.Valid, WaitList.Queue, WaitList.Nodes, MemPool.Linked, PoolModel.AllocLoop, UsedUp;
    p := NewPool();
    UsedUpAfter(time);
    var r := p.AllocLoop(1, 0, 0);
    r := p.AllocLoop(2, time, 0);
  }

  /** The block that thread 1 frees goes to thread 2, which waits for it. */
  method BlockPasses(time: int) returns (p: MemPool, r: PoolModel.Outcome)
    requires time < 0
    ensures r == PoolModel.Allocated(0) && p.header[..] == [PoolModel.Owner]
  {
    hide WaitList.Valid, WaitList.Queue, WaitList.Nodes, MemPool.Linked;
    p := UseUp(time);
    p.Free(0);
    r := p.AllocWake(2, 0);
    r := p.AllocLoop(2, p.call[2].time, 0);
  }

  // ---- The heap -----------------------------------------------------------------------------------

  /** The payload of block i is still there when block j has been taken, and when it is given up again. */
  lemma StillThere(c: Chain, i: nat, j: nat, size: nat, k: int)
    requires PayloadOf(c, i, k) && j + 1 < |c| && !c[j].used
    ensures var d := Allocate(c, j, size);
      j + 1 < |d| && d[j] == Block(c[j].at, true)
      && exists s: nat :: PayloadOf(SetUsed(d, j, false), s, k)
  {
    AllocateUpTo(c, j, size);
    BesideAllocated(c, j, size, i);
    var s := if j < i && Room(c, j) >= size + HDR + MIN then i + 1 else i;
    assert PayloadOf(SetUsed(Allocate(c, j, size), j, false), s, k);
  }

  /** What a client has written stays while another block comes and goes. */
  method DataStays(bytes: array<CText.Byte>, v: CText.Byte, other: nat) returns (h: Heap, r: Ptr)
    requires bytes.Length % 4 == 0 && 2 * HDR + MIN <= bytes.Length < TWO32 && other < TWO32
    modifies bytes
    ensures h.region == bytes && (r.At? ==> 0 <= r.off < bytes.Length && bytes[r.off] == v)
  {
    hide Encodes, NoTwoFree, Aligned, UsedTotal, Lowest, Allocate, HeapMemory.Next, NoFit, Plug, Tiled;
    ghost var i, j;
    var q;
    h := new Heap(bytes);
    ghost var c0 := h.chain;
    r, i := h.Malloc(1);
    if r.At? {
      ghost var c := h.chain;
      AllocateUpTo(c0, i, Request(1));
      h.Store(r.off, v, i);
      ghost var b := h.region[..];
      assert b[r.off] == v && PayloadOf(c, i, r.off);
      q, j := h.Malloc(other);
      assert KeepsPayloads(b, h.region[..], c);
      assert h.region[..][r.off] == v;
      if q.At? {
        StillThere(c, i, j, Request(other), r.off);
        h.Free(q, j);
        assert h.region[..][r.off] == v;
      }
    }
  }

  /** A block of 200 bytes is cut to 128 where it is, so the pointer stays. */
  method CutStays(bytes: array<CText.Byte>) returns (h: Heap, r: Ptr, q: Ptr)
    requires bytes.Length % 4 == 0 && 2 * HDR + MIN <= bytes.Length < TWO32
    modifies bytes
    ensures r.At? ==> q == r
  {
    hide Encodes, NoTwoFree, Aligned, UsedTotal, Lowest, Allocate, HeapMemory.Next, HeapMemory.Reaches, NoFit, Plug,
         Tiled, KeepsPayloads;
    ghost var i, j;
    h := new Heap(bytes);
    ghost var c := h.chain;
    r, i := h.Malloc(200);
    q := Null;
    if r.At? {
      AllocateUpTo(c, i, Request(200));
      q, j := h.Realloc(r, 128, i);
    }
  }
}
