/** Every step of the message queue keeps its invariant, however the steps of different threads
    interleave. */
module QueueSteps {
  import opened WaitQueue
  import opened Waiters
  import opened QueueModel

  /** The thread may run the loop of rt_mq_send_wait: it just called, or was resumed. */
  ghost predicate MaySend(s: State, t: Thread) {
    Member(s, t) && !Asleep(s, t) && (s.call[t].Idle? || (s.call[t].Sending? && s.error[t] == EOK))
  }

  ghost predicate MayRecv(s: State, t: Thread) {
    Member(s, t) && !Asleep(s, t) && (s.call[t].Idle? || (s.call[t].Receiving? && s.error[t] == EOK))
  }

  // ---- Counting nodes ------------------------------------------------------------------------

  /** Distinct nodes of a pool of m are at most m. */
  lemma {:induction false} Pigeonhole(q: seq<Node>, m: nat)
    requires Distinct(q) && forall n | n in q :: n < m
    ensures |q| <= m
    decreases m
  {
    hide Without, Distinct;
    if q != [] {
      assert q[0] in q;
      var r := Without(q, m - 1);
      WithoutMembers(q, m - 1);
      WithoutLength(q, m - 1);
      Pigeonhole(r, m - 1);
    }
  }

  lemma {:induction false} WithoutLength(q: seq<Thread>, t: Thread)
    ensures |Without(q, t)| >= |q| - 1
  {
    if q != [] && q[0] != t {
      WithoutLength(q[1..], t);
    }
  }

  /** While a thread has a node, the queue is shorter than the pool: linking cannot overflow. */
  lemma RoomToLink(s: State, t: Thread)
    requires Inv(s) && t in s.call && Busy(s.call[t])
    ensures |s.queue| < |s.data| && s.entry < ENTRY_MAX
  {
    var n := s.call[t].node;
    assert Holds(s, t, n) && Alone(s, t, n);
    TailOn(s.queue, n);
    Pigeonhole(s.queue + [n], |s.data|);
  }

  // ---- Sending keeps it ------------------------------------------------------------------------

  lemma ClaimPartition(s: State, t: Thread, msg: Bytes, urgent: bool)
    requires Partition(s) && Typed(s) && t in s.call && !Busy(s.call[t]) && s.free != []
    ensures Partition(Claim(s, t, msg, urgent))
  {
    HeadOff(s.free);
    assert s.free[0] in s.free;
    var r := Claim(s, t, msg, urgent);
    assert forall x :: Listed(r, x) <==> Listed(s, x) && x != s.free[0];
    TakenOff(s, r, t, s.free[0], Filling(s.free[0], msg, urgent));
  }

  /** A step that changes neither lists nor in-flight nodes. */
  lemma SameNodes(s: State, r: State)
    requires Partition(s) && |r.data| == |s.data| && r.free == s.free && r.queue == s.queue
    requires forall u: Thread, x: Node :: Holds(r, u, x) <==> Holds(s, u, x)
    ensures Partition(r)
  {
    assert forall x :: Listed(r, x) <==> Listed(s, x);
    Unmoved(s, r);
  }

  lemma SendPartition(s: State, t: Thread, msg: Bytes, timeout: int, now: int)
    requires Inv(s) && MaySend(s, t)
    ensures Partition(SendLoop(s, t, msg, timeout, now).0)
  {
    var r := SendLoop(s, t, msg, timeout, now).0;
    if s.free == [] {
      assert !Busy(r.call[t]) && r.call == s.call[t := r.call[t]];
      hide Enqueue, Partition, SendLoop, Inv;
      assert Partition(s) by { assert Inv(s); }
      SameNodes(s, r);
    } else {
      var s0 := s.(senders := Runs(s.senders, t));
      SameNodes(s, s0);
      ClaimPartition(s0, t, msg, false);
    }
  }

  lemma SendPlaced(s: State, t: Thread, msg: Bytes, timeout: int, now: int)
    requires Inv(s) && MaySend(s, t)
    ensures Placed(SendLoop(s, t, msg, timeout, now).0)
    ensures forall x | x in SendLoop(s, t, msg, timeout, now).0.senders.waiting :: x == t || x in s.senders.waiting
  {
    EnqueueOrder(s.senders.waiting, s.priority, s.flag, t);
    hide Enqueue, Partition, Quiet;
    var r := SendLoop(s, t, msg, timeout, now).0;
    forall x: Thread ensures PlacedAt(r, x) {
      assert PlacedAt(s, x) && PlacedAt(s, t);
    }
  }

  lemma SendQuiet(s: State, t: Thread, msg: Bytes, timeout: int, now: int)
    requires Inv(s) && MaySend(s, t)
    ensures Quiet(SendLoop(s, t, msg, timeout, now).0)
  {
    if s.free == [] {
      MissKeeps(s.senders, t);
      if timeout != 0 {
        SleepKeeps(Runs(s.senders, t), s.priority, s.flag, t);
      }
    } else {
      TakeKeeps(s.senders, |s.free|, t);
    }
    hide NotStranded, Enqueue, Partition, Placed;
  }

  lemma SendTyped(s: State, t: Thread, msg: Bytes, timeout: int, now: int)
    requires Inv(s) && MaySend(s, t) && |msg| <= s.msgSize
    requires forall x | x in SendLoop(s, t, msg, timeout, now).0.senders.waiting :: x == t || x in s.senders.waiting
    ensures Typed(SendLoop(s, t, msg, timeout, now).0)
  {
    hide Placed, Quiet, Partition, Enqueue;
    if s.free != [] {
      assert s.free[0] in s.free && forall x | x in s.free[1..] :: x in s.free;
      assert SendLoop(s, t, msg, timeout, now).0 == Claim(s.(senders := Runs(s.senders, t)), t, msg, false);
    }
  }

  lemma SendLoopKeeps(s: State, t: Thread, msg: Bytes, timeout: int, now: int)
    requires Inv(s) && MaySend(s, t) && |msg| <= s.msgSize
    ensures Inv(SendLoop(s, t, msg, timeout, now).0)
  {
    SendPartition(s, t, msg, timeout, now);
    SendPlaced(s, t, msg, timeout, now);
    SendQuiet(s, t, msg, timeout, now);
    SendTyped(s, t, msg, timeout, now);
    hide Placed, Quiet, Partition, Enqueue, Typed;
  }

  lemma UrgentKeeps(s: State, t: Thread, msg: Bytes)
    requires Inv(s) && Member(s, t) && s.call[t].Idle?
    ensures Inv(UrgentCall(s, t, msg).0)
  {
    if |msg| <= s.msgSize && s.free != [] {
      ClaimPartition(s, t, msg, true);
      LessKeeps(s.senders, |s.free|, |s.free| - 1);
      assert s.free[0] in s.free && forall x | x in s.free[1..] :: x in s.free;
      hide NotStranded, Partition;
      var r := UrgentCall(s, t, msg).0;
      forall x: Thread ensures PlacedAt(r, x) {
        assert PlacedAt(s, x);
      }
    }
  }

  lemma CopyInKeeps(s: State, t: Thread)
    requires Inv(s) && t in s.call && s.call[t].Filling?
    ensures Inv(CopyIn(s, t))
  {
    var r := CopyIn(s, t);
    SameNodes(s, r);
    hide NotStranded, Partition;
    forall x: Thread ensures PlacedAt(r, x) {
      assert PlacedAt(s, x);
    }
  }

  lemma LinkPartition(s: State, t: Thread)
    requires Inv(s) && t in s.call && s.call[t].Filled?
    ensures Partition(Link(s, t).0)
    ensures forall x :: x in Link(s, t).0.queue <==> x in s.queue || x == s.call[t].node
  {
    var n := s.call[t].node;
    assert Holds(s, t, n) && Alone(s, t, n);
    HeadOn(s.queue, n);
    TailOn(s.queue, n);
    var r := Link(s, t).0;
    assert forall x :: Listed(r, x) <==> Listed(s, x) || x == n;
    PutBack(s, r, t, Idle);
  }

  lemma LinkKeeps(s: State, t: Thread)
    requires Inv(s) && t in s.call && s.call[t].Filled?
    ensures Inv(Link(s, t).0) && Link(s, t).1 == Returned(EOK)
  {
    RoomToLink(s, t);
    LinkPartition(s, t);
    PostKeeps(s.receivers, s.entry);
    WakeOneMembers(s.receivers);
    hide NotStranded, Partition, WakeOne;
    var r := Link(s, t).0;
    forall x: Thread ensures PlacedAt(r, x) {
      assert PlacedAt(s, x) && PlacedAt(s, t);
    }
  }

  // ---- Receiving keeps it ----------------------------------------------------------------------

  lemma RecvPartition(s: State, t: Thread, size: nat, timeout: int, now: int)
    requires Inv(s) && MayRecv(s, t)
    ensures Partition(RecvLoop(s, t, size, timeout, now).0)
  {
    var r := RecvLoop(s, t, size, timeout, now).0;
    if s.entry == 0 {
      assert !Busy(r.call[t]) && r.call == s.call[t := r.call[t]];
      hide Enqueue, Partition, RecvLoop, Inv;
      assert Partition(s) by { assert Inv(s); }
      SameNodes(s, r);
    } else {
      HeadOff(s.queue);
      assert s.queue[0] in s.queue;
      assert forall x :: Listed(r, x) <==> Listed(s, x) && x != s.queue[0];
      TakenOff(s, r, t, s.queue[0], Draining(s.queue[0], size));
    }
  }

  lemma RecvPlaced(s: State, t: Thread, size: nat, timeout: int, now: int)
    requires Inv(s) && MayRecv(s, t)
    ensures Placed(RecvLoop(s, t, size, timeout, now).0)
    ensures forall x | x in RecvLoop(s, t, size, timeout, now).0.receivers.waiting ::
              x == t || x in s.receivers.waiting
  {
    EnqueueOrder(s.receivers.waiting, s.priority, s.flag, t);
    hide Enqueue, Partition, Quiet;
    var r := RecvLoop(s, t, size, timeout, now).0;
    forall x: Thread ensures PlacedAt(r, x) {
      assert PlacedAt(s, x) && PlacedAt(s, t);
    }
  }

  lemma RecvQuiet(s: State, t: Thread, size: nat, timeout: int, now: int)
    requires Inv(s) && MayRecv(s, t)
    ensures Quiet(RecvLoop(s, t, size, timeout, now).0)
  {
    if s.entry == 0 {
      MissKeeps(s.receivers, t);
      if timeout != 0 {
        SleepKeeps(Runs(s.receivers, t), s.priority, s.flag, t);
      }
    } else {
      TakeKeeps(s.receivers, s.entry, t);
    }
    hide NotStranded, Enqueue, Partition, Placed;
  }

  lemma RecvTyped(s: State, t: Thread, size: nat, timeout: int, now: int)
    requires Inv(s) && MayRecv(s, t)
    requires forall x | x in RecvLoop(s, t, size, timeout, now).0.receivers.waiting ::
               x == t || x in s.receivers.waiting
    ensures Typed(RecvLoop(s, t, size, timeout, now).0)
  {
    hide Placed, Quiet, Partition, Enqueue;
    if s.queue != [] {
      assert s.queue[0] in s.queue && forall x | x in s.queue[1..] :: x in s.queue;
    }
  }

  lemma RecvLoopKeeps(s: State, t: Thread, size: nat, timeout: int, now: int)
    requires Inv(s) && MayRecv(s, t)
    ensures Inv(RecvLoop(s, t, size, timeout, now).0)
  {
    RecvPartition(s, t, size, timeout, now);
    RecvPlaced(s, t, size, timeout, now);
    RecvQuiet(s, t, size, timeout, now);
    RecvTyped(s, t, size, timeout, now);
    hide Placed, Quiet, Partition, Enqueue, Typed;
  }

  lemma CopyOutKeeps(s: State, t: Thread)
    requires Inv(s) && t in s.call && s.call[t].Draining?
    ensures Inv(CopyOut(s, t))
  {
    var r := CopyOut(s, t);
    SameNodes(s, r);
    hide NotStranded, Partition;
    forall x: Thread ensures PlacedAt(r, x) {
      assert PlacedAt(s, x);
    }
  }

  lemma UnlinkPartition(s: State, t: Thread)
    requires Inv(s) && t in s.call && s.call[t].Drained?
    ensures Partition(Unlink(s, t).0)
  {
    var n := s.call[t].node;
    assert Holds(s, t, n) && Alone(s, t, n);
    HeadOn(s.free, n);
    var r := Unlink(s, t).0;
    assert forall x :: Listed(r, x) <==> Listed(s, x) || x == n;
    PutBack(s, r, t, Idle);
  }

  lemma UnlinkKeeps(s: State, t: Thread)
    requires Inv(s) && t in s.call && s.call[t].Drained?
    ensures Inv(Unlink(s, t).0)
  {
    UnlinkPartition(s, t);
    PostKeeps(s.senders, |s.free|);
    WakeOneMembers(s.senders);
    hide NotStranded, Partition, WakeOne;
    var r := Unlink(s, t).0;
    forall x: Thread ensures PlacedAt(r, x) {
      assert PlacedAt(s, x) && PlacedAt(s, t);
    }
  }

  // ---- Errors, timeouts and reset keep it --------------------------------------------------------

  lemma LeaveKeeps(s: State, t: Thread)
    requires Inv(s) && Member(s, t) && s.error[t] != EOK && !Busy(s.call[t])
    ensures Inv(s.(call := s.call[t := Idle]))
  {
    var r := s.(call := s.call[t := Idle]);
    SameNodes(s, r);
    hide NotStranded, Partition;
    forall x: Thread ensures PlacedAt(r, x) {
      assert PlacedAt(s, x);
    }
  }

  lemma TimeoutKeeps(s: State, t: Thread)
    requires Inv(s) && Member(s, t) && Asleep(s, t)
    ensures Inv(Timeout(s, t))
  {
    ExpireKeeps(s.receivers, s.entry, t);
    ExpireKeeps(s.senders, |s.free|, t);
    WithoutMembers(s.receivers.waiting, t);
    WithoutMembers(s.senders.waiting, t);
    assert PlacedAt(s, t);
    var r := Timeout(s, t);
    SameNodes(s, r);
    hide Without, Partition;
    forall x: Thread ensures PlacedAt(r, x) {
      assert PlacedAt(s, x);
    }
  }

  lemma {:induction false} PushAllDistinct(free: seq<Node>, queue: seq<Node>)
    requires Distinct(free) && Distinct(queue) && forall n | n in queue :: n !in free
    ensures Distinct(PushAll(free, queue))
    decreases |queue|
  {
    if queue != [] {
      HeadOff(queue);
      HeadOn(free, queue[0]);
      PushAllDistinct([queue[0]] + free, queue[1..]);
    }
  }

  lemma ResetPartition(s: State)
    requires Inv(s)
    ensures Partition(Reset(s))
  {
    PushAllDistinct(s.free, s.queue);
    PushAllMembers(s.free, s.queue);
    var r := Reset(s);
    assert forall x :: Listed(r, x) <==> Listed(s, x);
    assert forall u: Thread, x: Node :: Holds(r, u, x) <==> Holds(s, u, x);
    Unmoved(s, r);
  }

  lemma ResetKeeps(s: State)
    requires Inv(s)
    ensures Inv(Reset(s))
  {
    ResetPartition(s);
    PushAllMembers(s.free, s.queue);
    ResumeAllCodes(s.error, s.receivers.waiting, s.senders.waiting);
    hide Partition, PushAll;
    var r := Reset(s);
    forall x: Thread ensures PlacedAt(r, x) {
      assert PlacedAt(s, x);
    }
  }
}
