/** The message queue as a step system over its pool of nodes.

    rt_mq_send_wait, rt_mq_urgent and rt_mq_recv take a node off a list in one interrupts-disabled
    region, copy the message with interrupts on, and put the node on the other list in a second
    region.  In between the node belongs to the thread alone (its in-flight node). */
module QueueModel {
  import opened WaitQueue
  import opened Waiters
  import opened WaitTime

  const ENTRY_MAX := 0xFFFF

  type Node = nat
  type Bytes = seq<bv8>

  datatype Call =
    | Idle
    | Sending(msg: Bytes, timeout: int, start: int)
    | Receiving(size: nat, timeout: int, start: int)
      // A sender has a node, and then has copied its message into it.
    | Filling(node: Node, msg: Bytes, urgent: bool)
    | Filled(node: Node, msg: Bytes, urgent: bool)
      // A receiver has a node, and then has copied the message out of it.
    | Draining(node: Node, size: nat)
    | Drained(node: Node, size: nat, copy: Bytes)

  datatype Outcome = Returned(code: Code) | Received(copy: Bytes) | Blocked | Working

  datatype State = State(
    msgSize: nat,
    data: seq<Bytes>,
    queue: seq<Node>,
    free: seq<Node>,
    entry: nat,
    flag: Flag,
    receivers: Side,
    senders: Side,
    priority: map<Thread, nat>,
    error: map<Thread, Code>,
    call: map<Thread, Call>)

  ghost predicate Member(s: State, t: Thread) {
    t in s.priority && t in s.error && t in s.call
  }

  /** The thread has an in-flight node. */
  predicate Busy(c: Call) {
    c.Filling? || c.Filled? || c.Draining? || c.Drained?
  }

  ghost predicate Typed(s: State) {
    && (forall n | 0 <= n < |s.data| :: |s.data[n]| == s.msgSize)
    && s.entry <= |s.queue|
    && (forall t | t in s.receivers.waiting :: Member(s, t))
    && (forall t | t in s.senders.waiting :: Member(s, t))
    && (forall t | t in s.call && Busy(s.call[t]) :: s.call[t].node < |s.data|)
    && (forall t | t in s.call && s.call[t].Filling? :: |s.call[t].msg| <= s.msgSize)
    && (forall t | t in s.call && s.call[t].Sending? :: |s.call[t].msg| <= s.msgSize)
    && (forall n | n in s.queue :: n < |s.data|) && (forall n | n in s.free :: n < |s.data|)
  }

  // ---- Sending -------------------------------------------------------------------------

  function Claim(s: State, t: Thread, msg: Bytes, urgent: bool): State
    requires s.free != []
  {
    s.(free := s.free[1..], call := s.call[t := Filling(s.free[0], msg, urgent)])
  }

  function SendLoop(s: State, t: Thread, msg: Bytes, timeout: int, now: int): (State, Outcome)
    requires Typed(s) && Member(s, t)
  {
    var s0 := s.(senders := Runs(s.senders, t));
    if s.free == [] then
      var s1 := s0.(error := s.error[t := EOK]);
      if timeout == 0 then
        (s1.(call := s.call[t := Idle]), Returned(EFULL))
      else
        (s1.(senders := Sleeps(s0.senders, Enqueue(s.senders.waiting, s.priority, s.flag, t)),
             call := s.call[t := Sending(msg, timeout, if timeout > 0 then now else 0)]), Blocked)
    else (Claim(s0, t, msg, false), Working)
  }

  function SendCall(s: State, t: Thread, msg: Bytes, timeout: int, now: int): (State, Outcome)
    requires Typed(s) && Member(s, t)
  {
    if |msg| > s.msgSize then (s, Returned(ERROR))
    else if s.free == [] && timeout == 0 then (s, Returned(EFULL))
    else SendLoop(s, t, msg, timeout, now)
  }

  function SendReturn(s: State, t: Thread, now: int): (State, Outcome)
    requires Typed(s) && Member(s, t) && s.call[t].Sending?
  {
    var c := s.call[t];
    if s.error[t] != EOK then (s.(call := s.call[t := Idle]), Returned(s.error[t]))
    else SendLoop(s, t, c.msg, Remaining(c.timeout, c.start, now), now)
  }

  function UrgentCall(s: State, t: Thread, msg: Bytes): (State, Outcome)
    requires Typed(s) && Member(s, t)
  {
    if |msg| > s.msgSize then (s, Returned(ERROR))
    else if s.free == [] then (s, Returned(EFULL))
    else (Claim(s, t, msg, true), Working)
  }

  /** A message overwrites the front of the node; the rest of the node keeps its old bytes. */
  function Overlay(msg: Bytes, former: Bytes): Bytes
    requires |msg| <= |former|
  {
    msg + former[|msg|..]
  }

  /** rt_memcpy into the node, with interrupts on. */
  function CopyIn(s: State, t: Thread): State
    requires Typed(s) && t in s.call && s.call[t].Filling?
  {
    var c := s.call[t];
    s.(data := s.data[c.node := Overlay(c.msg, s.data[c.node])], call := s.call[t := Filled(c.node, c.msg, c.urgent)])
  }

  function Link(s: State, t: Thread): (State, Outcome)
    requires t in s.call && s.call[t].Filled?
  {
    var c := s.call[t];
    var s0 := s.(queue := if c.urgent then [c.node] + s.queue else s.queue + [c.node], call := s.call[t := Idle]);
    if s.entry < ENTRY_MAX then
      (s0.(entry := s.entry + 1, receivers := WakeOne(s.receivers)), Returned(EOK))
    else (s0, Returned(EFULL))
  }

  // ---- Receiving -----------------------------------------------------------------------

  function RecvLoop(s: State, t: Thread, size: nat, timeout: int, now: int): (State, Outcome)
    requires Typed(s) && Member(s, t)
  {
    var s0 := s.(receivers := Runs(s.receivers, t));
    if s.entry == 0 then
      if timeout == 0 then
        (s0.(error := s.error[t := EOK][t := ETIMEOUT], call := s.call[t := Idle]), Returned(ETIMEOUT))
      else
        (s0.(receivers := Sleeps(s0.receivers, Enqueue(s.receivers.waiting, s.priority, s.flag, t)),
             error := s.error[t := EOK],
             call := s.call[t := Receiving(size, timeout, if timeout > 0 then now else 0)]), Blocked)
    else
      (s0.(queue := s.queue[1..], entry := s.entry - 1, call := s.call[t := Draining(s.queue[0], size)]), Working)
  }

  function RecvCall(s: State, t: Thread, size: nat, timeout: int, now: int): (State, Outcome)
    requires Typed(s) && Member(s, t)
  {
    if s.entry == 0 && timeout == 0 then (s, Returned(ETIMEOUT))
    else RecvLoop(s, t, size, timeout, now)
  }

  function RecvReturn(s: State, t: Thread, now: int): (State, Outcome)
    requires Typed(s) && Member(s, t) && s.call[t].Receiving?
  {
    var c := s.call[t];
    if s.error[t] != EOK then (s.(call := s.call[t := Idle]), Returned(s.error[t]))
    else RecvLoop(s, t, c.size, Remaining(c.timeout, c.start, now), now)
  }

  /** How much a receive copies into a buffer of `size` bytes. */
  function Cut(s: State, size: nat): nat {
    if size > s.msgSize then s.msgSize else size
  }

  /** rt_memcpy out of the node, with interrupts on. */
  function CopyOut(s: State, t: Thread): State
    requires Typed(s) && t in s.call && s.call[t].Draining?
  {
    var c := s.call[t];
    var bytes := s.data[c.node][..Cut(s, c.size)];
    s.(call := s.call[t := Drained(c.node, c.size, bytes)])
  }

  function Unlink(s: State, t: Thread): (State, Outcome)
    requires t in s.call && s.call[t].Drained?
  {
    var c := s.call[t];
    (s.(free := [c.node] + s.free, senders := WakeOne(s.senders), call := s.call[t := Idle]), Received(c.copy))
  }

  // ---- Timeout and reset -----------------------------------------------------------------

  function Timeout(s: State, t: Thread): State {
    s.(error := s.error[t := ETIMEOUT], receivers := Expires(s.receivers, t), senders := Expires(s.senders, t))
  }

  /** The loop of rt_mq_control moves the nodes one by one to the front of the free list. */
  function PushAll(free: seq<Node>, queue: seq<Node>): seq<Node>
    decreases |queue|
  {
    if queue == [] then free else PushAll([queue[0]] + free, queue[1..])
  }

  lemma {:induction false} PushAllMembers(free: seq<Node>, queue: seq<Node>)
    ensures |PushAll(free, queue)| == |free| + |queue|
    ensures forall n :: n in PushAll(free, queue) <==> n in free || n in queue
    decreases |queue|
  {
    if queue != [] {
      PushAllMembers([queue[0]] + free, queue[1..]);
      assert queue == [queue[0]] + queue[1..];
    }
  }

  function Reset(s: State): State {
    s.(queue := [], free := PushAll(s.free, s.queue), entry := 0,
       error := FailAll(FailAll(s.error, s.receivers.waiting), s.senders.waiting),
       receivers := Sleeps(s.receivers, []), senders := Sleeps(s.senders, []))
  }

  // ---- The invariant: nodes ---------------------------------------------------------------

  ghost predicate Holds(s: State, t: Thread, n: Node) {
    t in s.call && Busy(s.call[t]) && s.call[t].node == n
  }

  ghost predicate InFlight(s: State, n: Node) {
    exists t :: Holds(s, t, n)
  }

  /** No node is lost. */
  ghost predicate Kept(s: State, n: Node) {
    n < |s.data| ==> n in s.free || n in s.queue || InFlight(s, n)
  }

  /** An in-flight node is on no list, and no two threads share one. */
  ghost predicate Alone(s: State, t: Thread, n: Node) {
    Holds(s, t, n) ==> n < |s.data| && n !in s.free && n !in s.queue
  }

  ghost predicate NotShared(s: State, t: Thread, u: Thread, n: Node) {
    Holds(s, t, n) && Holds(s, u, n) ==> t == u
  }

  ghost predicate Lists(s: State) {
    && Distinct(s.free) && Distinct(s.queue)
    && (forall n | n in s.free :: n !in s.queue)
  }

  /** Every pool node is in exactly one place: the free list, the queue, or one thread's hands. */
  ghost predicate Partition(s: State) {
    && Lists(s)
    && (forall n: Node :: Kept(s, n))
    && (forall t: Thread, n: Node :: Alone(s, t, n))
    && (forall t: Thread, u: Thread, n: Node :: NotShared(s, t, u, n))
  }

  // ---- The invariant: threads ---------------------------------------------------------------

  ghost predicate PlacedAt(s: State, t: Thread) {
    && (t in s.senders.waiting || t in s.senders.woken <==>
          Member(s, t) && s.call[t].Sending? && s.error[t] == EOK)
    && (t in s.receivers.waiting || t in s.receivers.woken <==>
          Member(s, t) && s.call[t].Receiving? && s.error[t] == EOK)
  }

  ghost predicate Placed(s: State) {
    forall t: Thread :: PlacedAt(s, t)
  }

  ghost predicate Quiet(s: State) {
    NotStranded(s.receivers, s.entry) && NotStranded(s.senders, |s.free|)
  }

  ghost predicate Inv(s: State) {
    && Typed(s) && |s.data| <= ENTRY_MAX && s.entry == |s.queue|
    && Partition(s) && Placed(s) && Quiet(s)
  }

  ghost predicate Asleep(s: State, t: Thread) {
    t in s.receivers.waiting || t in s.senders.waiting
  }

  // ---- Nodes change hands ---------------------------------------------------------------------

  ghost predicate Listed(s: State, n: Node) { n in s.free || n in s.queue }

  /** Thread t takes node n off a list. */
  lemma TakenOff(s: State, r: State, t: Thread, n: Node, c: Call)
    requires Partition(s) && Lists(r) && |r.data| == |s.data|
    requires t in s.call && !Busy(s.call[t]) && Busy(c) && c.node == n && n < |s.data|
    requires r.call == s.call[t := c] && Listed(s, n)
    requires forall x :: Listed(r, x) <==> Listed(s, x) && x != n
    ensures Partition(r)
  {
    forall u: Thread, x: Node ensures Holds(r, u, x) <==> Holds(s, u, x) || (u == t && x == n) {}
    hide Lists;
    forall x: Node ensures Kept(r, x) {
      assert Kept(s, x) && (Listed(s, x) <==> Listed(r, x) || x == n);
      if InFlight(s, x) {
        var u :| Holds(s, u, x);
        assert Holds(r, u, x);
      }
      assert x == n ==> Holds(r, t, x);
    }
    forall u: Thread, x: Node ensures Alone(r, u, x) {
      assert Alone(s, u, x) && (Listed(s, x) <==> Listed(r, x) || x == n);
    }
    forall u: Thread, v: Thread, x: Node ensures NotShared(r, u, v, x) {
      assert NotShared(s, u, v, x) && Alone(s, u, x) && Alone(s, v, x);
    }
  }

  /** Thread t puts its node on a list. */
  lemma PutBack(s: State, r: State, t: Thread, c: Call)
    requires Partition(s) && Lists(r) && |r.data| == |s.data|
    requires t in s.call && Busy(s.call[t]) && !Busy(c) && r.call == s.call[t := c]
    requires forall x :: Listed(r, x) <==> Listed(s, x) || x == s.call[t].node
    ensures Partition(r)
  {
    var n := s.call[t].node;
    forall u: Thread, x: Node ensures Holds(r, u, x) <==> Holds(s, u, x) && u != t {}
    hide Lists;
    forall x: Node ensures Kept(r, x) {
      assert Kept(s, x) && (Listed(r, x) <==> Listed(s, x) || x == n);
      if InFlight(s, x) {
        var u :| Holds(s, u, x);
        assert u != t ==> Holds(r, u, x);
      }
    }
    forall u: Thread, x: Node ensures Alone(r, u, x) {
      assert Alone(s, u, x) && (Listed(r, x) <==> Listed(s, x) || x == n) && Holds(s, t, n);
      assert NotShared(s, u, t, n);
    }
    forall u: Thread, v: Thread, x: Node ensures NotShared(r, u, v, x) {
      assert NotShared(s, u, v, x);
    }
  }

  /** A step that moves no node. */
  lemma Unmoved(s: State, r: State)
    requires Partition(s) && Lists(r) && |r.data| == |s.data|
    requires forall u: Thread, x: Node :: Holds(r, u, x) <==> Holds(s, u, x)
    requires forall x :: Listed(r, x) <==> Listed(s, x)
    ensures Partition(r)
  {
    hide Lists, Holds;
    forall x: Node ensures Kept(r, x) {
      assert Kept(s, x) && (Listed(r, x) <==> Listed(s, x));
      if InFlight(s, x) {
        var u :| Holds(s, u, x);
        assert Holds(r, u, x);
      }
    }
    forall u: Thread, x: Node ensures Alone(r, u, x) {
      assert Alone(s, u, x) && (Listed(r, x) <==> Listed(s, x)) && (Holds(r, u, x) <==> Holds(s, u, x));
    }
    forall u: Thread, v: Thread, x: Node ensures NotShared(r, u, v, x) {
      assert NotShared(s, u, v, x) && (Holds(r, u, x) <==> Holds(s, u, x)) && (Holds(r, v, x) <==> Holds(s, v, x));
    }
  }

  lemma OwnNode(s: State, t: Thread)
    requires Partition(s) && t in s.call && Busy(s.call[t])
    ensures s.call[t].node < |s.data| && s.call[t].node !in s.free && s.call[t].node !in s.queue
  {
    assert Holds(s, t, s.call[t].node) && Alone(s, t, s.call[t].node);
  }

  lemma OtherNodes(s: State, t: Thread)
    requires Partition(s) && t in s.call && Busy(s.call[t])
    ensures forall u | u in s.call && Busy(s.call[u]) ::
              && (u != t ==> s.call[u].node != s.call[t].node)
              && s.call[u].node !in s.free && s.call[u].node !in s.queue
  {
    forall u | u in s.call && Busy(s.call[u])
      ensures u != t ==> s.call[u].node != s.call[t].node
      ensures s.call[u].node !in s.free && s.call[u].node !in s.queue
    {
      var n := s.call[u].node;
      assert Holds(s, u, n) && Alone(s, u, n) && NotShared(s, u, t, n);
    }
  }

  lemma HeadOff(q: seq<Node>)
    requires q != [] && Distinct(q)
    ensures Distinct(q[1..]) && forall x :: x in q[1..] <==> x in q && x != q[0]
  {
    assert q == [q[0]] + q[1..];
  }

  lemma HeadOn(q: seq<Node>, n: Node)
    requires Distinct(q) && n !in q
    ensures Distinct([n] + q) && forall x :: x in [n] + q <==> x in q || x == n
  {
  }

  lemma TailOn(q: seq<Node>, n: Node)
    requires Distinct(q) && n !in q
    ensures Distinct(q + [n]) && forall x :: x in q + [n] <==> x in q || x == n
  {
  }

  // ---- The initial state ------------------------------------------------------------------------

  /** rt_mq_init: the last node of the pool is the first free one. */
  function InitialFree(n: nat): (q: seq<Node>)
    ensures |q| == n && forall i | 0 <= i < n :: q[i] == n - 1 - i
  {
    seq(n, i requires 0 <= i < n => n - 1 - i)
  }

  function NoErrors(priority: map<Thread, nat>): map<Thread, Code> { map t | t in priority :: EOK }

  function NoCalls(priority: map<Thread, nat>): map<Thread, Call> { map t | t in priority :: Idle }

  function InitialState(msgSize: nat, data: seq<Bytes>, flag: Flag, priority: map<Thread, nat>): State {
    State(msgSize, data, [], InitialFree(|data|), 0, flag, Side([], {}), Side([], {}), priority,
          NoErrors(priority), NoCalls(priority))
  }
}
