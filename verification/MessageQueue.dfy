/** rt_mq_init, rt_mq_send_wait, rt_mq_urgent, rt_mq_recv and rt_mq_control on the fields of
    struct rt_messagequeue, the next links inside the pool, and the threads, whose waiters are on two
    circular lists.

    A node is named by its index in the pool.  Each method is one interrupts-disabled region, or one
    copy with interrupts on; its effect is the matching step of QueueModel, whose invariant every
    step keeps. */
module MessageQueue {
  import opened Links
  import opened WaitQueue
  import opened WaitSides
  import IntrusiveList
  import WaitList
  import WaitTime
  import Model = QueueModel

  /** The links from q's first node run through q and end with a null pointer. */
  ghost predicate Chained(next: seq<int>, q: seq<Model.Node>) {
    forall i: nat | i < |q| :: q[i] < |next| && next[q[i]] == LinkAfter(q, i)
  }

  lemma ChainTail(next: seq<int>, q: seq<Model.Node>)
    requires Chained(next, q) && q != []
    ensures Chained(next, q[1..]) && next[q[0]] == First(q[1..])
  {
    assert next[q[0]] == LinkAfter(q, 0);
    forall i: nat | i < |q[1..]| ensures next[q[1..][i]] == LinkAfter(q[1..], i) {
      assert next[q[i + 1]] == LinkAfter(q, i + 1);
    }
  }

  /** Writing the link of a node outside the chain. */
  lemma ChainFrame(next: seq<int>, q: seq<Model.Node>, n: Model.Node, v: int)
    requires Chained(next, q) && n < |next| && n !in q
    ensures Chained(next[n := v], q)
  {
    forall i: nat | i < |q| ensures next[n := v][q[i]] == LinkAfter(q, i) {
      assert q[i] in q;
    }
  }

  lemma ChainPush(next: seq<int>, q: seq<Model.Node>, n: Model.Node)
    requires Chained(next, q) && n < |next| && n !in q
    ensures Chained(next[n := First(q)], [n] + q)
  {
    ChainFrame(next, q, n, First(q));
    var r := [n] + q;
    forall i: nat | i < |r| ensures next[n := First(q)][r[i]] == LinkAfter(r, i) {
      if i > 0 {
        assert next[n := First(q)][q[i - 1]] == LinkAfter(q, i - 1);
      }
    }
  }

  lemma ChainAppend(next: seq<int>, q: seq<Model.Node>, n: Model.Node)
    requires Chained(next, q) && Distinct(q) && n < |next| && n !in q && next[n] == NULL
    ensures Chained(if q == [] then next else next[q[|q| - 1] := n], q + [n])
  {
    if q != [] {
      var r := q + [n];
      var after := next[q[|q| - 1] := n];
      forall i: nat | i < |r| ensures r[i] < |next| && after[r[i]] == LinkAfter(r, i) {
        if i < |q| {
          assert next[q[i]] == LinkAfter(q, i);
        }
        assert q[|q| - 1] in q;
      }
    }
  }

  class MessageQueue {
    const msgSize: nat
    /** msg_pool: the bytes behind each node's link, and the links. */
    const data: array<Model.Bytes>
    const next: array<int>
    /** msg_queue_head, msg_queue_tail and msg_queue_free */
    var head: int
    var tail: int
    var freeHead: int
    var entry: nat
    const flag: Flag
    const threads: WaitSides

    // Fields of the threads, and the local variables of calls in progress.
    var priority: map<Thread, nat>
    var error: map<Thread, Code>
    var call: map<Thread, Model.Call>

    /** The nodes of the two lists, in list order. */
    ghost var queue: seq<Model.Node>
    ghost var free: seq<Model.Node>

    ghost function State(): Model.State
      reads this, data, threads, threads.receivers, threads.senders
    {
      Model.State(msgSize, data[..], queue, free, entry, flag, threads.Receivers(), threads.Senders(),
                  priority, error, call)
    }

    /** The pointers in memory spell out the two lists. */
    ghost predicate Nodes()
      reads this`head, this`tail, this`freeHead, this`queue, this`free, next
    {
      && next.Length == data.Length
      && Chained(next[..], queue) && Chained(next[..], free)
      && head == First(queue) && tail == Last(queue) && freeHead == First(free)
      && Distinct(queue) && Distinct(free) && (forall n | n in free :: n !in queue)
    }

    /** A node filled by an ordinary send has a null link until it is appended. */
    ghost predicate Ends()
      reads this`call, next
    {
      forall t | t in call && call[t].Filled? && !call[t].urgent ::
        call[t].node < next.Length && next[call[t].node] == NULL
    }

    /** rt_mq_init; `tlist` are the list nodes of the threads. */
    constructor (msgSize: nat, data: array<Model.Bytes>, flag: Flag, priority: map<Thread, nat>,
                 tlist: map<Thread, IntrusiveList.Node>)
      requires forall n | 0 <= n < data.Length :: |data[n]| == msgSize
      requires forall t | t in tlist :: tlist[t].thread == t
      ensures fresh(next) && Nodes() && Ends() && threads.Valid() && threads.receivers.tlist == tlist
      ensures State() == Model.InitialState(msgSize, data[..], flag, priority)
      ensures this.data == data && fresh(threads.Objects())
    {
      hide WaitSides.Valid, WaitSides.Objects;
      this.msgSize, this.data, this.flag := msgSize, data, flag;
      next := new int[data.Length];
      head, tail, freeHead, entry := NULL, NULL, NULL, 0;
      threads := new WaitSides(tlist);
      this.priority := priority;
      error, call := Model.NoErrors(priority), Model.NoCalls(priority);
      queue, free := [], [];
      new;
      FillFree();
    }

    /** The loop of rt_mq_init. */
    method FillFree()
      requires Nodes() && queue == [] && free == [] && forall t | t in call :: call[t].Idle?
      modifies this`freeHead, this`free, next
      ensures Nodes() && Ends() && free == Model.InitialFree(data.Length)
    {
      for n := 0 to data.Length
        invariant Nodes() && free == Model.InitialFree(n)
      {
        PushFree(n);
      }
    }

    // ---- The list operations -------------------------------------------------------------------

    method PopFree() returns (n: Model.Node)
      requires Nodes() && free != []
      modifies this`freeHead, this`free
      ensures Nodes() && n == old(free)[0] && free == old(free)[1..]
    {
      n := freeHead;
      ChainTail(next[..], free);
      Model.HeadOff(free);
      freeHead := next[n];
      free := free[1..];
    }

    method PushFree(n: Model.Node)
      requires Nodes() && n < next.Length && n !in queue && n !in free
      modifies this`freeHead, this`free, next
      ensures Nodes() && free == [n] + old(free)
      ensures forall m: Model.Node | m < next.Length && m != n :: next[m] == old(next[m])
    {
      ChainFrame(next[..], queue, n, freeHead);
      ChainPush(next[..], free, n);
      Model.HeadOn(free, n);
      next[n] := freeHead;
      freeHead := n;
      free := [n] + free;
    }

    method PopQueue() returns (n: Model.Node)
      requires Nodes() && queue != []
      modifies this`head, this`tail, this`queue
      ensures Nodes() && n == old(queue)[0] && queue == old(queue)[1..]
    {
      n := head;
      ChainTail(next[..], queue);
      Model.HeadOff(queue);
      head := next[n];
      if tail == n {
        tail := NULL;
      }
      queue := queue[1..];
    }

    method Append(n: Model.Node)
      requires Nodes() && n < next.Length && n !in queue && n !in free && next[n] == NULL
      modifies this`head, this`tail, this`queue, next
      ensures Nodes() && queue == old(queue) + [n]
      ensures forall m: Model.Node | m < next.Length && m !in old(queue) :: next[m] == old(next[m])
    {
      ChainAppend(next[..], queue, n);
      Model.TailOn(queue, n);
      if tail != NULL {
        assert tail in queue && tail !in free;
        ChainFrame(next[..], free, tail, n);
        next[tail] := n;
      }
      tail := n;
      if head == NULL {
        head := n;
      }
      queue := queue + [n];
    }

    method Prepend(n: Model.Node)
      requires Nodes() && n < next.Length && n !in queue && n !in free
      modifies this`head, this`tail, this`queue, next
      ensures Nodes() && queue == [n] + old(queue)
      ensures forall m: Model.Node | m < next.Length && m != n :: next[m] == old(next[m])
    {
      ChainFrame(next[..], free, n, head);
      ChainPush(next[..], queue, n);
      Model.HeadOn(queue, n);
      next[n] := head;
      head := n;
      if tail == NULL {
        tail := n;
      }
      queue := [n] + queue;
    }

    // ---- Sending -------------------------------------------------------------------------------

    method Claim(t: Thread, msg: Model.Bytes, urgent: bool)
      requires Nodes() && Ends() && free != []
      modifies this`call, this`freeHead, this`free
      ensures Nodes() && Ends()
      ensures free == old(free)[1..] && call == old(call)[t := Model.Filling(old(free)[0], msg, urgent)]
    {
      var n := PopFree();
      call := call[t := Model.Filling(n, msg, urgent)];
    }

    lemma FreeHead()
      requires Nodes()
      ensures freeHead == NULL <==> free == []
    {
    }

    /** The body of the loop of rt_mq_send_wait when there is no free node. */
    method WaitForNode(t: Thread, msg: Model.Bytes, timeout: int, now: int) returns (r: Model.Outcome)
      requires Model.Typed(State()) && Model.Member(State(), t) && free == [] && Ends()
      requires threads.Valid() && threads.Suspendable(t)
      modifies this`error, this`call, threads.Objects(), threads.receivers.tlist[t]
      ensures Ends() && threads.Valid()
      ensures (State(), r) == Model.SendLoop(old(State()), t, msg, timeout, now)
      ensures threads.Objects() <= old(threads.Objects()) + {threads.receivers.tlist[t]}
    {
      hide WaitSides.Valid, WaitList.WaitList.Valid, WaitList.WaitList.Queue, WaitList.WaitList.Nodes;
      hide Enqueue;
      threads.RunSender(t);
      error := error[t := EOK];
      if timeout == 0 {
        call := call[t := Model.Idle];
        r := Model.Returned(EFULL);
      } else {
        threads.SuspendSender(t, priority, flag);
        call := call[t := Model.Sending(msg, timeout, if timeout > 0 then now else 0)];
        r := Model.Blocked;
      }
    }

    /** The part behind that loop, up to the copy. */
    method ClaimForSend(t: Thread, msg: Model.Bytes, ghost timeout: int, ghost now: int) returns (r: Model.Outcome)
      requires Model.Typed(State()) && Model.Member(State(), t) && free != [] && Nodes() && Ends()
      requires threads.Valid()
      modifies this`call, this`freeHead, this`free, threads
      ensures Nodes() && Ends() && threads.Valid() && threads.Objects() == old(threads.Objects())
      ensures (State(), r) == Model.SendLoop(old(State()), t, msg, timeout, now)
    {
      hide WaitSides.Valid, WaitList.WaitList.Valid, WaitList.WaitList.Queue, WaitList.WaitList.Nodes;
      hide Enqueue, Nodes, Ends;
      threads.RunSender(t);
      Claim(t, msg, false);
      r := Model.Working;
    }

    /** rt_mq_send_wait from the test of its loop to the next rt_schedule, or to the copy. */
    method SendLoop(t: Thread, msg: Model.Bytes, timeout: int, now: int) returns (r: Model.Outcome)
      requires Model.Typed(State()) && Model.Member(State(), t) && Nodes() && Ends()
      requires threads.Valid() && threads.Suspendable(t)
      modifies this, threads.Objects(), threads.receivers.tlist[t]
      ensures Nodes() && Ends() && threads.Valid()
      ensures (State(), r) == Model.SendLoop(old(State()), t, msg, timeout, now)
      ensures threads.Objects() <= old(threads.Objects()) + {threads.receivers.tlist[t]}
    {
      hide WaitSides.Valid, WaitList.WaitList.Valid, WaitList.WaitList.Queue, WaitList.WaitList.Nodes;
      hide Enqueue, Nodes, Ends;
      FreeHead();
      if freeHead == NULL {
        r := WaitForNode(t, msg, timeout, now);
      } else {
        r := ClaimForSend(t, msg, timeout, now);
      }
    }

    method SendCall(t: Thread, msg: Model.Bytes, timeout: int, now: int) returns (r: Model.Outcome)
      requires Model.Typed(State()) && Model.Member(State(), t) && Nodes() && Ends()
      requires threads.Valid() && threads.Suspendable(t)
      modifies this, threads.Objects(), threads.receivers.tlist[t]
      ensures Nodes() && Ends() && threads.Valid()
      ensures (State(), r) == Model.SendCall(old(State()), t, msg, timeout, now)
      ensures threads.Objects() <= old(threads.Objects()) + {threads.receivers.tlist[t]}
    {
      hide Chained, Distinct, Model.SendLoop;
      if |msg| > msgSize {
        r := Model.Returned(ERROR);
      } else if freeHead == NULL && timeout == 0 {
        r := Model.Returned(EFULL);
      } else {
        r := SendLoop(t, msg, timeout, now);
      }
    }

    method SendReturn(t: Thread, now: int) returns (r: Model.Outcome)
      requires Model.Typed(State()) && Model.Member(State(), t) && call[t].Sending? && Nodes() && Ends()
      requires threads.Valid() && threads.Suspendable(t)
      modifies this, threads.Objects(), threads.receivers.tlist[t]
      ensures Nodes() && Ends() && threads.Valid()
      ensures (State(), r) == Model.SendReturn(old(State()), t, now)
      ensures threads.Objects() <= old(threads.Objects()) + {threads.receivers.tlist[t]}
    {
      hide Chained, Distinct, Model.SendLoop;
      var c := call[t];
      if error[t] != EOK {
        call := call[t := Model.Idle];
        r := Model.Returned(error[t]);
      } else {
        r := SendLoop(t, c.msg, WaitTime.Remaining(c.timeout, c.start, now), now);
      }
    }

    /** rt_mq_urgent up to its copy. */
    method UrgentCall(t: Thread, msg: Model.Bytes) returns (r: Model.Outcome)
      requires Model.Typed(State()) && Model.Member(State(), t) && Nodes() && Ends()
      requires threads.Valid() && threads.Suspendable(t)
      modifies this, threads.Objects(), threads.receivers.tlist[t]
      ensures Nodes() && Ends() && threads.Valid()
      ensures (State(), r) == Model.UrgentCall(old(State()), t, msg)
      ensures threads.Objects() <= old(threads.Objects()) + {threads.receivers.tlist[t]}
    {
      hide Chained, Distinct;
      if |msg| > msgSize {
        r := Model.Returned(ERROR);
      } else if freeHead == NULL {
        r := Model.Returned(EFULL);
      } else {
        Claim(t, msg, true);
        r := Model.Working;
      }
    }

    /** With interrupts on: an ordinary send clears the link of its node, then the bytes are copied. */
    method CopyIn(t: Thread)
      requires Model.Typed(State()) && t in call && call[t].Filling? && Nodes() && Ends()
      requires Model.Partition(State())
      modifies this`call, next, data
      ensures Nodes() && Ends()
      ensures State() == Model.CopyIn(old(State()), t)
    {
      hide Chained, Distinct, Model.Partition, Nodes;
      var c := call[t];
      Model.OwnNode(State(), t);
      NodesFit();
      if !c.urgent {
        ClearLink(t);
      }
      data[c.node] := Model.Overlay(c.msg, data[c.node]);
      call := call[t := Model.Filled(c.node, c.msg, c.urgent)];
    }

    lemma NodesFit()
      requires Nodes()
      ensures next.Length == data.Length
    {
    }

    method ClearLink(t: Thread)
      requires t in call && call[t].Filling? && Nodes() && Ends()
      requires call[t].node < next.Length && call[t].node !in queue && call[t].node !in free
      modifies next
      ensures Nodes() && Ends() && next[call[t].node] == NULL
    {
      var n := call[t].node;
      ChainFrame(next[..], queue, n, NULL);
      ChainFrame(next[..], free, n, NULL);
      next[n] := NULL;
    }

    method PutInQueue(t: Thread)
      requires t in call && call[t].Filled? && Nodes() && Ends()
      requires Model.Partition(State())
      modifies this`call, this`head, this`tail, this`queue, next
      ensures Nodes() && Ends() && call == old(call[t := Model.Idle])
      ensures queue == old(if call[t].urgent then [call[t].node] + queue else queue + [call[t].node])
    {
      var c := call[t];
      Model.OwnNode(State(), t);
      Model.OtherNodes(State(), t);
      hide Chained, Distinct, Model.Partition, Model.Typed;
      hide Nodes;
      call := call[t := Model.Idle];
      if c.urgent {
        Prepend(c.node);
      } else {
        Append(c.node);
      }
    }

    /** The second critical section of rt_mq_send_wait and rt_mq_urgent. */
    method Link(t: Thread) returns (r: Model.Outcome)
      requires t in call && call[t].Filled? && Nodes() && Ends()
      requires Model.Partition(State()) && threads.Valid()
      modifies this, next, threads.Objects()
      ensures Nodes() && Ends() && threads.Valid()
      ensures (State(), r) == Model.Link(old(State()), t)
      ensures threads.Objects() <= old(threads.Objects())
    {
      hide WaitSides.Valid, WaitList.WaitList.Valid, WaitList.WaitList.Queue, WaitList.WaitList.Nodes;
      hide Chained, Distinct, Model.Partition, Model.Typed, Nodes, Ends;
      PutInQueue(t);
      if entry < Model.ENTRY_MAX {
        entry := entry + 1;
        threads.ResumeReceiver();
        r := Model.Returned(EOK);
      } else {
        r := Model.Returned(EFULL);
      }
    }

    // ---- Receiving -----------------------------------------------------------------------------

    method TakeHead(t: Thread, size: nat)
      requires Nodes() && Ends() && queue != [] && entry > 0
      modifies this`call, this`entry, this`head, this`tail, this`queue
      ensures Nodes() && Ends() && entry == old(entry) - 1
      ensures queue == old(queue)[1..] && call == old(call)[t := Model.Draining(old(queue)[0], size)]
    {
      var n := PopQueue();
      entry := entry - 1;
      call := call[t := Model.Draining(n, size)];
    }

    /** The body of the loop of rt_mq_recv when the queue is empty. */
    method WaitForMessage(t: Thread, size: nat, timeout: int, now: int) returns (r: Model.Outcome)
      requires Model.Typed(State()) && Model.Member(State(), t) && entry == 0 && Ends()
      requires threads.Valid() && threads.Suspendable(t)
      modifies this`error, this`call, threads.Objects(), threads.receivers.tlist[t]
      ensures Ends() && threads.Valid()
      ensures (State(), r) == Model.RecvLoop(old(State()), t, size, timeout, now)
      ensures threads.Objects() <= old(threads.Objects()) + {threads.receivers.tlist[t]}
    {
      hide WaitSides.Valid, WaitList.WaitList.Valid, WaitList.WaitList.Queue, WaitList.WaitList.Nodes;
      hide Enqueue;
      threads.RunReceiver(t);
      error := error[t := EOK];
      if timeout == 0 {
        error := error[t := ETIMEOUT];
        call := call[t := Model.Idle];
        r := Model.Returned(ETIMEOUT);
      } else {
        threads.SuspendReceiver(t, priority, flag);
        call := call[t := Model.Receiving(size, timeout, if timeout > 0 then now else 0)];
        r := Model.Blocked;
      }
    }

    /** The part behind that loop, up to the copy. */
    method TakeForRecv(t: Thread, size: nat, ghost timeout: int, ghost now: int) returns (r: Model.Outcome)
      requires Model.Typed(State()) && Model.Member(State(), t) && entry > 0 && Nodes() && Ends()
      requires threads.Valid()
      modifies this`call, this`entry, this`head, this`tail, this`queue, threads
      ensures Nodes() && Ends() && threads.Valid() && threads.Objects() == old(threads.Objects())
      ensures (State(), r) == Model.RecvLoop(old(State()), t, size, timeout, now)
    {
      hide WaitSides.Valid, WaitList.WaitList.Valid, WaitList.WaitList.Queue, WaitList.WaitList.Nodes;
      hide Enqueue, Nodes, Ends;
      threads.RunReceiver(t);
      TakeHead(t, size);
      r := Model.Working;
    }

    method RecvLoop(t: Thread, size: nat, timeout: int, now: int) returns (r: Model.Outcome)
      requires Model.Typed(State()) && Model.Member(State(), t) && Nodes() && Ends()
      requires threads.Valid() && threads.Suspendable(t)
      modifies this, threads.Objects(), threads.receivers.tlist[t]
      ensures Nodes() && Ends() && threads.Valid()
      ensures (State(), r) == Model.RecvLoop(old(State()), t, size, timeout, now)
      ensures threads.Objects() <= old(threads.Objects()) + {threads.receivers.tlist[t]}
    {
      hide WaitSides.Valid, WaitList.WaitList.Valid, WaitList.WaitList.Queue, WaitList.WaitList.Nodes;
      hide Enqueue, Nodes, Ends;
      if entry == 0 {
        r := WaitForMessage(t, size, timeout, now);
      } else {
        r := TakeForRecv(t, size, timeout, now);
      }
    }

    method RecvCall(t: Thread, size: nat, timeout: int, now: int) returns (r: Model.Outcome)
      requires Model.Typed(State()) && Model.Member(State(), t) && Nodes() && Ends()
      requires threads.Valid() && threads.Suspendable(t)
      modifies this, threads.Objects(), threads.receivers.tlist[t]
      ensures Nodes() && Ends() && threads.Valid()
      ensures (State(), r) == Model.RecvCall(old(State()), t, size, timeout, now)
      ensures threads.Objects() <= old(threads.Objects()) + {threads.receivers.tlist[t]}
    {
      hide Chained, Distinct, Model.RecvLoop;
      if entry == 0 && timeout == 0 {
        r := Model.Returned(ETIMEOUT);
      } else {
        r := RecvLoop(t, size, timeout, now);
      }
    }

    method RecvReturn(t: Thread, now: int) returns (r: Model.Outcome)
      requires Model.Typed(State()) && Model.Member(State(), t) && call[t].Receiving? && Nodes() && Ends()
      requires threads.Valid() && threads.Suspendable(t)
      modifies this, threads.Objects(), threads.receivers.tlist[t]
      ensures Nodes() && Ends() && threads.Valid()
      ensures (State(), r) == Model.RecvReturn(old(State()), t, now)
      ensures threads.Objects() <= old(threads.Objects()) + {threads.receivers.tlist[t]}
    {
      hide Chained, Distinct, Model.RecvLoop;
      var c := call[t];
      if error[t] != EOK {
        call := call[t := Model.Idle];
        r := Model.Returned(error[t]);
      } else {
        r := RecvLoop(t, c.size, WaitTime.Remaining(c.timeout, c.start, now), now);
      }
    }

    method CopyOut(t: Thread)
      requires Model.Typed(State()) && t in call && call[t].Draining? && Nodes() && Ends()
      modifies this`call
      ensures Nodes() && Ends()
      ensures State() == Model.CopyOut(old(State()), t)
    {
      var c := call[t];
      var bytes := data[c.node][..if c.size > msgSize then msgSize else c.size];
      call := call[t := Model.Drained(c.node, c.size, bytes)];
    }

    method PutInFree(t: Thread)
      requires t in call && call[t].Drained? && Nodes() && Ends()
      requires Model.Partition(State())
      modifies this`call, this`freeHead, this`free, next
      ensures Nodes() && Ends() && call == old(call[t := Model.Idle]) && free == old([call[t].node] + free)
    {
      var n := call[t].node;
      Model.OwnNode(State(), t);
      Model.OtherNodes(State(), t);
      hide Chained, Distinct, Model.Partition, Model.Typed;
      call := call[t := Model.Idle];
      PushFree(n);
    }

    /** The second critical section of rt_mq_recv. */
    method Unlink(t: Thread) returns (r: Model.Outcome)
      requires t in call && call[t].Drained? && Nodes() && Ends()
      requires Model.Partition(State()) && threads.Valid()
      modifies this, next, threads.Objects()
      ensures Nodes() && Ends() && threads.Valid()
      ensures (State(), r) == Model.Unlink(old(State()), t)
      ensures threads.Objects() <= old(threads.Objects())
    {
      hide WaitSides.Valid, WaitList.WaitList.Valid, WaitList.WaitList.Queue, WaitList.WaitList.Nodes;
      hide Chained, Distinct, Model.Partition, Model.Typed, Nodes, Ends;
      r := Model.Received(call[t].copy);
      PutInFree(t);
      threads.ResumeSender();
    }

    // ---- Timeout and reset -----------------------------------------------------------------------

    /** rt_thread_timeout */
    method Timeout(t: Thread)
      requires Nodes() && Ends()
      requires threads.Valid() && (t in threads.receivers.Queue() || t in threads.senders.Queue())
      modifies this`error, threads.Objects()
      ensures Nodes() && Ends() && threads.Valid()
      ensures State() == Model.Timeout(old(State()), t)
      ensures threads.Objects() <= old(threads.Objects())
    {
      hide WaitSides.Valid, WaitList.WaitList.Valid, WaitList.WaitList.Queue, WaitList.WaitList.Nodes;
      hide Nodes, Ends, Without;
      error := error[t := ETIMEOUT];
      threads.Timeout(t);
    }

    method Reset()
      requires Nodes() && Ends() && (forall t | t in call && Model.Busy(call[t]) :: call[t].node !in queue)
      requires threads.Valid()
      modifies this, next, threads.Objects()
      ensures Nodes() && Ends() && threads.Valid()
      ensures State() == Model.Reset(old(State()))
      ensures threads.Objects() <= old(threads.Objects())
    {
      hide WaitSides.Valid, WaitList.WaitList.Valid, WaitList.WaitList.Queue, WaitList.WaitList.Nodes;
      hide FailAll, Nodes, Ends, Model.PushAll;
      error := threads.ResumeAll(error);
      FreeQueue();
      entry := 0;
    }

    /** The loop of rt_mq_control that releases the messages in the queue. */
    method FreeQueue()
      requires Nodes() && Ends()
      requires forall t | t in call && Model.Busy(call[t]) :: call[t].node !in queue
      modifies this`head, this`tail, this`freeHead, this`queue, this`free, next
      ensures Nodes() && Ends() && queue == [] && free == old(Model.PushAll(free, queue))
    {
      while head != NULL
        invariant Nodes() && Ends()
        invariant Model.PushAll(free, queue) == old(Model.PushAll(free, queue))
        invariant forall t | t in call && Model.Busy(call[t]) :: call[t].node !in queue
        decreases |queue|
      {
        var n := PopQueue();
        PushFree(n);
      }
    }
  }
}
