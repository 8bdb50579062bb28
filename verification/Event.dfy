/** rt_event_send, rt_event_recv and rt_event_control on the fields of struct rt_event and of the threads;
    the waiting threads are on a circular list.

    Each method is one interrupts-disabled region; its effect is the matching step of EventRuns. */
module Event {
  import opened WaitQueue
  import opened WaitList
  import opened EventModel
  import IntrusiveList
  import Model = EventRuns

  class Event {
    const threads: set<Thread>
    const flag: Flag
    const priority: map<Thread, nat>
    /** event->set */
    var flags: Bits
    /** parent.suspend_thread */
    const suspended: WaitList

    // Fields of the threads, and the argument of their pending receive.
    var eventSet: map<Thread, Bits>
    var eventInfo: map<Thread, bv8>
    var error: map<Thread, Code>
    var phase: map<Thread, Phase>
    ghost var request: map<Thread, Bits>

    ghost function State(): Model.State
      reads this, suspended
    {
      Model.State(threads, flags, flag, suspended.Queue(), eventSet, eventInfo, priority, error, phase, request)
    }

    /** rt_event_init, with all threads ready; `tlist` are their list nodes. */
    constructor (flag: Flag, priority: map<Thread, nat>, tlist: map<Thread, IntrusiveList.Node>)
      requires forall t | t in tlist :: tlist[t].thread == t
      ensures suspended.Valid() && suspended.tlist == tlist && State() == Model.Initial(flag, priority)
      ensures fresh(suspended) && fresh(suspended.Nodes())
    {
      threads := priority.Keys;
      this.flag, this.priority := flag, priority;
      flags := 0;
      suspended := new WaitList(tlist);
      eventSet := map t | t in priority :: 0;
      eventInfo := map t | t in priority :: OR;
      error := map t | t in priority :: EOK;
      phase := map t | t in priority :: Ready;
      request := map t | t in priority :: 0;
    }

    /** The test of one waiter, who gets the bits and takes them if it asked for that; `kept`, `rest` and
        `woken` say how far the walk is. */
    method Test(t: Thread, ghost kept: seq<Thread>, ghost rest: seq<Thread>, woken: seq<Thread>)
      returns (met: bool, granted: seq<Thread>)
      requires Covered(rest, eventSet, eventInfo) && rest != [] && rest[0] == t && HasMode(eventInfo[t])
      modifies this`flags, this`eventSet
      ensures Covered(rest[1..], eventSet, eventInfo)
      ensures Behind(kept, woken, Wake(rest, old(flags), old(eventSet), eventInfo)) ==
        Behind(if met then kept else kept + [t], granted, Wake(rest[1..], flags, eventSet, eventInfo))
    {
      hide Met, Delivered, Cleared, HasMode;
      WakeUnfold(kept, woken, rest, flags, eventSet, eventInfo);
      hide Wake, Behind, Covered;
      met, granted := Met(flags, eventSet[t], eventInfo[t]), woken;
      if met {
        var d := Delivered(flags, eventSet[t], eventInfo[t]);
        eventSet := eventSet[t := d];
        flags := Cleared(flags, d, eventInfo[t]);
        granted := woken + [t];
      }
    }

    /** The loop of rt_event_send: `kept` are the threads in front of the cursor n and `rest` those from it
        on; the cursor moves on before its thread is resumed. */
    method WalkList() returns (ok: bool, woken: seq<Thread>)
      requires Covered(suspended.Queue(), eventSet, eventInfo) && suspended.Valid()
      modifies this`flags, this`eventSet, suspended, suspended.Nodes()
      ensures suspended.Valid() && suspended.Nodes() <= old(suspended.Nodes())
      ensures var r := Wake(old(suspended.Queue()), old(flags), old(eventSet), eventInfo);
        && flags == r.flags && suspended.Queue() == r.waiters && eventSet == r.want
        && woken == r.woken && ok == !r.stopped
    {
      hide WaitList.Valid, WaitList.Queue, WaitList.Nodes, WaitList.Cursor, HasMode, Covered;
      ghost var all := Wake(suspended.Queue(), flags, eventSet, eventInfo);
      ghost var kept, rest := [], suspended.Queue();
      woken := [];
      assert Behind([], [], all) == all;
      var n := suspended.Begin();
      suspended.CursorAt(n, kept, rest);
      while n != suspended.list
        invariant suspended.Cursor(n, kept, rest) && suspended.Nodes() <= old(suspended.Nodes())
        invariant suspended.Valid() && suspended.Queue() == kept + rest
        invariant n == suspended.list <==> rest == []
        invariant rest != [] ==> n.thread == rest[0]
        invariant Covered(rest, eventSet, eventInfo)
        invariant all == Behind(kept, woken, Wake(rest, flags, eventSet, eventInfo))
        decreases |rest|
      {
        CoveredHead(rest, eventSet, eventInfo);
        if !HasMode(eventInfo[n.thread]) {
          return false, woken;
        }
        hide Wake, Behind;
        var t, met := n.thread, false;
        met, woken := Test(t, kept, rest, woken);
        n := suspended.Pass(n, kept, rest, met);
        kept, rest := if met then kept else kept + [t], rest[1..];
        suspended.CursorAt(n, kept, rest);
      }
      ok := true;
    }

    method Send(bits: Bits) returns (r: Model.Outcome)
      requires Model.Typed(State()) && suspended.Valid()
      modifies this`flags, this`eventSet, this`phase, suspended, suspended.Nodes()
      ensures suspended.Valid() && (State(), r) == Model.Send(old(State()), bits)
      ensures suspended.Nodes() <= old(suspended.Nodes())
    {
      hide WaitList.Valid, WaitList.Queue, WaitList.Nodes;
      if !SomeBit(bits) {
        return Model.Returned(ERROR);
      }
      flags := Union(flags, bits);
      assert Covered(suspended.Queue(), eventSet, eventInfo);
      var ok, woken := WalkList();
      phase := Model.Mark(phase, woken, Woken);
      r := Model.Returned(if ok then EOK else EINVAL);
    }

    method Recv(t: Thread, bits: Bits, option: bv8, timeout: int) returns (r: Model.Outcome)
      requires Model.Typed(State()) && t in threads && HasMode(option) && phase[t] == Ready
      requires suspended.Valid() && t in suspended.tlist && t !in suspended.Queue()
      modifies this`flags, this`eventSet, this`eventInfo, this`error, this`phase, this`request
      modifies suspended, suspended.Nodes(), suspended.tlist[t]
      ensures suspended.Valid() && (State(), r) == Model.Recv(old(State()), t, bits, option, timeout)
      ensures suspended.Nodes() <= old(suspended.Nodes()) + {suspended.tlist[t]}
    {
      hide Met, HasMode, SomeBit, Meet, Cleared, Enqueue, WaitList.Valid, WaitList.Queue, WaitList.Nodes;
      if !SomeBit(bits) {
        return Model.Returned(ERROR);
      }
      request := request[t := bits];
      if Met(flags, bits, option) {
        error := error[t := EOK];
        r := Model.Received(Meet(flags, bits));
        eventSet := eventSet[t := Meet(flags, bits)];
        eventInfo := eventInfo[t := option];
        flags := Cleared(flags, bits, option);
      } else if timeout == 0 {
        error := error[t := ETIMEOUT];
        r := Model.Returned(ETIMEOUT);
      } else {
        error := error[t := EOK];
        eventSet := eventSet[t := bits];
        eventInfo := eventInfo[t := option];
        suspended.Suspend(t, priority, flag);
        phase := phase[t := Waiting(timeout > 0)];
        r := Model.Blocked;
      }
    }

    /** The part of rt_event_recv after rt_schedule. */
    method Leave(t: Thread) returns (r: Model.Outcome)
      requires Model.Typed(State()) && t in threads && phase[t] == Woken
      modifies this`phase
      ensures (State(), r) == Model.Leave(old(State()), t)
    {
      phase := phase[t := Ready];
      r := if error[t] != EOK then Model.Returned(error[t]) else Model.Received(eventSet[t]);
    }

    /** rt_thread_timeout for a thread suspended on this event. */
    method Timeout(t: Thread)
      requires Model.Typed(State()) && suspended.Valid() && t in suspended.Queue()
      modifies this`error, this`phase, suspended, suspended.Nodes()
      ensures suspended.Valid() && State() == Model.Expire(old(State()), t)
      ensures suspended.Nodes() <= old(suspended.Nodes())
    {
      hide Without, WaitList.Valid, WaitList.Queue, WaitList.Nodes;
      error := error[t := ETIMEOUT];
      suspended.Leave(t);
      phase := phase[t := Woken];
    }

    /** rt_event_control(RT_IPC_CMD_RESET) */
    method Reset()
      requires Model.Typed(State()) && suspended.Valid()
      modifies this`flags, this`error, this`phase, suspended, suspended.Nodes()
      ensures suspended.Valid() && State() == Model.Reset(old(State()))
      ensures suspended.Nodes() <= old(suspended.Nodes())
    {
      hide WaitList.Valid, WaitList.Queue, WaitList.Nodes;
      FailAllCodes(error, suspended.Queue());
      WakeAllPhases(phase, suspended.Queue());
      error, phase := suspended.ResumeAll(error, phase);
      flags := 0;
    }
  }
}
