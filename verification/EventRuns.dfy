/** The event object over whole runs: no suspended thread's request is ever satisfied by the flags, and
    every receive that returns RT_EOK returns what was asked for. */
module EventRuns {
  import opened WaitQueue
  import opened EventModel

  /** `request[t]` is the `set` argument of t's latest receive; the other maps are thread fields. */
  datatype State = State(
    threads: set<Thread>,
    flags: Bits,
    flag: Flag,
    waiters: seq<Thread>,
    want: map<Thread, Bits>,
    info: map<Thread, bv8>,
    priority: map<Thread, nat>,
    error: map<Thread, Code>,
    phase: map<Thread, Phase>,
    request: map<Thread, Bits>)

  datatype Outcome = Returned(code: Code) | Received(bits: Bits) | Blocked

  /** The maps cover all threads. */
  ghost predicate Typed(s: State) {
    && (forall t | t in s.threads ::
          t in s.want && t in s.info && t in s.priority && t in s.error && t in s.phase && t in s.request)
    && forall t | t in s.waiters :: t in s.threads
  }

  // ---- Steps ---------------------------------------------------------------------------

  function Mark<T>(m: map<Thread, T>, ts: seq<Thread>, v: T): (r: map<Thread, T>)
    ensures r.Keys == m.Keys
    ensures forall t | t in m :: r[t] == if t in ts then v else m[t]
  {
    map t | t in m :: if t in ts then v else m[t]
  }

  /** The state after a walk `r`. */
  function After(s: State, r: Walk): State {
    s.(flags := r.flags, waiters := r.waiters, want := r.want, phase := Mark(s.phase, r.woken, Woken))
  }

  /** The state of a thread that starts to wait. */
  function Asleep(s: State, t: Thread, bits: Bits, option: bv8, timed: bool): State
    requires Typed(s) && t in s.threads
  {
    s.(want := s.want[t := bits], info := s.info[t := option], error := s.error[t := EOK],
       request := s.request[t := bits],
       waiters := Enqueue(s.waiters, s.priority, s.flag, t), phase := s.phase[t := Waiting(timed)])
  }

  function Send(s: State, bits: Bits): (State, Outcome)
    requires Typed(s)
  {
    if !SomeBit(bits) then (s, Returned(ERROR))
    else
      var r := Wake(s.waiters, Union(s.flags, bits), s.want, s.info);
      (After(s, r), Returned(if r.stopped then EINVAL else EOK))
  }

  function Recv(s: State, t: Thread, bits: Bits, option: bv8, timeout: int): (State, Outcome)
    requires Typed(s) && t in s.threads && HasMode(option)
  {
    if !SomeBit(bits) then (s, Returned(ERROR))
    else if Met(s.flags, bits, option) then
      (s.(flags := Cleared(s.flags, bits, option), want := s.want[t := Meet(s.flags, bits)],
          info := s.info[t := option],
          error := s.error[t := EOK], request := s.request[t := bits]),
       Received(Meet(s.flags, bits)))
    else if timeout == 0 then
      (s.(error := s.error[t := ETIMEOUT], request := s.request[t := bits]), Returned(ETIMEOUT))
    else
      (Asleep(s, t, bits, option, timeout > 0), Blocked)
  }

  /** The part of rt_event_recv after rt_schedule. */
  function Leave(s: State, t: Thread): (State, Outcome)
    requires Typed(s) && t in s.threads
  {
    (s.(phase := s.phase[t := Ready]), if s.error[t] != EOK then Returned(s.error[t]) else Received(s.want[t]))
  }

  function Expire(s: State, t: Thread): State
    requires Typed(s) && t in s.threads
  {
    s.(error := s.error[t := ETIMEOUT], waiters := Without(s.waiters, t), phase := s.phase[t := Woken])
  }

  /** rt_event_control with the reset command. */
  function Reset(s: State): State {
    s.(flags := 0, waiters := [], error := Mark(s.error, s.waiters, ERROR), phase := Mark(s.phase, s.waiters, Woken))
  }

  // ---- Invariant -----------------------------------------------------------------------

  ghost predicate Queued(s: State) {
    && Distinct(s.waiters)
    && (forall t | t in s.threads && t in s.phase :: s.phase[t].Waiting? <==> t in s.waiters)
    && (forall t | t in s.waiters && t in s.error :: s.error[t] == EOK)
  }

  /** Every suspended request names a mode and some bit, is as it was made, and is not satisfied. */
  ghost predicate Quiet(s: State) {
    forall t | t in s.waiters && t in s.want && t in s.info && t in s.request ::
      && HasMode(s.info[t]) && SomeBit(s.want[t]) && s.want[t] == s.request[t]
      && !Met(s.flags, s.want[t], s.info[t])
  }

  /** `got` answers a request for `bits`: some of them, and all of them in AND mode. */
  ghost predicate Answers(got: Bits, bits: Bits, option: bv8) {
    SomeBit(got) && Subset(got, bits) && (ByAnd(option) ==> got == bits)
  }

  ghost predicate Answered(s: State) {
    forall t | t in s.threads && t in s.phase && t in s.error && s.phase[t] == Woken && s.error[t] == EOK ::
      t in s.want && t in s.info && t in s.request && Answers(s.want[t], s.request[t], s.info[t])
  }

  ghost predicate Inv(s: State) {
    Typed(s) && Queued(s) && Quiet(s) && Answered(s)
  }

  lemma InvTyped(s: State)
    requires Inv(s)
    ensures Typed(s)
  {
  }

  lemma InvWalkable(s: State)
    requires Inv(s)
    ensures Walkable(s.waiters, s.want, s.info)
  {
  }

  /** What a send does to the list and to the requests, without the walk. */
  ghost predicate Sent(s: State, r: Walk)
    requires Typed(s)
  {
    && r.want.Keys == s.want.Keys && !r.stopped && Distinct(r.waiters)
    && (forall x :: x in s.waiters <==> x in r.waiters || x in r.woken)
    && (forall x :: !(x in r.waiters && x in r.woken))
    && (forall x | x in s.want && x !in r.woken :: r.want[x] == s.want[x])
    && (forall x | x in r.waiters :: x in s.want && x in s.info && !Met(r.flags, s.want[x], s.info[x]))
    && (forall x | x in r.woken :: x in r.want && Answers(r.want[x], s.want[x], s.info[x]))
  }

  lemma WakeSent(s: State, flags: Bits)
    requires Inv(s)
    ensures Sent(s, Wake(s.waiters, flags, s.want, s.info))
  {
    InvWalkable(s);
    var r := Wake(s.waiters, flags, s.want, s.info);
    WakeSplits(s.waiters, flags, s.want, s.info);
    WakeComplete(s.waiters, flags, s.want, s.info);
    forall x | x in r.woken
      ensures x in r.want && x in s.waiters && Answers(r.want[x], s.want[x], s.info[x])
    {
      WakeDelivers(s.waiters, flags, s.want, s.info, x);
      assert x in s.waiters;
    }
  }

  lemma AfterQueued(s: State, r: Walk)
    requires Typed(s) && Queued(s) && Sent(s, r)
    ensures Typed(After(s, r)) && Queued(After(s, r))
  {
    hide Distinct, Met, Answers;
  }

  lemma AfterQuiet(s: State, r: Walk)
    requires Typed(s) && Quiet(s) && Sent(s, r)
    ensures Quiet(After(s, r))
  {
    hide Distinct, Met, Answers, HasMode, SomeBit;
  }

  lemma AfterAnswered(s: State, r: Walk)
    requires Typed(s) && Queued(s) && Quiet(s) && Answered(s) && Sent(s, r)
    ensures Answered(After(s, r))
  {
    hide Distinct, Met, Answers, HasMode, SomeBit;
  }

  lemma SendKeeps(s: State, bits: Bits)
    requires Inv(s)
    ensures Inv(Send(s, bits).0)
    ensures Send(s, bits).1 == Returned(if SomeBit(bits) then EOK else ERROR)
  {
    if SomeBit(bits) {
      var r := Wake(s.waiters, Union(s.flags, bits), s.want, s.info);
      WakeSent(s, Union(s.flags, bits));
      AfterQueued(s, r);
      AfterQuiet(s, r);
      AfterAnswered(s, r);
    }
    hide Wake, Typed, Queued, Quiet, Answered, SomeBit, Union;
  }

  lemma QuietShrinks(flags: Bits, less: Bits, want: Bits, option: bv8)
    requires Subset(less, flags) && !Met(flags, want, option)
    ensures !Met(less, want, option)
  {
    hide Met, Subset;
    if Met(less, want, option) {
      MetNeedsBits(less, flags, want, option);
    }
  }

  lemma FlagsShrink(s: State, t: Thread, bits: Bits, option: bv8, timeout: int)
    requires Typed(s) && t in s.threads && HasMode(option)
    ensures Subset(Recv(s, t, bits, option, timeout).0.flags, s.flags)
  {
    ClearedShrinks(s.flags, bits, option);
    assert Subset(s.flags, s.flags);
    hide Cleared, Met, HasMode, Subset;
  }

  /** Only fields of the running thread t changed, and the flags at most shrank. */
  ghost predicate Apart(s: State, r: State, t: Thread)
    requires Typed(s)
  {
    && Typed(r) && r.threads == s.threads && r.waiters == s.waiters && r.phase == s.phase
    && Subset(r.flags, s.flags)
    && forall x | x in s.threads && x != t ::
         && r.want[x] == s.want[x] && r.info[x] == s.info[x]
         && r.error[x] == s.error[x] && r.request[x] == s.request[x]
  }

  lemma ApartKeeps(s: State, r: State, t: Thread)
    requires Inv(s) && t in s.threads && s.phase[t] == Ready && Apart(s, r, t)
    ensures Inv(r)
  {
    hide Met, HasMode, SomeBit, Subset, Distinct, Answers;
    forall x | x in r.waiters ensures !Met(r.flags, r.want[x], r.info[x]) {
      QuietShrinks(s.flags, r.flags, s.want[x], s.info[x]);
    }
  }

  lemma RecvNowApart(s: State, t: Thread, bits: Bits, option: bv8, timeout: int)
    requires Typed(s) && t in s.threads && HasMode(option)
    requires Recv(s, t, bits, option, timeout).1 != Blocked
    ensures Apart(s, Recv(s, t, bits, option, timeout).0, t)
  {
    hide Met, HasMode, SomeBit, Subset, Meet, Cleared, Asleep;
    FlagsShrink(s, t, bits, option, timeout);
  }

  /** A receive that succeeds at once, or fails at once, disturbs nobody. */
  lemma RecvNowKeeps(s: State, t: Thread, bits: Bits, option: bv8, timeout: int)
    requires Inv(s) && t in s.threads && s.phase[t] == Ready && HasMode(option)
    requires Recv(s, t, bits, option, timeout).1 != Blocked
    ensures Inv(Recv(s, t, bits, option, timeout).0)
  {
    hide Inv, Recv, Apart, HasMode;
    assert Typed(s) by { InvTyped(s); }
    RecvNowApart(s, t, bits, option, timeout);
    ApartKeeps(s, Recv(s, t, bits, option, timeout).0, t);
  }

  lemma AsleepQueued(s: State, t: Thread, bits: Bits, option: bv8, timed: bool)
    requires Typed(s) && Queued(s) && t in s.threads && s.phase[t] == Ready
    ensures var r := Asleep(s, t, bits, option, timed);
      Typed(r) && Queued(r) && forall x :: x in r.waiters <==> x == t || x in s.waiters
  {
    EnqueueOrder(s.waiters, s.priority, s.flag, t);
    hide Enqueue, Distinct, Sorted;
  }

  lemma AsleepQuiet(s: State, t: Thread, bits: Bits, option: bv8, timed: bool)
    requires Inv(s) && t in s.threads && s.phase[t] == Ready
    requires SomeBit(bits) && HasMode(option) && !Met(s.flags, bits, option)
    ensures Quiet(Asleep(s, t, bits, option, timed)) && Answered(Asleep(s, t, bits, option, timed))
  {
    AsleepQueued(s, t, bits, option, timed);
    hide Enqueue, Distinct, Sorted, Met, HasMode, SomeBit, Answers;
  }

  lemma RecvWaitKeeps(s: State, t: Thread, bits: Bits, option: bv8, timeout: int)
    requires Inv(s) && t in s.threads && s.phase[t] == Ready && HasMode(option)
    requires Recv(s, t, bits, option, timeout).1 == Blocked
    ensures Inv(Recv(s, t, bits, option, timeout).0)
  {
    AsleepQueued(s, t, bits, option, timeout > 0);
    AsleepQuiet(s, t, bits, option, timeout > 0);
    hide Queued, Quiet, Answered, Met, HasMode, SomeBit, Enqueue;
  }

  lemma RecvKeeps(s: State, t: Thread, bits: Bits, option: bv8, timeout: int)
    requires Inv(s) && t in s.threads && s.phase[t] == Ready && HasMode(option)
    ensures Inv(Recv(s, t, bits, option, timeout).0)
  {
    if Recv(s, t, bits, option, timeout).1 == Blocked {
      RecvWaitKeeps(s, t, bits, option, timeout);
    } else {
      RecvNowKeeps(s, t, bits, option, timeout);
    }
  }

  /** A receive that returns with bits returns an answer to its request, on either path. */
  lemma RecvAnswers(s: State, t: Thread, bits: Bits, option: bv8, timeout: int)
    requires Inv(s) && t in s.threads && s.phase[t] == Ready && HasMode(option)
    ensures var o := Recv(s, t, bits, option, timeout).1;
      o.Received? ==> Answers(o.bits, bits, option) && o.bits == Delivered(s.flags, bits, option)
  {
    if Met(s.flags, bits, option) {
      PathsAgree(s.flags, bits, option);
    }
    hide Met, Delivered, HasMode, SomeBit, Subset, Cleared, ByAnd, Inv, Meet;
  }

  lemma LeaveKeeps(s: State, t: Thread)
    requires Inv(s) && t in s.threads && s.phase[t] == Woken
    ensures Inv(Leave(s, t).0)
    ensures match Leave(s, t).1
            case Received(got) => Answers(got, s.request[t], s.info[t])
            case Returned(code) => code == s.error[t] != EOK
            case Blocked => false
  {
    hide Met, HasMode, SomeBit, Distinct, Answers;
  }

  lemma ExpireKeeps(s: State, t: Thread)
    requires Inv(s) && t in s.threads && s.phase[t] == Waiting(true)
    ensures Inv(Expire(s, t))
  {
    WithoutMembers(s.waiters, t);
    hide Met, HasMode, SomeBit, Distinct, Without, Answers;
  }

  lemma ResetKeeps(s: State)
    requires Inv(s)
    ensures Inv(Reset(s)) && Reset(s).waiters == [] && Reset(s).flags == 0
  {
    hide Met, HasMode, SomeBit, Answers;
  }

  // ---- Runs ------------------------------------------------------------------------------

  datatype Event =
    | SendCall(bits: Bits)
    | RecvCall(t: Thread, bits: Bits, option: bv8, timeout: int)
    | RecvReturn(t: Thread)
    | Timeout(t: Thread)
    | ResetCall

  ghost predicate Next(s: State, e: Event, r: State) {
    && Typed(s)
    && match e
       case SendCall(bits) => r == Send(s, bits).0
       case RecvCall(t, bits, option, timeout) =>
         t in s.threads && s.phase[t] == Ready && HasMode(option) && r == Recv(s, t, bits, option, timeout).0
       case RecvReturn(t) => t in s.threads && s.phase[t] == Woken && r == Leave(s, t).0
       case Timeout(t) => t in s.threads && s.phase[t] == Waiting(true) && r == Expire(s, t)
       case ResetCall => r == Reset(s)
  }

  ghost predicate Run(states: seq<State>, events: seq<Event>) {
    && |states| == |events| + 1
    && forall n: nat | n < |events| :: Next(states[n], events[n], states[n + 1])
  }

  function Initial(flag: Flag, priority: map<Thread, nat>): State {
    State(priority.Keys, 0, flag, [], map t | t in priority :: 0, map t | t in priority :: OR, priority,
          map t | t in priority :: EOK, map t | t in priority :: Ready, map t | t in priority :: 0)
  }

  lemma NextKeeps(s: State, e: Event, r: State)
    requires Inv(s) && Next(s, e, r)
    ensures Inv(r)
  {
    match e
    case SendCall(bits) => SendKeeps(s, bits);
    case RecvCall(t, bits, option, timeout) => RecvKeeps(s, t, bits, option, timeout);
    case RecvReturn(t) => LeaveKeeps(s, t);
    case Timeout(t) => ExpireKeeps(s, t);
    case ResetCall => ResetKeeps(s);
  }

  /** After every step of every run, no suspended thread's request is met by the flags. */
  lemma {:induction false} RunQuiet(states: seq<State>, events: seq<Event>, flag: Flag, priority: map<Thread, nat>,
                                    n: nat)
    requires Run(states, events) && states[0] == Initial(flag, priority) && n < |states|
    ensures Inv(states[n])
    ensures forall t | t in states[n].threads && t in states[n].phase && states[n].phase[t].Waiting? ::
              t in states[n].want && t in states[n].info && !Met(states[n].flags, states[n].want[t], states[n].info[t])
  {
    hide Met;
    if n > 0 {
      RunQuiet(states, events, flag, priority, n - 1);
      NextKeeps(states[n - 1], events[n - 1], states[n]);
    }
    hide Next, HasMode, SomeBit, Distinct, Answers;
    var s := states[n];
    assert forall t | t in s.threads && t in s.phase && s.phase[t].Waiting? :: t in s.waiters;
  }
}
