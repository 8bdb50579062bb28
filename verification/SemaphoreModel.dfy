/** The counting semaphore as a step system: a release hands its unit straight to a waiter. */
module SemaphoreModel {
  import opened WaitQueue

  const VALUE_MAX := 0xFFFF

  datatype Outcome = Returned(code: Code) | Blocked

  datatype State = State(
    value: nat,
    flag: Flag,
    waiters: seq<Thread>,
    priority: map<Thread, nat>,
    error: map<Thread, Code>,
    phase: map<Thread, Phase>)

  ghost predicate Member(s: State, t: Thread) {
    t in s.priority && t in s.error && t in s.phase
  }

  ghost predicate Typed(s: State) {
    forall t | t in s.waiters :: Member(s, t)
  }

  // ---- Steps -----------------------------------------------------------------------------------

  /** rt_sem_take up to its return or to rt_schedule. */
  function Take(s: State, t: Thread, time: int): (State, Outcome)
    requires Typed(s) && Member(s, t)
  {
    if s.value > 0 then (s.(value := s.value - 1), Returned(EOK))
    else if time == 0 then (s, Returned(ETIMEOUT))
    else
      (s.(error := s.error[t := EOK], waiters := Enqueue(s.waiters, s.priority, s.flag, t),
          phase := s.phase[t := Waiting(time > 0)]), Blocked)
  }

  /** The part of rt_sem_take after rt_schedule. */
  function Leave(s: State, t: Thread): (State, Outcome)
    requires Member(s, t)
  {
    (s.(phase := s.phase[t := Ready]), Returned(s.error[t]))
  }

  function Release(s: State): (State, Outcome) {
    if s.waiters != [] then
      (s.(waiters := s.waiters[1..], phase := s.phase[s.waiters[0] := Woken]), Returned(EOK))
    else if s.value < VALUE_MAX then (s.(value := s.value + 1), Returned(EOK))
    else (s, Returned(EFULL))
  }

  /** rt_thread_timeout */
  function Expire(s: State, t: Thread): State {
    s.(error := s.error[t := ETIMEOUT], waiters := Without(s.waiters, t), phase := s.phase[t := Woken])
  }

  /** Every waiter is woken with an error code, and the value is set. */
  function Reset(s: State, value: nat): State {
    s.(value := value % 0x1_0000, error := FailAll(s.error, s.waiters), waiters := [],
       phase := map t | t in s.phase :: if t in s.waiters then Woken else s.phase[t])
  }

  // ---- The invariant ---------------------------------------------------------------------------

  /** The list holds exactly the waiting threads, with a clean error code. */
  ghost predicate PlacedAt(s: State, t: Thread) {
    && (t in s.waiters <==> Member(s, t) && s.phase[t].Waiting?)
    && (t in s.waiters ==> s.error[t] == EOK)
  }

  ghost predicate Inv(s: State) {
    && Typed(s) && s.value <= VALUE_MAX
    && (s.waiters != [] ==> s.value == 0)
    && Distinct(s.waiters) && (s.flag == PRIO ==> Sorted(s.waiters, s.priority))
    && forall t: Thread :: PlacedAt(s, t)
  }

  lemma TakeKeeps(s: State, t: Thread, time: int)
    requires Inv(s) && Member(s, t) && s.phase[t] == Ready
    ensures Inv(Take(s, t, time).0)
  {
    hide Enqueue, Sorted, Distinct;
    assert PlacedAt(s, t);
    EnqueueOrder(s.waiters, s.priority, s.flag, t);
    var r := Take(s, t, time).0;
    forall x: Thread ensures PlacedAt(r, x) {
      assert PlacedAt(s, x);
    }
  }

  lemma LeaveKeeps(s: State, t: Thread)
    requires Inv(s) && Member(s, t) && s.phase[t] == Woken
    ensures Inv(Leave(s, t).0)
  {
    hide Sorted, Distinct;
    forall x: Thread ensures PlacedAt(Leave(s, t).0, x) {
      assert PlacedAt(s, x);
    }
  }

  lemma HeadLeaves(q: seq<Thread>, priority: map<Thread, nat>)
    requires q != [] && Distinct(q)
    ensures Distinct(q[1..]) && forall x :: x in q[1..] <==> x in q && x != q[0]
    ensures Sorted(q, priority) ==> Sorted(q[1..], priority)
  {
    assert q == [q[0]] + q[1..];
    assert forall i | 0 <= i < |q[1..]| :: q[1..][i] == q[i + 1];
  }

  lemma ReleaseKeeps(s: State)
    requires Inv(s)
    ensures Inv(Release(s).0)
  {
    hide Sorted, Distinct;
    if s.waiters != [] {
      HeadLeaves(s.waiters, s.priority);
      assert PlacedAt(s, s.waiters[0]);
    }
    var r := Release(s).0;
    forall x: Thread ensures PlacedAt(r, x) {
      assert PlacedAt(s, x);
    }
  }

  lemma ExpireKeeps(s: State, t: Thread)
    requires Inv(s) && t in s.waiters
    ensures Inv(Expire(s, t))
  {
    hide Sorted, Distinct, Without;
    WithoutMembers(s.waiters, t);
    if s.flag == PRIO {
      WithoutSorted(s.waiters, t, s.priority);
    }
    var r := Expire(s, t);
    forall x: Thread ensures PlacedAt(r, x) {
      assert PlacedAt(s, x);
    }
  }

  lemma ResetKeeps(s: State, value: nat)
    requires Inv(s)
    ensures Inv(Reset(s, value))
  {
    hide FailAll;
    FailAllCodes(s.error, s.waiters);
    var r := Reset(s, value);
    forall x: Thread ensures PlacedAt(r, x) {
      assert PlacedAt(s, x);
    }
  }

  // ---- Whole runs ------------------------------------------------------------------------------

  datatype Event =
    | TakeCall(t: Thread, time: int) | TakeReturn(t: Thread) | ReleaseCall | Timeout(t: Thread) | ResetCall(value: nat)

  /** `granted` are the waiters that were handed a unit and have not returned from rt_sem_take yet;
      `taken` and `released` count the calls that returned RT_EOK, and `supply` is the initial value. */
  datatype World = World(s: State, granted: set<Thread>, taken: nat, released: nat, supply: int)

  ghost predicate Legal(w: World, e: Event) {
    && Typed(w.s)
    && match e
       case TakeCall(t, time) => Member(w.s, t) && w.s.phase[t] == Ready
       case TakeReturn(t) => Member(w.s, t) && w.s.phase[t] == Woken
       case ReleaseCall => true
       case Timeout(t) => t in w.s.waiters && w.s.phase[t] == Waiting(true)
       case ResetCall(value) => true
  }

  function Step(w: World, e: Event): World
    requires Legal(w, e)
  {
    match e
    case TakeCall(t, time) =>
      var (s, o) := Take(w.s, t, time);
      w.(s := s, taken := if o == Returned(EOK) then w.taken + 1 else w.taken)
    case TakeReturn(t) =>
      var (s, o) := Leave(w.s, t);
      w.(s := s, granted := w.granted - {t}, taken := if o == Returned(EOK) then w.taken + 1 else w.taken)
    case ReleaseCall =>
      var (s, o) := Release(w.s);
      w.(s := s, granted := if w.s.waiters == [] then w.granted else w.granted + {w.s.waiters[0]},
         released := if o == Returned(EOK) then w.released + 1 else w.released)
    case Timeout(t) => w.(s := Expire(w.s, t))
    case ResetCall(value) =>
      // From here on the books start from the new value.
      w.(s := Reset(w.s, value), supply := w.supply + (value % 0x1_0000) - w.s.value)
  }

  ghost predicate Run(worlds: seq<World>, events: seq<Event>) {
    && |worlds| == |events| + 1
    && forall n: nat | n < |events| :: Legal(worlds[n], events[n]) && worlds[n + 1] == Step(worlds[n], events[n])
  }

  /** A thread was granted a unit exactly when it is woken without an error code. */
  ghost predicate GrantedAt(w: World, t: Thread) {
    t in w.granted <==> Member(w.s, t) && w.s.phase[t] == Woken && w.s.error[t] == EOK
  }

  /** No unit is lost or made up. */
  ghost predicate Balanced(w: World) {
    && (forall t: Thread :: GrantedAt(w, t))
    && w.s.value + |w.granted| + w.taken == w.supply + w.released
  }

  lemma StepKeeps(w: World, e: Event)
    requires Legal(w, e) && Inv(w.s)
    ensures Inv(Step(w, e).s)
  {
    hide Take, Leave, Release, Expire, Reset, Inv;
    match e
    case TakeCall(t, time) => TakeKeeps(w.s, t, time);
    case TakeReturn(t) => LeaveKeeps(w.s, t);
    case ReleaseCall => ReleaseKeeps(w.s);
    case Timeout(t) => ExpireKeeps(w.s, t);
    case ResetCall(value) => ResetKeeps(w.s, value);
  }

  lemma StepGrants(w: World, e: Event, x: Thread)
    requires Legal(w, e) && Inv(w.s) && Balanced(w)
    ensures GrantedAt(Step(w, e), x)
  {
    hide Enqueue, Without, Sorted, Distinct, FailAll;
    FailAllCodes(w.s.error, w.s.waiters);
    assert GrantedAt(w, x) && PlacedAt(w.s, x);
    if e.ReleaseCall? && w.s.waiters != [] {
      assert PlacedAt(w.s, w.s.waiters[0]);
    }
  }

  lemma StepCounts(w: World, e: Event)
    requires Legal(w, e) && Inv(w.s) && Balanced(w)
    ensures var u := Step(w, e); u.s.value + |u.granted| + u.taken == u.supply + u.released
  {
    hide Enqueue, Without, Sorted, Distinct, FailAll;
    match e {
      case TakeReturn(t) =>
        assert GrantedAt(w, t);
        assert t !in w.granted ==> w.granted - {t} == w.granted;
      case ReleaseCall =>
        if w.s.waiters != [] {
          assert PlacedAt(w.s, w.s.waiters[0]) && GrantedAt(w, w.s.waiters[0]);
        }
      case _ =>
    }
  }

  lemma StepBalances(w: World, e: Event)
    requires Legal(w, e) && Inv(w.s) && Balanced(w)
    ensures Balanced(Step(w, e))
  {
    hide Step, Inv;
    StepCounts(w, e);
    forall x: Thread ensures GrantedAt(Step(w, e), x) {
      StepGrants(w, e, x);
    }
  }

  function Initial(value: nat, flag: Flag, priority: map<Thread, nat>): World {
    World(State(value, flag, [], priority, map t | t in priority :: EOK, map t | t in priority :: Ready), {}, 0, 0,
          value)
  }

  /** The main theorem: in every state of every run the units in the semaphore, in the hands of woken
      waiters and taken add up to the supply and the releases, and nobody waits while a unit is there. */
  lemma {:induction false} RunBalanced(worlds: seq<World>, events: seq<Event>, value: nat, flag: Flag,
                                       priority: map<Thread, nat>, n: nat)
    requires value <= VALUE_MAX && Run(worlds, events) && worlds[0] == Initial(value, flag, priority) && n < |worlds|
    ensures Inv(worlds[n].s) && Balanced(worlds[n])
  {
    hide Step;
    if n == 0 {
      forall t: Thread ensures PlacedAt(worlds[0].s, t) && GrantedAt(worlds[0], t) {}
    } else {
      hide Inv, Balanced, Initial;
      RunBalanced(worlds, events, value, flag, priority, n - 1);
      StepKeeps(worlds[n - 1], events[n - 1]);
      StepBalances(worlds[n - 1], events[n - 1]);
    }
  }

  /** Nobody overtakes a waiter: while the list is not empty, a new take does not succeed, and a release
      gives its unit to the first on the list. */
  lemma NoOvertaking(s: State, t: Thread, time: int)
    requires Inv(s) && Member(s, t) && s.waiters != []
    ensures Take(s, t, time).1 != Returned(EOK)
    ensures Release(s).0.phase == s.phase[s.waiters[0] := Woken] && Release(s).0.value == 0
    ensures Member(s, s.waiters[0]) && Leave(Release(s).0, s.waiters[0]).1 == Returned(EOK)
  {
    assert PlacedAt(s, s.waiters[0]);
  }

  // ---- What each call answers ------------------------------------------------------------------

  /** rt_sem_take takes a unit at once exactly when there is one, gives up exactly when there is none and it
      may not wait, and otherwise joins the list. */
  lemma TakeExactly(s: State, t: Thread, time: int)
    requires Typed(s) && Member(s, t)
    ensures var (r, o) := Take(s, t, time);
      && (o == Returned(EOK) <==> s.value > 0)
      && (o == Returned(ETIMEOUT) <==> s.value == 0 && time == 0)
      && (o == Blocked <==> s.value == 0 && time != 0)
      && r == match o
              case Blocked =>
                s.(waiters := Enqueue(s.waiters, s.priority, s.flag, t), error := s.error[t := EOK],
                   phase := s.phase[t := Waiting(time > 0)])
              case Returned(code) => if code == EOK then s.(value := s.value - 1) else s
  {
    hide Enqueue;
  }

  /** rt_sem_release hands its unit to the first waiter, and keeps it exactly when nobody waits and the count
      is below 65535; at that count it fails. */
  lemma ReleaseExactly(s: State)
    requires Inv(s)
    ensures var (r, o) := Release(s);
      && (o == Returned(EFULL) <==> s.waiters == [] && s.value == 65535)
      && (o != Returned(EFULL) ==> o == Returned(EOK))
      && r == if s.waiters != [] then s.(waiters := s.waiters[1..], phase := s.phase[s.waiters[0] := Woken])
              else s.(value := if s.value < 65535 then s.value + 1 else s.value)
  {
  }

  /** A woken thread returns what was put into its error code: RT_EOK by a release, a timeout or a reset
      otherwise. */
  lemma WokenReturns(s: State, t: Thread, time: int, value: nat)
    requires Inv(s) && t in s.waiters
    ensures Member(s, t)
    ensures t == s.waiters[0] ==> Leave(Release(s).0, t).1 == Returned(EOK)
    ensures Leave(Expire(s, t), t).1 == Returned(ETIMEOUT)
    ensures Member(Reset(s, value), t) && Leave(Reset(s, value), t).1 == Returned(ERROR)
    ensures Reset(s, value).value == value % 65536 && Reset(s, value).waiters == []
  {
    hide FailAll, Without, Distinct, Sorted;
    FailAllCodes(s.error, s.waiters);
    assert PlacedAt(s, t);
  }

  /** Units serve takes one by one: from a state with at least n units, the next n takes all return RT_EOK,
      whoever makes them, and the last one leaves n units fewer. */
  lemma {:induction false} UnitsServe(worlds: seq<World>, events: seq<Event>, n: nat)
    requires Run(worlds, events) && n <= |events| && worlds[0].s.value >= n
    requires forall k | 0 <= k < n :: events[k].TakeCall?
    ensures worlds[n].s == worlds[0].s.(value := worlds[0].s.value - n)
    ensures worlds[n].taken == worlds[0].taken + n
    ensures forall k | 0 <= k < n ::
      Legal(worlds[k], events[k]) && Take(worlds[k].s, events[k].t, events[k].time).1 == Returned(EOK)
  {
    if n > 0 {
      UnitsServe(worlds, events, n - 1);
      assert Legal(worlds[n - 1], events[n - 1]) && worlds[n] == Step(worlds[n - 1], events[n - 1]);
      TakeExactly(worlds[n - 1].s, events[n - 1].t, events[n - 1].time);
    }
  }
}
