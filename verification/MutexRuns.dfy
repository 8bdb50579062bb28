/** What the mutex guarantees over whole runs, as its callers see it. */
module MutexRuns {
  import opened Options
  import opened WaitQueue
  import opened MutexModel

  /** One critical section: a call by t, t's return after being woken, or t's timer. */
  datatype Event = TakeCall(t: Thread, time: int) | TakeReturn(t: Thread) | ReleaseCall(t: Thread) | Timeout(t: Thread)

  /** `held[t]` counts the takes that returned RT_EOK to t minus the releases that did. */
  datatype World = World(s: State, held: map<Thread, int>)

  function Initial(base: map<Thread, nat>, flag: Flag): World {
    World(InitialState(flag, base), map t | t in base :: 0)
  }

  ghost predicate Legal(w: World, e: Event) {
    && Typed(w.s) && w.held.Keys == w.s.priority.Keys && e.t in w.s.priority
    && match e
       case TakeCall(t, time) => w.s.phase[t] == Ready
       case TakeReturn(t) => w.s.phase[t] == Woken
       case ReleaseCall(t) => w.s.phase[t] == Ready && (w.s.owner == Some(t) ==> w.s.hold > 0)
       case Timeout(t) => w.s.phase[t] == Waiting(true)
  }

  function Outcome1(w: World, e: Event): Option<Outcome>
    requires Legal(w, e)
  {
    match e
    case TakeCall(t, time) => Some(Take(w.s, t, time).1)
    case TakeReturn(t) => Some(Leave(w.s, t).1)
    case ReleaseCall(t) => Some(Release(w.s, t).1)
    case Timeout(t) => None
  }

  function Step(w: World, e: Event): World
    requires Legal(w, e)
  {
    var s := match e
      case TakeCall(t, time) => Take(w.s, t, time).0
      case TakeReturn(t) => Leave(w.s, t).0
      case ReleaseCall(t) => Release(w.s, t).0
      case Timeout(t) => Expire(w.s, t);
    var ok := Outcome1(w, e) == Some(Returned(EOK));
    World(s, if ok then w.held[e.t := w.held[e.t] + if e.ReleaseCall? then -1 else 1] else w.held)
  }

  ghost predicate Run(worlds: seq<World>, events: seq<Event>) {
    && |worlds| == |events| + 1
    && forall n: nat | n < |events| :: Legal(worlds[n], events[n]) && worlds[n + 1] == Step(worlds[n], events[n])
  }

  /** The recursion count belongs to the one thread that owns the mutex and has returned from take. */
  ghost predicate Counted(w: World) {
    && w.held.Keys == w.s.priority.Keys == w.s.phase.Keys
    && forall t | t in w.held ::
         w.held[t] == if w.s.owner == Some(t) && w.s.phase[t] == Ready then w.s.hold else 0
  }

  lemma StepKeeps(w: World, e: Event, base: map<Thread, nat>)
    requires Legal(w, e) && Inv(w.s, base)
    ensures Inv(Step(w, e).s, base)
  {
    match e
    case TakeCall(t, time) => TakeKeeps(w.s, t, time, base);
    case TakeReturn(t) => LeaveKeeps(w.s, t, base);
    case ReleaseCall(t) => ReleaseKeeps(w.s, t, base);
    case Timeout(t) => ExpireKeeps(w.s, t, base);
  }

  /** What a take says and does to the holder. */
  lemma TakeAnswers(s: State, t: Thread, time: int)
    requires Typed(s) && Exclusive(s) && t in s.priority && t in s.phase && s.phase[t] == Ready
    ensures var (r, o) := Take(s, t, time);
      if MustWait(s, t, time) then
        o == Blocked && r.owner == s.owner && r.hold == s.hold && r.phase == s.phase[t := Waiting(time > 0)]
      else
        && o.Returned? && r.phase == s.phase
        && if o == Returned(EOK) then
             r.owner == Some(t) && r.hold == s.hold + 1 && (s.hold > 0 ==> s.owner == Some(t))
           else r.owner == s.owner && r.hold == s.hold
  {
    hide Enqueue;
  }

  lemma TakeCounts(w: World, t: Thread, time: int, base: map<Thread, nat>)
    requires Legal(w, TakeCall(t, time)) && Inv(w.s, base) && Counted(w)
    ensures Counted(Step(w, TakeCall(t, time)))
  {
    TakeAnswers(w.s, t, time);
    hide Take, Typed, Exclusive, Queued, Inherited, Restorable, Granted, MustWait;
  }

  lemma ReturnCounts(w: World, t: Thread, base: map<Thread, nat>)
    requires Legal(w, TakeReturn(t)) && Inv(w.s, base) && Counted(w)
    ensures Counted(Step(w, TakeReturn(t)))
  {
    hide Queued, Inherited, Restorable;
  }

  lemma HandOffCounts(w: World, t: Thread, base: map<Thread, nat>)
    requires Legal(w, ReleaseCall(t)) && Inv(w.s, base) && Counted(w) && LastHold(w.s, t) && w.s.waiters != []
    ensures Counted(Step(w, ReleaseCall(t)))
  {
    hide HandOff, Release, Queued, Inherited, Restorable, Granted;
    DroppedBase(w.s, t, base);
    ReleaseIsHandOff(w.s, t, base);
    HandOffShape(Dropped(w.s, t));
  }

  lemma ReleaseCounts(w: World, t: Thread, base: map<Thread, nat>)
    requires Legal(w, ReleaseCall(t)) && Inv(w.s, base) && Counted(w)
    ensures Counted(Step(w, ReleaseCall(t)))
  {
    hide HandOff, Queued, Inherited, Restorable, Granted;
    if LastHold(w.s, t) && w.s.waiters != [] {
      HandOffCounts(w, t, base);
      hide Step, Counted;
    }
  }

  lemma TimeoutCounts(w: World, t: Thread, base: map<Thread, nat>)
    requires Legal(w, Timeout(t)) && Inv(w.s, base) && Counted(w)
    ensures Counted(Step(w, Timeout(t)))
  {
    hide Inherited, Restorable, Granted, Without;
  }

  lemma StepCounts(w: World, e: Event, base: map<Thread, nat>)
    requires Legal(w, e) && Inv(w.s, base) && Counted(w)
    ensures Counted(Step(w, e))
  {
    hide Step, Counted, Inv;
    match e
    case TakeCall(t, time) => TakeCounts(w, t, time, base);
    case TakeReturn(t) => ReturnCounts(w, t, base);
    case ReleaseCall(t) => ReleaseCounts(w, t, base);
    case Timeout(t) => TimeoutCounts(w, t, base);
  }

  /** The main theorem: the invariant and the counts hold in every state of every run. */
  lemma {:induction false} RunSafe(worlds: seq<World>, events: seq<Event>, base: map<Thread, nat>, flag: Flag, n: nat)
    requires (forall t | t in base :: base[t] < PRIORITY_MAX)
    requires Run(worlds, events) && worlds[0] == Initial(base, flag) && n < |worlds|
    ensures Inv(worlds[n].s, base) && Counted(worlds[n])
  {
    if n > 0 {
      RunSafe(worlds, events, base, flag, n - 1);
      StepKeeps(worlds[n - 1], events[n - 1], base);
      StepCounts(worlds[n - 1], events[n - 1], base);
    }
  }

  /** Mutual exclusion: at most one thread holds the mutex, and while it does nobody else was granted it. */
  lemma OneHolder(w: World, base: map<Thread, nat>, a: Thread, b: Thread)
    requires Inv(w.s, base) && Counted(w) && a in w.held && b in w.held && w.held[a] > 0
    ensures w.held[b] > 0 ==> a == b
    ensures w.s.phase[b] == Woken && w.s.error[b] == EOK ==> a == b
    ensures w.s.owner == Some(a) && w.s.value == 0 && w.s.hold == w.held[a]
  {
    assert w.held[a] == if w.s.owner == Some(a) && w.s.phase[a] == Ready then w.s.hold else 0;
  }

  /** Priority inheritance: no waiter is more urgent than the thread that owns the mutex. */
  lemma OwnerIsUrgent(s: State, base: map<Thread, nat>, x: Thread)
    requires Inv(s, base) && x in s.phase && s.phase[x].Waiting?
    ensures s.owner.Some? && s.owner.value != x
    ensures s.priority[s.owner.value] <= s.priority[x] == base[x]
  {
    assert x in s.waiters;
  }

  /** A full release leaves the caller with the priority it had on its own; so does every release
      of a thread that is not the owner, which also changes no field of the mutex. */
  lemma ReleaseRestores(s: State, t: Thread, base: map<Thread, nat>)
    requires Inv(s, base) && t in s.priority && s.phase[t] == Ready
    ensures s.owner != Some(t) || s.hold == 1 ==> Release(s, t).0.priority[t] == base[t]
    ensures s.owner != Some(t) ==>
      Release(s, t) == (s.(error := s.error[t := ERROR]), Returned(ERROR))
  {
    ReleaseKeeps(s, t, base);
    if LastHold(s, t) && s.waiters != [] {
      assert s.waiters[0] in s.waiters;
      DroppedBase(s, t, base);
      HandOffShape(Dropped(s, t));
    }
  }

  /** The overflow exits of rt_mutex_release and of a first take cannot be reached; a recursive take
      overflows exactly at 255 holds. */
  lemma OverflowExits(s: State, t: Thread, time: int, base: map<Thread, nat>)
    requires Inv(s, base) && t in s.priority && s.phase[t] == Ready
    ensures Release(s, t).1 != Returned(EFULL)
    ensures Take(s, t, time).1 == Returned(EFULL) <==> s.owner == Some(t) && s.hold == HOLD_MAX
  {
  }
}
