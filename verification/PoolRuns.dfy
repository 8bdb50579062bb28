/** What the block pool guarantees over whole runs of any number of threads. */
module PoolRuns {
  import opened WaitQueue
  import opened Waiters
  import opened WaitTime
  import opened PoolModel

  /** One critical section, the step of a resumed call with interrupts on, a thread's timer, or the passing
      of time.  Anything may come between AllocWake and AllocRetry. */
  datatype Event = AllocStart(t: Thread, timeout: int) | AllocWake(t: Thread) | AllocRetry(t: Thread)
                 | FreeCall(n: Block) | Timer(t: Thread) | Ticks(n: nat)

  /** `held` are the blocks that callers were given and have not freed; `naps` counts the suspensions, and
      `nap[t]` is the number of the last one of t; `time` is the unwrapped tick count. */
  datatype World = World(
    s: State, held: set<Block>, naps: nat, nap: map<Thread, nat>, time: nat, clock: map<Thread, Clock>)

  function Now(w: World): int { w.time % TWO32 }

  ghost predicate Legal(w: World, e: Event) {
    && Typed(w.s)
    && match e
       case AllocStart(t, timeout) => Member(w.s, t) && w.s.call[t].Idle? && timeout < TWO31
       case AllocWake(t) => Member(w.s, t) && w.s.call[t].Allocating? && t !in w.s.waiters.waiting
       case AllocRetry(t) => Member(w.s, t) && w.s.call[t].Retrying?
       case FreeCall(n) => n < |w.s.headers| && n in w.held
       case Timer(t) => t in w.s.waiters.waiting && w.s.call[t].Allocating? && w.s.call[t].time > 0
       case Ticks(n) => true
  }

  function After(w: World, e: Event): (State, Outcome)
    requires Legal(w, e)
  {
    match e
    case AllocStart(t, timeout) => AllocLoop(w.s, t, timeout, Now(w))
    case AllocWake(t) => PoolModel.AllocWake(w.s, t, Now(w))
    case AllocRetry(t) => AllocLoop(w.s, t, w.s.call[t].time, Now(w))
    case FreeCall(n) => (Free(w.s, n), Failed)
    case Timer(t) => (Timeout(w.s, t), Failed)
    case Ticks(n) => (w.s, Failed)
  }

  function ClockAfter(w: World, e: Event): map<Thread, Clock> {
    match e
    case AllocStart(t, timeout) => w.clock[t := Clock(timeout, 0, w.time)]
    case AllocWake(t) => if t in w.clock then w.clock[t := Slept(w.clock[t], w.time)] else w.clock
    case AllocRetry(t) => if t in w.clock then w.clock[t := w.clock[t].(since := w.time)] else w.clock
    case _ => w.clock
  }

  function Step(w: World, e: Event): World
    requires Legal(w, e)
  {
    var (s, o) := After(w, e);
    var sleeps := o.Blocked? && (e.AllocStart? || e.AllocRetry?);
    World(s,
          if o.Allocated? then w.held + {o.block} else if e.FreeCall? then w.held - {e.n} else w.held,
          if sleeps then w.naps + 1 else w.naps,
          if sleeps then w.nap[e.t := w.naps] else w.nap,
          if e.Ticks? then w.time + e.n else w.time,
          ClockAfter(w, e))
  }

  ghost predicate Run(worlds: seq<World>, events: seq<Event>) {
    && |worlds| == |events| + 1
    && forall i: nat | i < |events| :: Legal(worlds[i], events[i]) && worlds[i + 1] == Step(worlds[i], events[i])
  }

  function InitialWorld(total: nat, threads: set<Thread>): World {
    World(Initial(total, threads), {}, 0, map[], 0, map[])
  }

  // ---- The partition ---------------------------------------------------------------------------

  /** The blocks in use are those whose header points to the pool. */
  ghost predicate HeldAt(w: World, n: Block) {
    n in w.held <==> n < |w.s.headers| && w.s.headers[n] == Owner
  }

  ghost predicate Held(w: World) {
    forall n: Block :: HeldAt(w, n)
  }

  lemma StepKeeps(w: World, e: Event)
    requires Legal(w, e) && Inv(w.s) && Held(w)
    ensures Inv(Step(w, e).s) && Held(Step(w, e))
    ensures After(w, e).1.Allocated? ==> After(w, e).1.block !in w.held
  {
    match e {
      case AllocStart(t, timeout) =>
        assert PlacedAt(w.s, t);
        AllocKeeps(w.s, t, timeout, Now(w));
        AllocPartition(w.s, t, timeout, Now(w));
      case AllocWake(t) => WakeKeeps(w.s, t, Now(w));
      case AllocRetry(t) =>
        RetryMay(w.s, t);
        AllocKeeps(w.s, t, w.s.call[t].time, Now(w));
        AllocPartition(w.s, t, w.s.call[t].time, Now(w));
      case FreeCall(n) =>
        assert HeldAt(w, n);
        FreeKeeps(w.s, n);
      case Timer(t) => TimeoutKeeps(w.s, t);
      case Ticks(n) =>
    }
    hide Inv, Remaining, ClockAfter;
    if After(w, e).1.Allocated? {
      assert HeldAt(w, After(w, e).1.block);
    }
    forall n: Block ensures HeldAt(Step(w, e), n) {
      assert HeldAt(w, n);
    }
  }

  // ---- Last in, first out ------------------------------------------------------------------------

  /** The threads of q fell asleep one after the other, the first of the list last. */
  ghost predicate LastFirst(q: seq<Thread>, nap: map<Thread, nat>, naps: nat) {
    && (forall i | 0 <= i < |q| :: q[i] in nap && nap[q[i]] < naps)
    && forall i, j | 0 <= i < j < |q| :: nap[q[i]] > nap[q[j]]
  }

  ghost predicate Stacked(w: World) {
    LastFirst(w.s.waiters.waiting, w.nap, w.naps)
  }

  lemma AsleepFirst(q: seq<Thread>, nap: map<Thread, nat>, naps: nat, t: Thread)
    requires LastFirst(q, nap, naps) && t !in q
    ensures LastFirst([t] + q, nap[t := naps], naps + 1)
  {
    var r := [t] + q;
    forall i | 0 < i < |r| ensures r[i] == q[i - 1] && r[i] != t {
      assert q[i - 1] in q;
    }
  }

  lemma TailStacked(q: seq<Thread>, nap: map<Thread, nat>, naps: nat)
    requires LastFirst(q, nap, naps) && q != []
    ensures LastFirst(q[1..], nap, naps) && q[0] in nap && nap[q[0]] < naps
    ensures forall x | x in q[1..] :: x in nap && nap[q[0]] > nap[x]
  {
    forall x | x in q[1..] ensures x in nap && nap[q[0]] > nap[x] {
      var k :| 0 <= k < |q| - 1 && q[1..][k] == x;
      assert q[k + 1] == x;
    }
  }

  lemma ConsStacked(t: Thread, r: seq<Thread>, nap: map<Thread, nat>, naps: nat)
    requires LastFirst(r, nap, naps) && t in nap && nap[t] < naps
    requires forall x | x in r :: x in nap && nap[t] > nap[x]
    ensures LastFirst([t] + r, nap, naps)
  {
  }

  lemma {:induction false} WithoutStacked(q: seq<Thread>, nap: map<Thread, nat>, naps: nat, t: Thread)
    requires LastFirst(q, nap, naps)
    ensures LastFirst(Without(q, t), nap, naps)
  {
    hide LastFirst;
    if q != [] {
      TailStacked(q, nap, naps);
      if q[0] != t {
        WithoutStacked(q[1..], nap, naps, t);
        ConsStacked(q[0], Without(q[1..], t), nap, naps);
      }
    }
  }

  lemma LoopStacked(s: State, t: Thread, timeout: int, now: int, nap: map<Thread, nat>, naps: nat)
    requires Inv(s) && Member(s, t) && t !in s.waiters.waiting && LastFirst(s.waiters.waiting, nap, naps)
    ensures var (r, o) := AllocLoop(s, t, timeout, now);
      if o.Blocked? then LastFirst(r.waiters.waiting, nap[t := naps], naps + 1)
      else LastFirst(r.waiters.waiting, nap, naps)
  {
    hide LastFirst, Inv;
    AsleepFirst(s.waiters.waiting, nap, naps, t);
  }

  lemma StepStacked(w: World, e: Event)
    requires Legal(w, e) && Inv(w.s) && Stacked(w)
    ensures Stacked(Step(w, e))
  {
    var q := w.s.waiters.waiting;
    match e {
      case AllocStart(t, timeout) =>
        assert PlacedAt(w.s, t);
        LoopStacked(w.s, t, timeout, Now(w), w.nap, w.naps);
      case AllocWake(t) =>
      case AllocRetry(t) =>
        RetryMay(w.s, t);
        LoopStacked(w.s, t, w.s.call[t].time, Now(w), w.nap, w.naps);
      case FreeCall(n) =>
        assert q != [] ==> LastFirst(q[1..], w.nap, w.naps);
      case Timer(t) => WithoutStacked(q, w.nap, w.naps, t);
      case Ticks(n) =>
    }
    hide LastFirst, Inv, Remaining, ClockAfter, AllocLoop, Without;
  }

  // ---- The waiting time ------------------------------------------------------------------------

  /** A blocked call shows its remaining time; one that is about to retry has just computed it. */
  ghost predicate OnTimeAt(w: World, t: Thread) {
    t in w.s.call && !w.s.call[t].Idle? ==>
      && t in w.clock
      && match w.s.call[t]
         case Allocating(time, start) => Shows(w.clock[t], w.time, time, start)
         case Retrying(time) => 0 != w.clock[t].asked < TWO31 && time == Left(w.clock[t])
         case Idle => true
  }

  /** Every blocked call has its remaining time. */
  ghost predicate OnTime(w: World) {
    forall t: Thread :: OnTimeAt(w, t)
  }

  /** A call with a timeout that was resumed to go on waiting runs again in time. */
  ghost predicate Punctual(w: World, e: Event)
    requires Legal(w, e)
  {
    e.AllocWake? && w.s.error[e.t] == EOK && e.t in w.clock ==>
      Prompt(w.clock[e.t], w.time, w.s.call[e.t].time)
  }

  lemma AgainLeft(w: World, e: Event)
    requires Legal(w, e) && OnTime(w) && Punctual(w, e) && e.AllocWake?
    ensures e.t in w.clock
    ensures var c := w.s.call[e.t];
      w.s.error[e.t] == EOK ==> Remaining(c.time, c.start, Now(w)) == Left(Slept(w.clock[e.t], w.time))
  {
    hide Remaining;
    assert OnTimeAt(w, e.t);
    if w.s.error[e.t] == EOK {
      LeftRight(w.clock[e.t], w.time, w.s.call[e.t].time, w.s.call[e.t].start);
    }
  }

  lemma StepOnTime(w: World, e: Event)
    requires Legal(w, e) && OnTime(w) && Punctual(w, e)
    ensures OnTime(Step(w, e))
  {
    match e {
      case AllocWake(t) =>
        assert OnTimeAt(w, t);
        AgainLeft(w, e);
      case AllocRetry(t) => assert OnTimeAt(w, t);
      case _ =>
    }
    hide Remaining, WakeOne, Runs, Sleeps, Typed;
    var u := Step(w, e);
    forall x: Thread ensures OnTimeAt(u, x) {
      assert OnTimeAt(w, x);
    }
  }

  // ---- Whole runs ------------------------------------------------------------------------------

  lemma InitialSafe(total: nat, threads: set<Thread>)
    ensures var w := InitialWorld(total, threads); Inv(w.s) && Held(w) && Stacked(w) && OnTime(w)
  {
    var w := InitialWorld(total, threads);
    InitialInv(total, threads);
    hide Inv;
    forall n: Block ensures HeldAt(w, n) {}
    forall t: Thread ensures OnTimeAt(w, t) {}
  }

  /** The main theorem: in every state of every run free list and allocated blocks partition the pool,
      the free count is the length of the free list, the allocated blocks are exactly those in callers'
      hands, nobody waits for a block that no resumed thread is on the way to take, and the waiters are
      listed in the reverse of the order in which they fell asleep. */
  lemma {:induction false} RunSafe(worlds: seq<World>, events: seq<Event>, total: nat, threads: set<Thread>, i: nat)
    requires Run(worlds, events) && worlds[0] == InitialWorld(total, threads) && i < |worlds|
    ensures Inv(worlds[i].s) && Held(worlds[i]) && Stacked(worlds[i])
  {
    if i == 0 {
      InitialSafe(total, threads);
    } else {
      hide Step, Legal, Inv, Held, Stacked;
      RunSafe(worlds, events, total, threads, i - 1);
      StepKeeps(worlds[i - 1], events[i - 1]);
      StepStacked(worlds[i - 1], events[i - 1]);
    }
  }

  /** In a run whose timed calls are punctual every blocked call has what it was given minus what it has
      slept, across any number of wake-ups and tick wraps.  Sleeping ends when a resumed call reads the tick;
      the code does not count what passes between that and its critical section. */
  lemma {:induction false} RunOnTime(worlds: seq<World>, events: seq<Event>, total: nat, threads: set<Thread>, i: nat)
    requires Run(worlds, events) && worlds[0] == InitialWorld(total, threads) && i < |worlds|
    requires forall k | 0 <= k < i :: Punctual(worlds[k], events[k])
    ensures OnTime(worlds[i])
  {
    if i == 0 {
      InitialSafe(total, threads);
    } else {
      hide Step, Legal, OnTime, Punctual;
      RunOnTime(worlds, events, total, threads, i - 1);
      StepOnTime(worlds[i - 1], events[i - 1]);
    }
  }

  /** No block is handed out twice: what an allocation returns is in nobody's hands. */
  lemma NeverTwice(w: World, e: Event)
    requires Legal(w, e) && Inv(w.s) && Held(w) && After(w, e).1.Allocated?
    ensures After(w, e).1.block !in w.held && Step(w, e).held == w.held + {After(w, e).1.block}
    ensures Step(w, e).s.freeCount == w.s.freeCount - 1
  {
    StepKeeps(w, e);
  }

  /** Waiters are served last in, first out: in a run, a free wakes the one waiter that fell asleep
      after all the others on the list. */
  lemma LastSleeperFirst(worlds: seq<World>, events: seq<Event>, total: nat, threads: set<Thread>, i: nat, t: Thread)
    requires Run(worlds, events) && worlds[0] == InitialWorld(total, threads) && i < |events|
    requires events[i].FreeCall? && t in worlds[i].s.waiters.waiting
    ensures t in worlds[i].nap
    ensures t in worlds[i + 1].s.waiters.woken <==>
      forall x | x in worlds[i].s.waiters.waiting && x != t ::
        x in worlds[i].nap && worlds[i].nap[x] < worlds[i].nap[t]
  {
    RunSafe(worlds, events, total, threads, i);
    var q := worlds[i].s.waiters.waiting;
    assert q[0] in q;
    hide Held, Partition, Placed;
  }

  /** A resumed allocation, back in its critical section, gives up exactly when the pool is still used up and
      it has slept for the time it was given; one that waits forever never does. */
  lemma GivesUpInTime(w: World, t: Thread)
    requires Inv(w.s) && OnTime(w) && Legal(w, AllocRetry(t))
    ensures t in w.clock
    ensures After(w, AllocRetry(t)).1 == Failed <==>
      w.s.free == [] && w.clock[t].asked > 0 && w.clock[t].slept >= w.clock[t].asked
  {
    assert OnTimeAt(w, t);
    hide Remaining, Runs, Sleeps;
  }
}
