/** The fixed-block pool as a step system: blocking allocation, free, and timeouts.

    The header word in front of each block is the link of the free list while the block is free, and
    the address of the pool while it is allocated. */
module PoolModel {
  import opened Links
  import opened WaitQueue
  import opened Waiters
  import opened WaitTime

  type Block = nat

  datatype Header = Next(link: int) | Owner

  /** A suspended or resumed call, and one that has run again but is not yet back in its critical section. */
  datatype Call = Idle | Allocating(time: int, start: int) | Retrying(time: int)

  datatype Outcome = Allocated(block: Block) | Failed | Blocked | Awake

  datatype State = State(
    headers: seq<Header>,
    free: seq<Block>,
    freeCount: nat,
    waiters: Side,
    error: map<Thread, Code>,
    call: map<Thread, Call>)

  ghost predicate Member(s: State, t: Thread) {
    t in s.error && t in s.call
  }

  ghost predicate Typed(s: State) {
    && s.freeCount <= |s.free|
    && (forall i | 0 <= i < |s.free| :: s.free[i] < |s.headers|)
    && (forall t | t in s.waiters.waiting :: Member(s, t))
  }

  // ---- Layout ----------------------------------------------------------------------------

  function AlignDown(n: nat): nat { n - n % 4 }

  /** RT_ALIGN(n, 4) in 32 bits. */
  function AlignUp(n: nat): nat { AlignDown((n + 3) % TWO32) }

  /** The bytes of one block with its header, as the 32-bit code computes them. */
  function Stride(blockSize: nat): nat {
    (AlignUp(blockSize) + 4) % TWO32
  }

  /** How many blocks rt_mp_init gets out of `size` bytes. */
  function TotalCount(size: nat, blockSize: nat): nat
    requires Stride(blockSize) > 0
  {
    StrideFits(AlignDown(size), Stride(blockSize));
    AlignDown(size) / Stride(blockSize)
  }

  function Offset(n: Block, blockSize: nat): int {
    n * Stride(blockSize)
  }

  /** The stride has room for header and block exactly when computing it does not wrap; wrapping makes it
      0, by which rt_mp_init then divides, or just the header. */
  lemma StrideHolds(blockSize: nat)
    requires blockSize < TWO32
    ensures Stride(blockSize) % 4 == 0
    ensures blockSize + 4 <= Stride(blockSize) <==> blockSize + 8 <= TWO32
    ensures Stride(blockSize) == 0 <==> TWO32 - 8 < blockSize <= TWO32 - 4
    ensures blockSize > TWO32 - 4 ==> Stride(blockSize) == 4
  {
  }

  lemma StrideFits(size: nat, d: nat)
    requires d > 0
    ensures 0 <= size / d && size / d * d <= size
  {
    assert size == d * (size / d) + size % d;
  }

  lemma FoursScale(n: nat, d: nat)
    requires d % 4 == 0
    ensures n * d % 4 == 0
  {
    assert d == 4 * (d / 4);
    assert n * (4 * (d / 4)) == 4 * (n * (d / 4));
  }

  /** Every block starts aligned, ends inside the region and before the next one, and has room for header
      and payload exactly when the block size does not wrap. */
  lemma BlocksFit(size: nat, blockSize: nat, n: Block)
    requires blockSize < TWO32 && Stride(blockSize) > 0 && n < TotalCount(size, blockSize)
    ensures Offset(n, blockSize) + 4 + blockSize <= Offset(n + 1, blockSize) <==> blockSize + 8 <= TWO32
    ensures Offset(n, blockSize) < Offset(n + 1, blockSize) <= size
    ensures Offset(n, blockSize) % 4 == 0
  {
    var d := Stride(blockSize);
    StrideHolds(blockSize);
    hide Stride, AlignUp;
    StrideFits(AlignDown(size), d);
    Monotone(n + 1, TotalCount(size, blockSize), d);
    FoursScale(n, d);
    assert (n + 1) * d == n * d + d;
  }

  lemma Monotone(a: nat, b: nat, d: nat)
    requires a <= b
    ensures a * d <= b * d
  {
  }

  lemma BlocksApart(size: nat, blockSize: nat, m: Block, n: Block)
    requires blockSize + 8 <= TWO32 && Stride(blockSize) > 0 && m < n < TotalCount(size, blockSize)
    ensures Offset(m, blockSize) + 4 + blockSize <= Offset(n, blockSize)
  {
    BlocksFit(size, blockSize, m);
    hide Stride, TotalCount;
    Monotone(m + 1, n, Stride(blockSize));
  }

  /** The end mark of the free list, written to the header in front of block number TotalCount, is inside
      the region exactly when a whole block is. */
  lemma EndMarkInside(size: nat, blockSize: nat)
    requires blockSize < TWO32 && Stride(blockSize) > 0
    ensures var mark := (TotalCount(size, blockSize) - 1) * Stride(blockSize);
      0 <= mark && mark + 4 <= size <==> Stride(blockSize) <= AlignDown(size)
  {
    hide Stride, AlignUp;
    StrideHolds(blockSize);
    LastBlock(AlignDown(size), Stride(blockSize));
  }

  /** Where the last of the whole parts of d bytes begins. */
  lemma LastBlock(size: nat, d: nat)
    requires d > 0
    ensures size < d ==> (size / d - 1) * d < 0
    ensures d <= size ==> 0 <= (size / d - 1) * d && (size / d - 1) * d + d <= size
  {
    StrideFits(size, d);
    if d <= size {
      Monotone(0, size / d - 1, d);
    }
  }

  /** An input: with four bytes for blocks of four, the mark goes to the eight bytes in front. */
  lemma EndMarkInFront()
    ensures Stride(4) == 8 && TotalCount(4, 4) == 0 && (TotalCount(4, 4) - 1) * Stride(4) == -8
  {
  }

  // ---- Steps -----------------------------------------------------------------------------

  /** rt_mp_alloc from the test of its loop to the next rt_schedule or to the return. */
  function AllocLoop(s: State, t: Thread, time: int, now: int): (State, Outcome)
    requires Typed(s) && Member(s, t)
  {
    var s0 := s.(waiters := Runs(s.waiters, t));
    if s.freeCount == 0 then
      if time == 0 then
        (s0.(error := s.error[t := ETIMEOUT], call := s.call[t := Idle]), Failed)
      else
        (s0.(waiters := Sleeps(s0.waiters, [t] + s.waiters.waiting), error := s.error[t := EOK],
             call := s.call[t := Allocating(time, if time > 0 then now else 0)]), Blocked)
    else
      (s0.(free := s.free[1..], freeCount := s.freeCount - 1, headers := s.headers[s.free[0] := Owner],
           call := s.call[t := Idle]), Allocated(s.free[0]))
  }

  /** rt_mp_alloc behind rt_schedule, with interrupts on: it returns with the thread's error code, or takes
      the ticks it has slept off the time and goes back to its critical section. */
  function AllocWake(s: State, t: Thread, now: int): (State, Outcome)
    requires Member(s, t) && s.call[t].Allocating?
  {
    var c := s.call[t];
    if s.error[t] != EOK then (s.(call := s.call[t := Idle]), Failed)
    else (s.(call := s.call[t := Retrying(Remaining(c.time, c.start, now))]), Awake)
  }

  function Free(s: State, n: Block): State
    requires n < |s.headers|
  {
    s.(free := [n] + s.free, freeCount := s.freeCount + 1, headers := s.headers[n := Next(First(s.free))],
       error := if s.waiters.waiting == [] then s.error else s.error[s.waiters.waiting[0] := EOK],
       waiters := WakeOne(s.waiters))
  }

  function Timeout(s: State, t: Thread): State {
    s.(error := s.error[t := ETIMEOUT], waiters := Expires(s.waiters, t))
  }

  // ---- The invariant -----------------------------------------------------------------------

  /** The header of a block tells which side of the partition it is on. */
  ghost predicate SideAt(s: State, n: Block) {
    n in s.free <==> n < |s.headers| && s.headers[n].Next?
  }

  ghost predicate Partition(s: State) {
    && Distinct(s.free) && s.freeCount == |s.free|
    && forall n: Block :: SideAt(s, n)
  }

  ghost predicate PlacedAt(s: State, t: Thread) {
    t in s.waiters.waiting || t in s.waiters.woken <==>
      Member(s, t) && !s.call[t].Idle? && s.error[t] == EOK
  }

  /** A call that is about to retry was resumed. */
  ghost predicate RetryAt(s: State, t: Thread) {
    Member(s, t) && s.call[t].Retrying? ==> t in s.waiters.woken
  }

  ghost predicate Placed(s: State) {
    forall t: Thread :: PlacedAt(s, t) && RetryAt(s, t)
  }

  ghost predicate Inv(s: State) {
    Typed(s) && Partition(s) && Placed(s) && NotStranded(s.waiters, s.freeCount)
  }

  ghost predicate MayAlloc(s: State, t: Thread) {
    Member(s, t) && t !in s.waiters.waiting && (s.call[t].Idle? || s.error[t] == EOK)
  }

  // ---- Every step keeps it -------------------------------------------------------------------

  lemma AllocPartition(s: State, t: Thread, time: int, now: int)
    requires Inv(s) && MayAlloc(s, t)
    ensures Partition(AllocLoop(s, t, time, now).0)
    ensures AllocLoop(s, t, time, now).1.Allocated? ==>
              s.freeCount > 0 && AllocLoop(s, t, time, now).1.block == s.free[0] && s.headers[s.free[0]].Next?
  {
    var r := AllocLoop(s, t, time, now).0;
    if s.freeCount > 0 {
      assert s.free == [s.free[0]] + s.free[1..];
      assert SideAt(s, s.free[0]);
    }
    forall n: Block ensures SideAt(r, n) {
      assert SideAt(s, n);
    }
  }

  lemma AllocKeeps(s: State, t: Thread, time: int, now: int)
    requires Inv(s) && MayAlloc(s, t)
    ensures Inv(AllocLoop(s, t, time, now).0)
  {
    AllocPartition(s, t, time, now);
    var r := AllocLoop(s, t, time, now).0;
    assert PlacedAt(s, t);
    if s.freeCount == 0 {
      MissKeeps(s.waiters, t);
      if time != 0 {
        SleepFirstKeeps(Runs(s.waiters, t), t);
      }
    } else {
      TakeKeeps(s.waiters, s.freeCount, t);
    }
    hide NotStranded, SideAt, Distinct;
    forall x: Thread ensures PlacedAt(r, x) && RetryAt(r, x) {
      assert PlacedAt(s, x) && RetryAt(s, x);
    }
  }

  lemma WakeKeeps(s: State, t: Thread, now: int)
    requires Inv(s) && Member(s, t) && s.call[t].Allocating? && t !in s.waiters.waiting
    ensures Inv(AllocWake(s, t, now).0)
  {
    hide NotStranded, Distinct, Remaining;
    var r := AllocWake(s, t, now).0;
    forall n: Block ensures SideAt(r, n) {
      assert SideAt(s, n);
    }
    assert PlacedAt(s, t);
    forall x: Thread ensures PlacedAt(r, x) && RetryAt(r, x) {
      assert PlacedAt(s, x) && RetryAt(s, x);
    }
  }

  /** A call that goes back to its critical section may enter it. */
  lemma RetryMay(s: State, t: Thread)
    requires Inv(s) && Member(s, t) && s.call[t].Retrying?
    ensures MayAlloc(s, t)
  {
    assert PlacedAt(s, t) && RetryAt(s, t);
  }

  lemma FreeKeeps(s: State, n: Block)
    requires Inv(s) && n < |s.headers| && s.headers[n] == Owner
    ensures Inv(Free(s, n))
  {
    var r := Free(s, n);
    PostKeeps(s.waiters, s.freeCount);
    WakeOneMembers(s.waiters);
    assert SideAt(s, n);
    forall m: Block ensures SideAt(r, m) {
      assert SideAt(s, m);
    }
    hide NotStranded, WakeOne;
    forall x: Thread ensures PlacedAt(r, x) && RetryAt(r, x) {
      assert PlacedAt(s, x) && RetryAt(s, x);
    }
  }

  lemma TimeoutKeeps(s: State, t: Thread)
    requires Inv(s) && t in s.waiters.waiting
    ensures Inv(Timeout(s, t))
  {
    var r := Timeout(s, t);
    ExpireKeeps(s.waiters, s.freeCount, t);
    WithoutMembers(s.waiters.waiting, t);
    hide Without;
    forall m: Block ensures SideAt(r, m) {
      assert SideAt(s, m);
    }
    assert PlacedAt(s, t);
    forall x: Thread ensures PlacedAt(r, x) && RetryAt(r, x) {
      assert PlacedAt(s, x) && RetryAt(s, x);
    }
  }

  // ---- The initial state -----------------------------------------------------------------------

  /** rt_mp_init links the blocks in address order. */
  function InitialHeaders(total: nat): seq<Header> {
    seq(total, i requires 0 <= i < total => Next(if i + 1 < total then i + 1 else NULL))
  }

  function InitialFree(total: nat): seq<Block> {
    seq(total, i requires 0 <= i < total => i)
  }

  function Initial(total: nat, threads: set<Thread>): State {
    State(InitialHeaders(total), InitialFree(total), total, Side([], {}),
          map t | t in threads :: EOK, map t | t in threads :: Idle)
  }

  lemma InitialInv(total: nat, threads: set<Thread>)
    ensures Inv(Initial(total, threads))
  {
    var s := Initial(total, threads);
    forall n: Block ensures SideAt(s, n) {
      if n < total {
        assert s.free[n] == n;
      }
    }
    forall t: Thread ensures PlacedAt(s, t) && RetryAt(s, t) {}
  }
}
