/** What the small-memory heap promises over calls and over whole runs. */
module HeapLaws {
  import opened HeapChain
  import opened HeapRegion

  // ---- Live allocations ------------------------------------------------------------

  /** Live payloads are pairwise disjoint, word-aligned and inside the region. */
  lemma LiveBlocksDisjoint(c: Chain, ms: nat, i: nat, j: nat)
    requires Tiled(c, ms) && Aligned(c) && i + 1 < |c| && j + 1 < |c| && c[i].used && c[j].used && i != j
    ensures forall k: nat :: !(PayloadOf(c, i, k) && PayloadOf(c, j, k))
    ensures (c[i].at + HDR) % 4 == 0
    ensures c[i].at + HDR <= c[i + 1].at <= ms + HDR
  {
    forall k: nat | PayloadOf(c, i, k) ensures !PayloadOf(c, j, k) {
      PayloadsApart(c, ms, i, k, j);
    }
    if i + 1 < |c| - 1 { Apart(c, ms, i + 1, |c| - 1); }
  }

  /** Once nothing is live, the holes have been plugged back into one block. */
  lemma NothingLiveIsOneBlock(c: Chain, ms: nat)
    requires Sound(c, ms) && forall i | 0 <= i < |c| - 1 :: !c[i].used
    ensures c == [Block(0, false), Block(ms + HDR, true)]
  {
    assert !FreePair(c, 0);
  }

  // ---- Undo --------------------------------------------------------------------------

  /** rt_free straight after rt_malloc restores the block list, hence lfree and used_mem as well. */
  lemma FreeUndoesMalloc(c: Chain, ms: nat, i: nat, size: nat)
    requires Sound(c, ms) && Fits(c, ms, size, i)
    ensures i + 1 < |Allocate(c, i, size)| && Allocate(c, i, size)[i].used
    ensures Release(Allocate(c, i, size), i) == c
  {
    AllocateUpTo(c, i, size);
    assert !FreePair(c, i) && !FreePair(c, i - 1);
    var d := SetUsed(Allocate(c, i, size), i, false);
    if Room(c, i) >= size + HDR + MIN {
      assert Join(d, i) == c;
      assert PlugForward(d, i) == c;
    } else {
      assert d == c;
    }
  }

  // ---- When rt_malloc refuses -----------------------------------------------------------

  /** Block i is free and its payload is large enough. */
  ghost predicate HasRoom(c: Chain, size: nat, i: nat) {
    i + 1 < |c| && !c[i].used && Room(c, i) >= size
  }

  /** A block with room is passed over exactly when it is the last one and fits exactly. */
  lemma PassedOver(c: Chain, ms: nat, size: nat, i: nat)
    requires Tiled(c, ms) && HasRoom(c, size, i)
    ensures !Fits(c, ms, size, i) <==> i + 2 == |c| && Room(c, i) == size
  {
    if i + 2 < |c| {
      Apart(c, ms, i + 1, |c| - 1);
    }
  }

  /** rt_malloc finds nothing exactly when every free block with room is an exact fit at the end. */
  lemma RefusedExactly(c: Chain, ms: nat, size: nat)
    requires Tiled(c, ms)
    ensures NoFit(c, ms, size) <==> forall i: nat | HasRoom(c, size, i) :: i + 2 == |c| && Room(c, i) == size
  {
    hide Tiled;
    forall i: nat | HasRoom(c, size, i)
      ensures !Fits(c, ms, size, i) <==> i + 2 == |c| && Room(c, i) == size
    {
      PassedOver(c, ms, size, i);
    }
    assert forall i: nat :: Fits(c, ms, size, i) ==> HasRoom(c, size, i);
  }

  /** A fresh heap refuses a request for all of its mem_size_aligned bytes. */
  lemma WholeHeapRefused(ms: nat)
    requires ms % 4 == 0 && MIN <= ms && ms + 2 * HDR < TWO32
    ensures var c := [Block(0, false), Block(ms + HDR, true)];
      HasRoom(c, Request(ms), 0) && NoFit(c, ms, Request(ms))
  {
    RefusedExactly([Block(0, false), Block(ms + HDR, true)], ms, ms);
  }

  // ---- When rt_malloc and rt_calloc have room --------------------------------------------------

  /** The block that rt_malloc takes holds the size asked for exactly when rounding it up does not wrap. */
  lemma MallocHoldsExactly(c: Chain, ms: nat, size: nat, i: nat)
    requires Tiled(c, ms) && ms + 2 * HDR < TWO32 && size < TWO32 && Fits(c, ms, Request(size), i)
    ensures i + 1 < |Allocate(c, i, Request(size))|
    ensures Room(Allocate(c, i, Request(size)), i) >= size <==> size + 3 < TWO32
  {
    hide Tiled, Fits, Allocate, Align4;
    RequestHolds(size);
    TakenRoom(c, ms, i, Request(size));
    if size + 3 >= TWO32 { WrappedRoom(c, ms, i, size); }
  }

  /** A request that wraps gets less than twice the minimum and a header. */
  lemma WrappedRoom(c: Chain, ms: nat, i: nat, size: nat)
    requires Tiled(c, ms) && ms + 2 * HDR < TWO32 && Fits(c, ms, MIN, i) && size + 3 >= TWO32
    ensures i + 1 < |Allocate(c, i, MIN)| && Room(Allocate(c, i, MIN), i) < size
  {
    AllocateUpTo(c, i, MIN);
  }

  /** The block that rt_calloc takes holds count objects of size bytes exactly when their product fits
      32 bits and rounding it up does not wrap; the code allocates and clears the wrapped product.  The
      bytes it clears are inside the block exactly when rounding does not wrap. */
  lemma CallocHoldsExactly(c: Chain, ms: nat, count: nat, size: nat, i: nat)
    requires Tiled(c, ms) && ms + 2 * HDR < TWO32 && count < TWO32 && size < TWO32
    requires Fits(c, ms, Request(count * size % TWO32), i)
    ensures i + 1 < |Allocate(c, i, Request(count * size % TWO32))|
    ensures Room(Allocate(c, i, Request(count * size % TWO32)), i) >= count * size <==> count * size + 3 < TWO32
    ensures Room(Allocate(c, i, Request(count * size % TWO32)), i) >= count * size % TWO32 <==>
            count * size % TWO32 + 3 < TWO32
  {
    var n := count * size;
    hide Tiled, Fits, Request, Allocate;
    TakenRoom(c, ms, i, Request(n % TWO32));
    MallocHoldsExactly(c, ms, n % TWO32, i);
  }

  /** A block taken has room for the request, and less than 2^32 bytes. */
  lemma TakenRoom(c: Chain, ms: nat, i: nat, size: nat)
    requires Tiled(c, ms) && ms + 2 * HDR < TWO32 && Fits(c, ms, size, i)
    ensures i + 1 < |Allocate(c, i, size)| && size <= Room(Allocate(c, i, size), i) < TWO32
  {
    AllocateUpTo(c, i, size);
    if i > 0 { Apart(c, ms, 0, i); }
    if i + 1 < |c| - 1 { Apart(c, ms, i + 1, |c| - 1); }
  }

  /** An input where rt_malloc does not: a heap of 128 KiB hands out 12 bytes for 4 GiB less three. */
  lemma MallocTooSmall()
    ensures var c, ms, n := [Block(0, false), Block(0x2_0000 + HDR, true)], 0x2_0000, 0xFFFF_FFFD;
      IsFirstFit(c, ms, Request(n), 0) && Room(Allocate(c, 0, Request(n)), 0) == MIN < n
  {
    AllocateUpTo([Block(0, false), Block(0x2_0000 + HDR, true)], 0, MIN);
  }

  /** An input where rt_calloc does not: a heap of 128 KiB hands out 64 KiB for 0x1_0001 objects of 64 KiB. */
  lemma CallocTooSmall()
    ensures var c, ms, n := [Block(0, false), Block(0x2_0000 + HDR, true)], 0x2_0000, 0x1_0001 * 0x1_0000;
      && n % TWO32 == 0x1_0000 && IsFirstFit(c, ms, Request(n % TWO32), 0)
      && Room(Allocate(c, 0, Request(n % TWO32)), 0) == 0x1_0000 < n
  {
    AllocateUpTo([Block(0, false), Block(0x2_0000 + HDR, true)], 0, 0x1_0000);
  }

  // ---- When the scan does not end ----------------------------------------------------------

  /** The loop bound as the 32-bit code computes it. */
  function ScanBound(ms: nat, size: nat): int { (ms - size) % TWO32 }

  /** The block the scan looks at in round n when nothing fits before: the stub links to itself. */
  function Visited(c: Chain, n: nat): nat
    requires |c| > 0
  {
    if Lowest(c) + n < |c| then Lowest(c) + n else |c| - 1
  }

  /** Round n of the scan neither takes a block nor leaves the loop. */
  ghost predicate GoesOn(c: Chain, ms: nat, size: nat, n: nat)
    requires |c| > 0
  {
    var i := Visited(c, n);
    && c[i].at < ScanBound(ms, size)
    && !(i + 1 < |c| && !c[i].used && Room(c, i) >= size)
  }

  /** For a request above 0 that passes the size check, some round ends the scan or all rounds go on;
      all of them go on exactly when mem_size_aligned is below MIN_SIZE_ALIGNED. */
  lemma ScanRunsForeverExactly(c: Chain, ms: nat, size: nat)
    requires Tiled(c, ms) && ms + 2 * HDR < TWO32 - MIN && 0 < size && Align4(size) <= ms
    ensures (forall n: nat :: GoesOn(c, ms, Request(size), n)) <==> ms < MIN
  {
    if ms < MIN {
      assert c[0].at + HDR <= c[1].at && (c[1].at + HDR <= c[|c| - 1].at || |c| == 2);
      forall n: nat ensures GoesOn(c, ms, Request(size), n) {
        assert ScanBound(ms, Request(size)) == ms - MIN + TWO32;
      }
    } else {
      assert !GoesOn(c, ms, Request(size), |c|);
    }
  }

  /** A fresh heap of four bytes never answers a request for one. */
  lemma TinyHeapScansForever(n: nat)
    ensures GoesOn([Block(0, false), Block(4 + HDR, true)], 4, Request(1), n)
  {
    ScanRunsForeverExactly([Block(0, false), Block(4 + HDR, true)], 4, 1);
  }

  // ---- Runs ----------------------------------------------------------------------------

  /** The calls that change the block list.  A moving rt_realloc is a Malloc followed by a Free, each
      under the heap semaphore of its own. */
  datatype Call = Malloc(size: nat) | Free(i: nat) | Shrink(i: nat, newsize: nat)

  datatype HeapState = HeapState(chain: Chain, usedMem: int, maxMem: int)

  /** Callers free and shrink live blocks only. */
  ghost predicate Legal(s: HeapState, call: Call) {
    match call
    case Malloc(size) => true
    case Free(i) => i + 1 < |s.chain| && s.chain[i].used
    case Shrink(i, newsize) =>
      && i + 1 < |s.chain| && s.chain[i].used
      && Align4(newsize) + HDR + MIN < Room(s.chain, i)
  }

  /** The effect of one call; the methods of SmallHeap.Heap promise it. */
  ghost predicate Next(ms: nat, s: HeapState, call: Call, t: HeapState) {
    && Legal(s, call)
    && match call
       case Malloc(size) =>
         if size == 0 || Align4(size) > ms || NoFit(s.chain, ms, Request(size)) then t == s
         else exists i: nat :: IsFirstFit(s.chain, ms, Request(size), i) && t == Taken(s, i, Request(size))
       case Free(i) =>
         t == HeapState(Release(s.chain, i), s.usedMem - (s.chain[i + 1].at - s.chain[i].at), s.maxMem)
       case Shrink(i, newsize) =>
         t == HeapState(HeapChain.Shrink(s.chain, i, Align4(newsize)),
                        s.usedMem - (Room(s.chain, i) - Align4(newsize)), s.maxMem)
  }

  /** The books after serving a request from block i: its new extent is added. */
  function Taken(s: HeapState, i: nat, size: nat): HeapState
    requires i + 1 < |s.chain|
  {
    var c := s.chain;
    var extent := if Room(c, i) >= size + HDR + MIN then size + HDR else c[i + 1].at - c[i].at;
    HeapState(Allocate(c, i, size), s.usedMem + extent,
              Max(s.maxMem, s.usedMem + extent))
  }

  function Max(a: int, b: int): int { if a < b then b else a }

  lemma MallocIsNext(ms: nat, s: HeapState, size: nat, i: nat, t: HeapState)
    requires Sound(s.chain, ms) && s.usedMem == UsedTotal(s.chain)
    requires t.chain != [] && t.usedMem == UsedTotal(t.chain)
    requires size > 0 && Align4(size) <= ms && IsFirstFit(s.chain, ms, Request(size), i)
    requires t.chain == Allocate(s.chain, i, Request(size)) && t.maxMem == Max(s.maxMem, t.usedMem)
    ensures Next(ms, s, Malloc(size), t)
  {
    hide Tiled, NoTwoFree, UsedTotal, Split;
    AllocateTotal(s.chain, ms, i, Request(size));
    AllocateUpTo(s.chain, i, Request(size));
    assert t == Taken(s, i, Request(size));
  }

  lemma FreeIsNext(ms: nat, s: HeapState, i: nat, t: HeapState)
    requires Sound(s.chain, ms) && s.usedMem == UsedTotal(s.chain) && i + 1 < |s.chain| && s.chain[i].used
    requires t.chain == Release(s.chain, i) && t.chain != [] && t.usedMem == UsedTotal(t.chain) && t.maxMem == s.maxMem
    ensures Next(ms, s, Free(i), t)
  {
    hide Tiled, NoTwoFree, UsedTotal, Plug;
    ReleaseTotal(s.chain, ms, i);
  }

  lemma ShrinkIsNext(ms: nat, s: HeapState, i: nat, newsize: nat, t: HeapState)
    requires Sound(s.chain, ms) && s.usedMem == UsedTotal(s.chain) && Legal(s, Shrink(i, newsize))
    requires t.chain == HeapChain.Shrink(s.chain, i, Align4(newsize)) && t.chain != []
    requires t.usedMem == UsedTotal(t.chain) && t.maxMem == s.maxMem
    ensures Next(ms, s, Shrink(i, newsize), t)
  {
    hide Tiled, NoTwoFree, UsedTotal, Plug, Split;
    ShrinkTotal(s.chain, ms, i, Align4(newsize));
  }

  /** A run: states[n + 1] results from states[n] by calls[n]. */
  ghost predicate Run(ms: nat, states: seq<HeapState>, calls: seq<Call>) {
    && |states| == |calls| + 1
    && states[0] == HeapState([Block(0, false), Block(ms + HDR, true)], 0, 0)
    && forall n: nat | n < |calls| :: Next(ms, states[n], calls[n], states[n + 1])
  }

  ghost predicate Good(ms: nat, s: HeapState) {
    Sound(s.chain, ms) && Aligned(s.chain) && s.usedMem == UsedTotal(s.chain) <= s.maxMem
  }

  lemma NextGood(ms: nat, s: HeapState, call: Call, t: HeapState)
    requires Good(ms, s) && Next(ms, s, call, t)
    ensures Good(ms, t)
    ensures t.maxMem == Max(s.maxMem, t.usedMem)
    decreases call
  {
    hide Tiled, NoTwoFree, Aligned, UsedTotal, Plug, Split;
    match call
    case Malloc(size) =>
      if t != s {
        var i: nat :| IsFirstFit(s.chain, ms, Request(size), i) && t == Taken(s, i, Request(size));
        AllocateTotal(s.chain, ms, i, Request(size));
        AllocateUpTo(s.chain, i, Request(size));
        AllocateAligned(s.chain, i, Request(size));
      }
    case Free(i) =>
      ReleaseTotal(s.chain, ms, i);
      Apart(s.chain, ms, i, i + 1);
      FlagAligned(s.chain, i);
      PlugAligned(SetUsed(s.chain, i, false), i);
    case Shrink(i, newsize) =>
      ShrinkTotal(s.chain, ms, i, Align4(newsize));
      SplitAligned(s.chain, i, Align4(newsize), true);
      PlugAligned(Split(s.chain, i, Align4(newsize), true), i + 1);
  }

  lemma FlagAligned(c: Chain, i: nat)
    requires Aligned(c) && i < |c|
    ensures Aligned(SetUsed(c, i, false))
  {
  }

  /** Over every run: the block list is sound, used_mem is the extent of the live blocks, and
      max_mem is the largest used_mem the run has seen. */
  lemma {:induction false} RunGood(ms: nat, states: seq<HeapState>, calls: seq<Call>, n: nat)
    requires ms % 4 == 0 && Run(ms, states, calls) && n < |states|
    ensures Good(ms, states[n])
    ensures forall k: nat | k <= n :: states[k].usedMem <= states[n].maxMem
    ensures exists k: nat | k <= n :: states[k].usedMem == states[n].maxMem
  {
    if n == 0 {
      assert UsedTotal(states[0].chain) == UsedBefore(states[0].chain, 0);
      assert states[0].usedMem == states[0].maxMem;
    } else {
      RunGood(ms, states, calls, n - 1);
      assert Next(ms, states[n - 1], calls[n - 1], states[n]);
      NextGood(ms, states[n - 1], calls[n - 1], states[n]);
      var k: nat :| k <= n - 1 && states[k].usedMem == states[n - 1].maxMem;
      assert states[if states[n - 1].maxMem < states[n].usedMem then n else k].usedMem == states[n].maxMem;
    }
  }
}
