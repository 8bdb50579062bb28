/** The block list of the small-memory heap, as a value.

    A chain lists the blocks of the region in address order.  The last entry is the
    end stub: it is always marked used and never holds data.  Every heap operation is
    a function on chains here; the class in SmallHeap performs the same operation on
    header bytes. */
module HeapChain {

  /** Bytes of a block header: two 16-bit and two 32-bit fields. */
  const HDR := 12
  /** Least payload that malloc hands out or leaves behind in a split. */
  const MIN := 12
  const TWO32 := 0x1_0000_0000

  /** A block header at byte offset `at` of the region. */
  datatype Block = Block(at: nat, used: bool)

  type Chain = seq<Block>

  /** RT_ALIGN(n, 4) in 32 bits: the last three numbers wrap to 0. */
  function Align4(n: nat): (r: nat)
    ensures r % 4 == 0 && r < TWO32
    ensures n + 3 < TWO32 ==> n <= r < n + 4
  {
    var up := (n + 3) % TWO32;
    up - up % 4
  }

  /** The request after rounding: aligned and at least MIN. */
  function Request(size: nat): (r: nat)
    ensures r % 4 == 0 && r >= MIN
  {
    if Align4(size) < MIN then MIN else Align4(size)
  }

  /** The rounded request is enough exactly for sizes that do not wrap. */
  lemma RequestHolds(size: nat)
    requires size < TWO32
    ensures Request(size) >= size <==> size + 3 < TWO32
    ensures size + 3 >= TWO32 ==> Align4(size) == 0
  {
  }

  lemma AlignedStays(n: nat)
    requires n % 4 == 0 && n < TWO32
    ensures Align4(n) == n <= Request(n)
  {
  }

  /** Rounding a rounded size changes nothing. */
  lemma RoundTwice(n: nat)
    ensures Align4(Align4(n)) == Align4(n) && Request(Align4(n)) == Request(n)
  {
  }

  /** The blocks tile the region [0, ms + HDR) and the stub sits behind it. */
  ghost predicate Tiled(c: Chain, ms: nat) {
    && |c| >= 2
    && c[0].at == 0
    && c[|c| - 1] == Block(ms + HDR, true)
    && (forall i, j | 0 <= i < j < |c| :: c[i].at + HDR <= c[j].at)
  }

  /** Blocks i and i + 1 are both free. */
  predicate FreePair(c: Chain, i: int) {
    0 <= i < |c| - 1 && !c[i].used && !c[i + 1].used
  }

  ghost predicate NoTwoFree(c: Chain) {
    forall i :: !FreePair(c, i)
  }

  /** The global invariant of the block list. */
  ghost predicate Sound(c: Chain, ms: nat) {
    Tiled(c, ms) && NoTwoFree(c)
  }

  /** Every block starts on a word boundary. */
  ghost predicate Aligned(c: Chain) {
    forall i | 0 <= i < |c| :: c[i].at % 4 == 0
  }

  lemma Apart(c: Chain, ms: nat, i: nat, j: nat)
    requires Tiled(c, ms) && i < j < |c|
    ensures c[i].at + HDR <= c[j].at <= ms + HDR
    ensures j == |c| - 1 ==> c[j] == Block(ms + HDR, true)
    ensures c[0].at == 0
  {
  }

  /** Payload bytes of block i. */
  function Room(c: Chain, i: nat): int
    requires i + 1 < |c|
  {
    c[i + 1].at - c[i].at - HDR
  }

  /** k is a payload byte of the used block i. */
  ghost predicate PayloadOf(c: Chain, i: nat, k: int) {
    i + 1 < |c| && c[i].used && c[i].at + HDR <= k < c[i + 1].at
  }

  /** k is a payload byte of some used block. */
  ghost predicate Live(c: Chain, k: int) {
    exists i: nat :: PayloadOf(c, i, k)
  }

  /** Index of the lowest free block, or of the end stub. */
  function Lowest(c: Chain): (r: nat)
    requires |c| > 0
    ensures r < |c|
    ensures r == |c| - 1 || !c[r].used
    ensures forall j | 0 <= j < r :: c[j].used
  {
    LowestFrom(c, 0)
  }

  function LowestFrom(c: Chain, i: nat): (r: nat)
    requires i < |c|
    ensures i <= r < |c|
    ensures r == |c| - 1 || !c[r].used
    ensures forall j | i <= j < r :: c[j].used
    decreases |c| - i
  {
    if i == |c| - 1 || !c[i].used then i else LowestFrom(c, i + 1)
  }

  lemma LowestIs(c: Chain, r: nat)
    requires r < |c|
    requires r == |c| - 1 || !c[r].used
    requires forall j | 0 <= j < r :: c[j].used
    ensures Lowest(c) == r
  {
    assert Lowest(c) <= r;
  }

  /** Sum of the extents of the used blocks before index n. */
  function UsedBefore(c: Chain, n: nat): int
    requires n < |c|
  {
    if n == 0 then 0
    else UsedBefore(c, n - 1) + if c[n - 1].used then c[n].at - c[n - 1].at else 0
  }

  function UsedTotal(c: Chain): int
    requires |c| > 0
  {
    UsedBefore(c, |c| - 1)
  }

  // ---- Searching -------------------------------------------------------------

  /** Block i can serve an (already rounded) request, as the scan in rt_malloc tests it. */
  ghost predicate Fits(c: Chain, ms: nat, size: nat, i: nat) {
    i + 1 < |c| && !c[i].used && c[i].at < ms - size && Room(c, i) >= size
  }

  /** i is the lowest block that can serve the request. */
  ghost predicate IsFirstFit(c: Chain, ms: nat, size: nat, i: nat) {
    Fits(c, ms, size, i) && forall j: nat | j < i :: !Fits(c, ms, size, j)
  }

  ghost predicate NoFit(c: Chain, ms: nat, size: nat) {
    forall j: nat :: !Fits(c, ms, size, j)
  }

  // ---- Operations --------------------------------------------------------------

  function SetUsed(c: Chain, i: nat, used: bool): Chain
    requires i < |c|
  {
    c[i := Block(c[i].at, used)]
  }

  /** Cut block i behind `size` payload bytes: the front gets flag `used`, the rest is free. */
  function Split(c: Chain, i: nat, size: nat, used: bool): Chain
    requires i < |c|
  {
    seq(|c| + 1, j requires 0 <= j < |c| + 1 =>
      if j < i then c[j]
      else if j == i then Block(c[i].at, used)
      else if j == i + 1 then Block(c[i].at + HDR + size, false)
      else c[j - 1])
  }

  /** Serve a rounded request from block i: split it when the rest can hold MIN bytes. */
  function Allocate(c: Chain, i: nat, size: nat): Chain
    requires i + 1 < |c|
  {
    if Room(c, i) >= size + HDR + MIN then Split(c, i, size, true) else SetUsed(c, i, true)
  }

  /** Remove the border between block i and block i + 1. */
  function Join(c: Chain, i: nat): Chain
    requires i + 1 < |c|
  {
    seq(|c| - 1, j requires 0 <= j < |c| - 1 => if j <= i then c[j] else c[j + 1])
  }

  /** Forward half of plug_holes. */
  function PlugForward(c: Chain, i: nat): Chain {
    if i + 2 < |c| && !c[i + 1].used then Join(c, i) else c
  }

  /** Backward half of plug_holes. */
  function PlugBackward(c: Chain, i: nat): Chain {
    if 0 < i < |c| && !c[i - 1].used then Join(c, i - 1) else c
  }

  function Plug(c: Chain, i: nat): Chain {
    PlugBackward(PlugForward(c, i), i)
  }

  /** rt_realloc keeps the block where it is: the size is the same, or the tail can be split off. */
  predicate InPlace(c: Chain, i: nat, newsize: nat)
    requires i + 1 < |c|
  {
    Room(c, i) == Align4(newsize) || Align4(newsize) + HDR + MIN < Room(c, i)
  }

  /** The blocks whose payload an in-place rt_realloc keeps: all of them, block i up to the new size. */
  function Resized(c: Chain, i: nat, newsize: nat): Chain
    requires i + 1 < |c|
  {
    if Room(c, i) == Align4(newsize) then c else Split(c, i, Align4(newsize), true)
  }

  function Release(c: Chain, i: nat): Chain
    requires i + 1 < |c|
  {
    Plug(SetUsed(c, i, false), i)
  }

  /** Shrink the used block i to `size` payload bytes in place. */
  function Shrink(c: Chain, i: nat, size: nat): Chain
    requires i + 1 < |c|
  {
    Plug(Split(c, i, size, true), i + 1)
  }

  // ---- Invariance --------------------------------------------------------------

  lemma SplitTiled(c: Chain, ms: nat, i: nat, size: nat, used: bool)
    requires Tiled(c, ms) && i + 1 < |c| && Room(c, i) >= size + HDR
    ensures Tiled(Split(c, i, size, used), ms)
  {
  }

  lemma JoinTiled(c: Chain, ms: nat, i: nat)
    requires Tiled(c, ms) && i + 2 < |c|
    ensures Tiled(Join(c, i), ms)
  {
  }

  lemma AllocateSound(c: Chain, ms: nat, i: nat, size: nat)
    requires Sound(c, ms) && i + 1 < |c| && !c[i].used && Room(c, i) >= size
    ensures Sound(Allocate(c, i, size), ms)
  {
    var d := Allocate(c, i, size);
    if Room(c, i) >= size + HDR + MIN {
      SplitTiled(c, ms, i, size, true);
    }
    assert !FreePair(c, i);
    forall j ensures !FreePair(d, j) {
      assert !FreePair(c, j) && !FreePair(c, j - 1);
    }
  }

  lemma PlugForwardSound(c: Chain, ms: nat, i: nat)
    requires Tiled(c, ms) && i + 1 < |c|
    requires forall j | j != i && j != i - 1 :: !FreePair(c, j)
    ensures Tiled(PlugForward(c, i), ms) && i + 1 < |PlugForward(c, i)|
    ensures forall j | j != i - 1 && (j != i || !c[i].used) :: !FreePair(PlugForward(c, i), j)
  {
    if i + 2 < |c| && !c[i + 1].used {
      var d := Join(c, i);
      JoinTiled(c, ms, i);
      assert !FreePair(c, i + 1);
      forall j | j != i - 1 && j != i ensures !FreePair(d, j) {
        assert if j < i then !FreePair(c, j) else !FreePair(c, j + 1);
      }
    }
  }

  /** The free neighbours of a joined chain. */
  lemma JoinedPair(c: Chain, i: nat, j: int)
    requires i + 2 < |c| && !c[i].used && !c[i + 1].used
    ensures FreePair(Join(c, i), j) <==> FreePair(c, if j < i then j else j + 1)
  {
  }

  lemma PlugBackwardSound(c: Chain, ms: nat, i: nat)
    requires Tiled(c, ms) && i + 1 < |c| && !c[i].used
    requires forall j | j != i - 1 :: !FreePair(c, j)
    ensures Sound(PlugBackward(c, i), ms)
  {
    if 0 < i && !c[i - 1].used {
      var d := Join(c, i - 1);
      JoinTiled(c, ms, i - 1);
      assert !FreePair(c, i) && !FreePair(c, i - 2);
      forall j ensures !FreePair(d, j) {
        JoinedPair(c, i - 1, j);
      }
    } else {
      assert !FreePair(c, i - 1);
    }
  }

  /** Plugging around block i mends a chain whose only free neighbours involve block i. */
  lemma PlugSound(c: Chain, ms: nat, i: nat)
    requires Tiled(c, ms) && i + 1 < |c| && !c[i].used
    requires forall j | j != i && j != i - 1 :: !FreePair(c, j)
    ensures Sound(Plug(c, i), ms)
  {
    PlugForwardSound(c, ms, i);
    PlugBackwardSound(PlugForward(c, i), ms, i);
  }

  lemma ReleaseSound(c: Chain, ms: nat, i: nat)
    requires Sound(c, ms) && i + 1 < |c| && c[i].used
    ensures Sound(Release(c, i), ms)
  {
    var d := SetUsed(c, i, false);
    assert forall j | j != i && j != i - 1 :: FreePair(d, j) ==> FreePair(c, j);
    PlugSound(d, ms, i);
  }

  lemma ShrinkSound(c: Chain, ms: nat, i: nat, size: nat)
    requires Sound(c, ms) && i + 1 < |c| && c[i].used && Room(c, i) >= size + HDR
    ensures Sound(Shrink(c, i, size), ms)
  {
    SplitTiled(c, ms, i, size, true);
    var d := Split(c, i, size, true);
    forall j | j != i + 1 && j != i ensures !FreePair(d, j) {
      assert !FreePair(c, j) && !FreePair(c, j - 1);
    }
    PlugSound(d, ms, i + 1);
  }

  lemma SplitAligned(c: Chain, i: nat, size: nat, used: bool)
    requires Aligned(c) && i < |c| && size % 4 == 0
    ensures Aligned(Split(c, i, size, used))
  {
    var d := Split(c, i, size, used);
    forall j | 0 <= j < |d| ensures d[j].at % 4 == 0 {
      if j != i + 1 {
        assert d[j].at == c[if j <= i then j else j - 1].at;
      } else {
        assert d[j].at == c[i].at + HDR + size;
      }
    }
  }

  lemma AllocateAligned(c: Chain, i: nat, size: nat)
    requires Aligned(c) && i + 1 < |c| && size % 4 == 0
    ensures Aligned(Allocate(c, i, size))
  {
    SplitAligned(c, i, size, true);
  }

  lemma PlugAligned(c: Chain, i: nat)
    requires Aligned(c)
    ensures Aligned(Plug(c, i))
  {
  }

  // ---- The lowest free block -------------------------------------------------------

  /** plug_holes keeps the lowest free block where it is: a block in front of it absorbs it first. */
  lemma PlugForwardLowest(c: Chain, i: nat)
    requires i + 1 < |c| && !c[i].used
    ensures i < |PlugForward(c, i)| && Lowest(PlugForward(c, i)) == Lowest(c) <= i
  {
    assert Lowest(c) <= i;
    LowestIs(PlugForward(c, i), Lowest(c));
  }

  lemma PlugBackwardLowest(c: Chain, i: nat)
    requires i + 1 < |c| && !c[i].used
    ensures |PlugBackward(c, i)| > 0 && Lowest(PlugBackward(c, i)) == Lowest(c)
    ensures 0 < i && !c[i - 1].used ==> Lowest(c) <= i - 1
  {
    assert Lowest(c) <= i;
    if 0 < i && !c[i - 1].used {
      assert Lowest(c) <= i - 1;
    }
    LowestIs(PlugBackward(c, i), Lowest(c));
  }

  /** Freeing block i makes it the lowest free block unless a lower one exists. */
  lemma FreedLowest(c: Chain, i: nat)
    requires i + 1 < |c| && c[i].used
    ensures Lowest(SetUsed(c, i, false)) == if i < Lowest(c) then i else Lowest(c)
    ensures Lowest(c) != i
  {
    LowestIs(SetUsed(c, i, false), if i < Lowest(c) then i else Lowest(c));
  }

  /** Cutting the used block i makes its tail the lowest free block unless a lower one exists. */
  lemma CutLowest(c: Chain, i: nat, size: nat)
    requires i + 1 < |c| && c[i].used
    ensures Lowest(Split(c, i, size, true)) == if i < Lowest(c) then i + 1 else Lowest(c)
    ensures Lowest(c) != i
  {
    LowestIs(Split(c, i, size, true), if i < Lowest(c) then i + 1 else Lowest(c));
  }

  lemma AllocateUpTo(c: Chain, i: nat, size: nat)
    requires i + 1 < |c| && !c[i].used
    ensures i + 1 < |Allocate(c, i, size)| && Allocate(c, i, size)[i] == Block(c[i].at, true)
    ensures Allocate(c, i, size)[i + 1].at ==
      if Room(c, i) >= size + HDR + MIN then c[i].at + HDR + size else c[i + 1].at
    ensures forall j | 0 <= j < i :: Allocate(c, i, size)[j] == c[j]
  {
  }

  /** Taking a block other than the lowest free one leaves the lowest free one in place. */
  lemma AllocateLowest(c: Chain, i: nat, size: nat)
    requires i + 1 < |c| && !c[i].used && Lowest(c) != i
    ensures |Allocate(c, i, size)| > 0 && Lowest(Allocate(c, i, size)) == Lowest(c) < i
  {
    assert Lowest(c) < i;
    LowestIs(Allocate(c, i, size), Lowest(c));
  }

  // ---- Accounting ----------------------------------------------------------------

  lemma {:induction false} UsedPrefix(c: Chain, d: Chain, n: nat)
    requires n < |c| && n < |d| && c[..n] == d[..n] && c[n].at == d[n].at
    ensures UsedBefore(c, n) == UsedBefore(d, n)
  {
    if n > 0 {
      assert c[n - 1] == c[..n][n - 1] == d[..n][n - 1] == d[n - 1];
      assert c[..n - 1] == c[..n][..n - 1] == d[..n][..n - 1] == d[..n - 1];
      UsedPrefix(c, d, n - 1);
    }
  }

  /** Two chains that agree from c[m..] on, up to a shift of indices, gain the same used bytes there. */
  lemma {:induction false} UsedSuffix(c: Chain, d: Chain, m: nat, shift: int, n: nat)
    requires m <= n < |c| && m + shift >= 0 && |d| == |c| + shift
    requires forall j | m <= j < |c| :: d[j + shift] == c[j]
    ensures UsedBefore(c, n) - UsedBefore(c, m) == UsedBefore(d, n + shift) - UsedBefore(d, m + shift)
  {
    if n > m {
      UsedSuffix(c, d, m, shift, n - 1);
      assert d[n - 1 + shift] == c[n - 1] && d[n + shift] == c[n];
    }
  }

  lemma SetUsedTotal(c: Chain, i: nat, used: bool)
    requires i + 1 < |c| && c[i].used != used
    ensures UsedTotal(SetUsed(c, i, used)) ==
      UsedTotal(c) + if used then c[i + 1].at - c[i].at else c[i].at - c[i + 1].at
  {
    hide UsedBefore;
    var d := SetUsed(c, i, used);
    UsedPrefix(c, d, i);
    UsedStep(c, i);
    UsedStep(d, i);
    UsedSuffix(c, d, i + 1, 0, |c| - 1);
  }

  lemma UsedStep(c: Chain, i: nat)
    requires i + 1 < |c|
    ensures UsedBefore(c, i + 1) == UsedBefore(c, i) + if c[i].used then c[i + 1].at - c[i].at else 0
  {
  }

  lemma SplitTotal(c: Chain, i: nat, size: nat)
    requires i + 1 < |c|
    ensures UsedTotal(Split(c, i, size, true))
         == UsedTotal(c) + HDR + size - if c[i].used then c[i + 1].at - c[i].at else 0
  {
    var d := Split(c, i, size, true);
    UsedPrefix(c, d, i);
    UsedSuffix(c, d, i + 1, 1, |c| - 1);
    assert UsedBefore(d, i + 2) == UsedBefore(d, i + 1) == UsedBefore(d, i) + HDR + size;
  }

  /** Removing the border between two free blocks does not change the used bytes. */
  lemma JoinTotal(c: Chain, i: nat)
    requires i + 2 < |c| && !c[i].used && !c[i + 1].used
    ensures UsedTotal(Join(c, i)) == UsedTotal(c)
  {
    var d := Join(c, i);
    UsedPrefix(c, d, i);
    assert UsedBefore(c, i + 2) == UsedBefore(c, i + 1) == UsedBefore(c, i);
    assert UsedBefore(d, i + 1) == UsedBefore(d, i);
    UsedSuffix(c, d, i + 2, -1, |c| - 1);
  }

  lemma PlugTotal(c: Chain, i: nat)
    requires i + 1 < |c| && !c[i].used
    ensures |Plug(c, i)| > 0 && UsedTotal(Plug(c, i)) == UsedTotal(c)
  {
    var d := PlugForward(c, i);
    if i + 2 < |c| && !c[i + 1].used {
      JoinTotal(c, i);
    }
    if 0 < i && !d[i - 1].used {
      JoinTotal(d, i - 1);
    }
  }

  lemma AllocateTotal(c: Chain, ms: nat, i: nat, size: nat)
    requires Sound(c, ms) && i + 1 < |c| && !c[i].used && Room(c, i) >= size
    ensures Sound(Allocate(c, i, size), ms)
    ensures UsedTotal(Allocate(c, i, size))
         == UsedTotal(c) + Allocate(c, i, size)[i + 1].at - c[i].at
  {
    AllocateSound(c, ms, i, size);
    if Room(c, i) >= size + HDR + MIN {
      SplitTotal(c, i, size);
    } else {
      SetUsedTotal(c, i, true);
    }
  }

  lemma ReleaseTotal(c: Chain, ms: nat, i: nat)
    requires Sound(c, ms) && i + 1 < |c| && c[i].used
    ensures Sound(Release(c, i), ms)
    ensures UsedTotal(Release(c, i)) == UsedTotal(c) - (c[i + 1].at - c[i].at)
  {
    ReleaseSound(c, ms, i);
    SetUsedTotal(c, i, false);
    PlugTotal(SetUsed(c, i, false), i);
  }

  lemma ShrinkTotal(c: Chain, ms: nat, i: nat, size: nat)
    requires Sound(c, ms) && i + 1 < |c| && c[i].used && Room(c, i) >= size + HDR
    ensures Sound(Shrink(c, i, size), ms)
    ensures UsedTotal(Shrink(c, i, size)) == UsedTotal(c) - (Room(c, i) - size)
  {
    ShrinkSound(c, ms, i, size);
    SplitTotal(c, i, size);
    PlugTotal(Split(c, i, size, true), i + 1);
  }
}
