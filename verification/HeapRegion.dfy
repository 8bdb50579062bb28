/** The byte region of the small-memory heap and the headers stored in it. */
module HeapRegion {
  import opened CText
  import opened HeapChain
  import MemoryOps

  const MAGIC := 0x1ea0
  const TWO16 := 0x1_0000

  /** struct heap_mem */
  datatype Head = Head(magic: nat, used: nat, next: nat, prev: nat)

  function Get16(b: Text, o: nat): (r: nat)
    requires o + 2 <= |b|
    ensures r < TWO16
  {
    (b[o] as int) + 0x100 * (b[o + 1] as int)
  }

  function Get32(b: Text, o: nat): (r: nat)
    requires o + 4 <= |b|
    ensures r < TWO32
  {
    Get16(b, o) + TWO16 * Get16(b, o + 2)
  }

  function HeadOf(b: Text, p: nat): (h: Head)
    requires p + HDR <= |b|
    ensures h.next < TWO32 && h.prev < TWO32
  {
    Head(Get16(b, p), Get16(b, p + 2), Get32(b, p + 4), Get32(b, p + 8))
  }

  /** Only the header bytes at p may differ. */
  ghost predicate Touches(b: Text, d: Text, p: nat) {
    |d| == |b| && forall k | 0 <= k < |b| && !(p <= k < p + HDR) :: d[k] == b[k]
  }

  lemma TouchFrame(b: Text, d: Text, p: nat, q: nat)
    requires Touches(b, d, p) && q + HDR <= |b| && (q + HDR <= p || p + HDR <= q)
    ensures HeadOf(d, q) == HeadOf(b, q)
  {
  }

  /** The header of block i, which is not the stub. */
  function Expected(c: Chain, i: nat): Head
    requires i + 1 < |c|
  {
    Head(MAGIC, if c[i].used then 1 else 0, c[i + 1].at, if i == 0 then 0 else c[i - 1].at)
  }

  /** The header of block i is in place; the stub's prev is not maintained by the source. */
  ghost predicate BlockEncoded(b: Text, c: Chain, i: nat)
    requires i < |c|
  {
    && c[i].at + HDR <= |b|
    && var h := HeadOf(b, c[i].at);
       if i + 1 < |c| then h == Expected(c, i) else h == Head(MAGIC, 1, c[i].at, h.prev)
  }

  /** The region holds the headers of the chain. */
  ghost predicate Encodes(b: Text, c: Chain, ms: nat) {
    && |b| == ms + 2 * HDR < TWO32
    && Tiled(c, ms)
    && forall i: nat | i < |c| :: BlockEncoded(b, c, i)
  }

  /** No payload byte of a used block of c changed. */
  ghost predicate KeepsPayloads(b: Text, d: Text, c: Chain) {
    |d| == |b| && forall i: nat, k: nat | PayloadOf(c, i, k) && k < |b| :: d[k] == b[k]
  }

  lemma TouchKeeps(b: Text, d: Text, c: Chain, ms: nat, p: nat, h: nat)
    requires Tiled(c, ms) && Touches(b, d, p) && h < |c| && c[h].at == p
    ensures KeepsPayloads(b, d, c)
  {
    forall i: nat, k: nat | PayloadOf(c, i, k) && k < |b| ensures d[k] == b[k] {
      if h <= i {
        assert c[h].at <= c[i].at;
      } else {
        assert c[i + 1].at <= c[h].at;
      }
    }
  }

  // ---- What the pointer writes of each operation achieve -----------------------------

  /** Rewriting the header of block h leaves the header of every other block alone. */
  lemma FarHead(b: Text, b1: Text, c: Chain, ms: nat, h: nat, i: nat)
    requires Tiled(c, ms) && |b| == ms + 2 * HDR && h < |c| && i < |c| && h != i
    requires Touches(b, b1, c[h].at)
    ensures c[i].at + HDR <= |b| && HeadOf(b1, c[i].at) == HeadOf(b, c[i].at)
  {
    hide HeadOf;
    if i < |c| - 1 {
      Apart(c, ms, i, |c| - 1);
    }
    assert c[i].at + HDR <= |b|;
    TouchFrame(b, b1, c[h].at, c[i].at);
  }

  /** The two pointer writes of plug_holes that take block i + 1 out of the chain. */
  ghost predicate JoinWrites(b: Text, b1: Text, b2: Text, c: Chain, i: nat)
    requires i + 2 < |c|
  {
    && c[i].at + HDR <= |b| && c[i + 2].at + HDR <= |b|
    && Touches(b, b1, c[i].at)
    && HeadOf(b1, c[i].at) == HeadOf(b, c[i].at).(next := c[i + 2].at)
    && Touches(b1, b2, c[i + 2].at)
    && HeadOf(b2, c[i + 2].at) == HeadOf(b1, c[i + 2].at).(prev := c[i].at)
  }

  lemma JoinSelf(b: Text, b1: Text, b2: Text, c: Chain, ms: nat, i: nat)
    requires Encodes(b, c, ms) && i + 2 < |c| && JoinWrites(b, b1, b2, c, i)
    ensures BlockEncoded(b2, Join(c, i), i)
  {
    assert |b1| == |b2| == |b|;
    hide Tiled, HeadOf, Touches;
    assert BlockEncoded(b, c, i);
    FarHead(b1, b2, c, ms, i + 2, i);
  }

  lemma JoinNext(b: Text, b1: Text, b2: Text, c: Chain, ms: nat, i: nat)
    requires Encodes(b, c, ms) && i + 2 < |c| && JoinWrites(b, b1, b2, c, i)
    ensures BlockEncoded(b2, Join(c, i), i + 1)
  {
    assert |b1| == |b2| == |b|;
    hide Tiled, HeadOf, Touches;
    assert BlockEncoded(b, c, i + 2);
    FarHead(b, b1, c, ms, i, i + 2);
  }

  /** A block away from the join is encoded as before, one place down if it is behind it. */
  lemma JoinOther(b: Text, b2: Text, c: Chain, i: nat, s: nat)
    requires i + 2 < |c| && s < |c| && s != i && s != i + 1 && s != i + 2
    requires BlockEncoded(b, c, s) && c[s].at + HDR <= |b2| && HeadOf(b2, c[s].at) == HeadOf(b, c[s].at)
    ensures BlockEncoded(b2, Join(c, i), if s <= i then s else s - 1)
  {
    hide HeadOf;
  }

  lemma JoinBlock(b: Text, b1: Text, b2: Text, c: Chain, ms: nat, i: nat, s: nat)
    requires Encodes(b, c, ms) && i + 2 < |c| && s < |c| && s != i + 1
    requires JoinWrites(b, b1, b2, c, i)
    ensures BlockEncoded(b2, Join(c, i), if s <= i then s else s - 1)
  {
    assert BlockEncoded(b, c, s);
    hide JoinWrites, Encodes, BlockEncoded, Join;
    if s == i {
      JoinSelf(b, b1, b2, c, ms, i);
    } else if s == i + 2 {
      JoinNext(b, b1, b2, c, ms, i);
    } else {
      JoinFar(b, b1, b2, c, ms, i, s);
      JoinOther(b, b2, c, i, s);
    }
  }

  /** Both writes leave the header of any other block alone. */
  lemma JoinFar(b: Text, b1: Text, b2: Text, c: Chain, ms: nat, i: nat, s: nat)
    requires Encodes(b, c, ms) && i + 2 < |c| && s < |c| && s != i && s != i + 2
    requires JoinWrites(b, b1, b2, c, i)
    ensures c[s].at + HDR <= |b| == |b2| && HeadOf(b2, c[s].at) == HeadOf(b, c[s].at)
  {
    assert |b1| == |b2| == |b|;
    hide Tiled, HeadOf, Touches;
    FarHead(b, b1, c, ms, i, s);
    FarHead(b1, b2, c, ms, i + 2, s);
  }

  lemma JoinEncodes(b: Text, b1: Text, b2: Text, c: Chain, ms: nat, i: nat)
    requires Encodes(b, c, ms) && i + 2 < |c|
    requires JoinWrites(b, b1, b2, c, i)
    ensures Encodes(b2, Join(c, i), ms)
    ensures KeepsPayloads(b, b2, c)
  {
    JoinTiled(c, ms, i);
    TouchKeeps(b, b1, c, ms, c[i].at, i);
    TouchKeeps(b1, b2, c, ms, c[i + 2].at, i + 2);
    hide Tiled, HeadOf, BlockEncoded;
    forall j: nat | j < |c| - 1 ensures BlockEncoded(b2, Join(c, i), j) {
      JoinBlock(b, b1, b2, c, ms, i, if j <= i then j else j + 1);
    }
  }

  /** Marking block i used or free rewrites its flag (and magic) only. */
  lemma FlagEncodes(b: Text, b1: Text, c: Chain, ms: nat, i: nat, used: bool)
    requires Encodes(b, c, ms) && i + 1 < |c|
    requires Touches(b, b1, c[i].at) && c[i].at + HDR <= |b|
    requires HeadOf(b1, c[i].at) == HeadOf(b, c[i].at).(magic := MAGIC, used := if used then 1 else 0)
    ensures Encodes(b1, SetUsed(c, i, used), ms)
    ensures KeepsPayloads(b, b1, c)
  {
    TouchKeeps(b, b1, c, ms, c[i].at, i);
    var d := SetUsed(c, i, used);
    assert Tiled(d, ms) && |b1| == |b|;
    hide Tiled, HeadOf, Touches, KeepsPayloads, BlockEncoded;
    forall j: nat | j < |c| ensures BlockEncoded(b1, d, j) {
      FlagBlock(b, b1, c, ms, i, used, j);
    }
  }

  lemma FlagBlock(b: Text, b1: Text, c: Chain, ms: nat, i: nat, used: bool, j: nat)
    requires Encodes(b, c, ms) && i + 1 < |c| && j < |c|
    requires Touches(b, b1, c[i].at) && c[i].at + HDR <= |b|
    requires HeadOf(b1, c[i].at) == HeadOf(b, c[i].at).(magic := MAGIC, used := if used then 1 else 0)
    ensures BlockEncoded(b1, SetUsed(c, i, used), j)
  {
    hide HeadOf;
    assert BlockEncoded(b, c, j) && |b1| == |b|;
    if j != i {
      FarHead(b, b1, c, ms, i, j);
    }
    hide Tiled, Touches;
  }

  /** The header writes that cut block i behind `size` payload bytes. */
  ghost predicate SplitWrites(b: Text, b1: Text, b2: Text, b3: Text, c: Chain, i: nat, size: nat)
    requires i + 1 < |c|
  {
    var p2 := c[i].at + HDR + size;
    && p2 + HDR <= |b| && c[i + 1].at + HDR <= |b|
    && Touches(b, b1, p2)
    && HeadOf(b1, p2) == Head(MAGIC, 0, c[i + 1].at, c[i].at)
    && Touches(b1, b2, c[i].at)
    && HeadOf(b2, c[i].at) == HeadOf(b1, c[i].at).(magic := MAGIC, used := 1, next := p2)
    && if i + 2 < |c| then
         Touches(b2, b3, c[i + 1].at) && HeadOf(b3, c[i + 1].at) == HeadOf(b2, c[i + 1].at).(prev := p2)
       else b3 == b2
  }

  /** Writing a header inside the payload of block i leaves all headers of the chain alone. */
  lemma InnerTouch(b: Text, b1: Text, c: Chain, ms: nat, i: nat, p: nat, j: nat)
    requires Tiled(c, ms) && |b| == ms + 2 * HDR && i + 1 < |c| && j < |c|
    requires c[i].at + HDR <= p && p + HDR <= c[i + 1].at && Touches(b, b1, p)
    ensures c[j].at + HDR <= |b| && HeadOf(b1, c[j].at) == HeadOf(b, c[j].at)
  {
    hide HeadOf;
    if j < |c| - 1 { Apart(c, ms, j, |c| - 1); }
    if j < i { Apart(c, ms, j, i); }
    if i + 1 < j { Apart(c, ms, i + 1, j); }
    TouchFrame(b, b1, p, c[j].at);
  }

  lemma SplitOldHead(b: Text, b1: Text, b2: Text, b3: Text, c: Chain, ms: nat, i: nat, size: nat, s: nat)
    requires Tiled(c, ms) && |b| == ms + 2 * HDR && i + 1 < |c| && Room(c, i) >= size + HDR && s < |c|
    requires SplitWrites(b, b1, b2, b3, c, i, size)
    ensures c[s].at + HDR <= |b| == |b3|
    ensures s != i && s != i + 1 ==> HeadOf(b3, c[s].at) == HeadOf(b, c[s].at)
    ensures s == i ==>
      HeadOf(b3, c[i].at) == HeadOf(b, c[i].at).(magic := MAGIC, used := 1, next := c[i].at + HDR + size)
    ensures s == i + 1 && s < |c| - 1 ==> HeadOf(b3, c[s].at) == HeadOf(b, c[s].at).(prev := c[i].at + HDR + size)
    ensures s == i + 1 && s == |c| - 1 ==> HeadOf(b3, c[s].at) == HeadOf(b, c[s].at)
  {
    assert |b1| == |b2| == |b3| == |b|;
    hide Tiled, HeadOf, Touches;
    InnerTouch(b, b1, c, ms, i, c[i].at + HDR + size, s);
    if s != i { FarHead(b1, b2, c, ms, i, s); }
    if i + 2 < |c| && s != i + 1 { FarHead(b2, b3, c, ms, i + 1, s); }
  }

  lemma SplitNewHead(b: Text, b1: Text, b2: Text, b3: Text, c: Chain, ms: nat, i: nat, size: nat)
    requires Tiled(c, ms) && |b| == ms + 2 * HDR && i + 1 < |c| && Room(c, i) >= size + HDR
    requires SplitWrites(b, b1, b2, b3, c, i, size)
    ensures c[i].at + HDR + size + HDR <= |b| == |b3|
    ensures HeadOf(b3, c[i].at + HDR + size) == Head(MAGIC, 0, c[i + 1].at, c[i].at)
  {
    assert |b1| == |b2| == |b3| == |b|;
    hide HeadOf;
    var p2 := c[i].at + HDR + size;
    TouchFrame(b1, b2, c[i].at, p2);
    if i + 2 < |c| { TouchFrame(b2, b3, c[i + 1].at, p2); }
  }

  lemma SplitBlock(b: Text, b1: Text, b2: Text, b3: Text, c: Chain, ms: nat, i: nat, size: nat, j: nat)
    requires Encodes(b, c, ms) && i + 1 < |c| && Room(c, i) >= size + HDR && j <= |c|
    requires SplitWrites(b, b1, b2, b3, c, i, size)
    ensures BlockEncoded(b3, Split(c, i, size, true), j)
  {
    hide Tiled, HeadOf, SplitWrites;
    if j == i + 1 {
      SplitNewHead(b, b1, b2, b3, c, ms, i, size);
    } else {
      var s := if j <= i then j else j - 1;
      assert BlockEncoded(b, c, s);
      SplitOldHead(b, b1, b2, b3, c, ms, i, size, s);
    }
  }

  lemma SplitEncodes(b: Text, b1: Text, b2: Text, b3: Text, c: Chain, ms: nat, i: nat, size: nat)
    requires Encodes(b, c, ms) && i + 1 < |c| && Room(c, i) >= size + HDR
    requires SplitWrites(b, b1, b2, b3, c, i, size)
    ensures Encodes(b3, Split(c, i, size, true), ms)
    ensures KeepsPayloads(b, b3, Split(c, i, size, true))
  {
    var d := Split(c, i, size, true);
    SplitTiled(c, ms, i, size, true);
    TouchKeeps(b, b1, d, ms, d[i + 1].at, i + 1);
    TouchKeeps(b1, b2, d, ms, d[i].at, i);
    if i + 2 < |c| { TouchKeeps(b2, b3, d, ms, d[i + 2].at, i + 2); }
    hide Tiled, HeadOf, BlockEncoded;
    forall j: nat | j < |d| ensures BlockEncoded(b3, d, j) {
      SplitBlock(b, b1, b2, b3, c, ms, i, size, j);
    }
  }

  // ---- Payloads across the steps of one operation --------------------------------------

  /** Every payload byte of c is a payload byte of d. */
  ghost predicate PayloadsWithin(c: Chain, d: Chain) {
    forall i: nat, k: int | PayloadOf(c, i, k) :: Live(d, k)
  }

  lemma KeepsTrans(b: Text, b1: Text, b2: Text, c: Chain, d: Chain)
    requires KeepsPayloads(b, b1, c) && KeepsPayloads(b1, b2, d) && PayloadsWithin(c, d)
    ensures KeepsPayloads(b, b2, c)
  {
    forall i: nat, k: nat | PayloadOf(c, i, k) && k < |b| ensures b2[k] == b[k] {
      assert Live(d, k);
      var j: nat :| PayloadOf(d, j, k);
    }
  }

  lemma SplitKeeps(b: Text, d: Text, c: Chain, i: nat, size: nat)
    requires i + 1 < |c| && !c[i].used
    requires KeepsPayloads(b, d, Split(c, i, size, true))
    ensures KeepsPayloads(b, d, c)
  {
    forall s: nat, k: nat | PayloadOf(c, s, k) && k < |b| ensures d[k] == b[k] {
      assert PayloadOf(Split(c, i, size, true), if s < i then s else s + 1, k);
    }
  }

  /** Joining free blocks leaves the used ones as they are. */
  lemma JoinPayloads(c: Chain, i: nat)
    requires i + 2 < |c| && !c[i].used && !c[i + 1].used
    ensures PayloadsWithin(c, Join(c, i))
  {
    var d := Join(c, i);
    forall s: nat, k: int | PayloadOf(c, s, k) ensures Live(d, k) {
      assert PayloadOf(d, if s < i then s else s - 1, k);
    }
  }

  lemma PlugForwardPayloads(c: Chain, i: nat)
    requires i + 1 < |c| && !c[i].used
    ensures PayloadsWithin(c, PlugForward(c, i))
  {
    if i + 2 < |c| && !c[i + 1].used {
      JoinPayloads(c, i);
    } else {
      forall s: nat, k: int | PayloadOf(c, s, k) ensures Live(c, k) {}
    }
  }

  lemma KeepsSame(b: Text, c: Chain)
    ensures KeepsPayloads(b, b, c)
  {
  }

  /** Freeing changes no payload byte, not even of the freed block. */
  lemma FreeKeeps(b: Text, b1: Text, b2: Text, c: Chain, i: nat)
    requires i + 1 < |c| && c[i].used
    requires KeepsPayloads(b, b1, c) && KeepsPayloads(b1, b2, SetUsed(c, i, false))
    ensures KeepsPayloads(b, b2, SetUsed(c, i, false))
  {
    forall s: nat, k: nat | PayloadOf(SetUsed(c, i, false), s, k) && k < |b| ensures b2[k] == b[k] {
      assert PayloadOf(c, s, k);
    }
  }

  /** A payload byte belongs to no header. */
  lemma StoreEncodes(b: Text, v: Byte, c: Chain, ms: nat, i: nat, k: nat)
    requires Encodes(b, c, ms) && PayloadOf(c, i, k)
    ensures k < |b| && Encodes(b[k := v], c, ms)
  {
    PayloadInside(c, ms, i, k);
    WriteEncodes(b, b[k := v], c, ms, i, k, 1);
  }

  /** Writes inside the payload of block i leave all headers alone. */
  lemma WriteEncodes(b: Text, d: Text, c: Chain, ms: nat, i: nat, lo: nat, n: nat)
    requires Encodes(b, c, ms) && |d| == |b|
    requires n > 0 ==> PayloadOf(c, i, lo) && PayloadOf(c, i, lo + n - 1)
    requires forall k | 0 <= k < |b| && !(lo <= k < lo + n) :: d[k] == b[k]
    ensures Encodes(d, c, ms)
  {
    hide Tiled, HeadOf;
    forall j: nat | j < |c| ensures BlockEncoded(d, c, j) {
      assert BlockEncoded(b, c, j);
      if n > 0 {
        HeaderOutside(c, ms, i, j);
      }
      HeadUnchanged(b, d, lo, n, c[j].at);
    }
  }

  lemma HeadUnchanged(b: Text, d: Text, lo: nat, n: nat, p: nat)
    requires |d| == |b| && p + HDR <= |b| && (n == 0 || p + HDR <= lo || lo + n <= p)
    requires forall k | 0 <= k < |b| && !(lo <= k < lo + n) :: d[k] == b[k]
    ensures HeadOf(d, p) == HeadOf(b, p)
  {
  }

  lemma HeaderOutside(c: Chain, ms: nat, i: nat, j: nat)
    requires Tiled(c, ms) && i + 1 < |c| && j < |c|
    ensures c[j].at + HDR <= c[i].at + HDR || c[i + 1].at <= c[j].at
  {
    if j < i { Apart(c, ms, j, i); }
    if i + 1 < j { Apart(c, ms, i + 1, j); }
  }

  lemma PayloadInside(c: Chain, ms: nat, i: nat, k: nat)
    requires Tiled(c, ms) && PayloadOf(c, i, k)
    ensures k < ms + HDR
  {
    if i + 1 < |c| - 1 { Apart(c, ms, i + 1, |c| - 1); }
  }

  // ---- Moving a payload ------------------------------------------------------------------

  /** The n bytes at src before are the n bytes at dst now. */
  ghost predicate Arrived(b: Text, d: Text, src: int, dst: int, n: int) {
    && 0 <= src <= src + n <= |b|
    && 0 <= dst <= dst + n <= |d|
    && d[dst..dst + n] == b[src..src + n]
  }

  /** Where block i of c is after serving a request from block j. */
  function Successor(c: Chain, i: nat, j: nat, size: nat): nat
    requires j + 1 < |c|
  {
    if j < i && Room(c, j) >= size + HDR + MIN then i + 1 else i
  }

  /** The chain after a move: the request served from block j, block i freed. */
  function Relocated(c: Chain, i: nat, j: nat, size: nat): Chain
    requires i + 1 < |c| && j + 1 < |c|
  {
    Release(Allocate(c, j, size), Successor(c, i, j, size))
  }

  /** After the allocation the old block still has its bytes and the new one has room for n of them. */
  lemma AllocateCovers(c: Chain, ms: nat, i: nat, j: nat, size: nat, n: nat)
    requires Tiled(c, ms) && i + 1 < |c| && c[i].used && j + 1 < |c| && !c[j].used
    requires Room(c, j) >= size >= n && n <= Room(c, i)
    ensures var d := Allocate(c, j, size);
      var i2 := Successor(c, i, j, size);
      && i2 + 1 < |d| && d[i2] == c[i] && d[i2 + 1].at == c[i + 1].at
      && (n > 0 ==> PayloadOf(d, j, c[j].at + HDR) && PayloadOf(d, j, c[j].at + HDR + n - 1))
      && c[i].at + HDR + n <= ms + HDR
      && c[j].at + HDR + n <= ms + HDR
      && (c[i + 1].at <= c[j].at || c[j + 1].at <= c[i].at)
  {
    AllocateUpTo(c, j, size);
    BesideAllocated(c, j, size, i);
    hide Allocate;
    if i < j { Apart(c, ms, i, j); if i + 1 < j { Apart(c, ms, i + 1, j); } }
    if j < i { Apart(c, ms, j, i); if j + 1 < i { Apart(c, ms, j + 1, i); } }
    if i + 1 < |c| - 1 { Apart(c, ms, i + 1, |c| - 1); }
    if j + 1 < |c| - 1 { Apart(c, ms, j + 1, |c| - 1); }
  }

  /** A payload byte of a block other than i and j stays one through the allocation. */
  lemma OtherPayload(c: Chain, i: nat, j: nat, size: nat, s: nat, k: nat)
    requires i + 1 < |c| && c[i].used && j + 1 < |c| && !c[j].used && s != i
    requires PayloadOf(c, s, k)
    ensures var d := Allocate(c, j, size);
      var s2 := if j < s && Room(c, j) >= size + HDR + MIN then s + 1 else s;
      s2 != Successor(c, i, j, size) && PayloadOf(SetUsed(d, Successor(c, i, j, size), false), s2, k)
  {
    hide Allocate;
    BesideAllocated(c, j, size, s);
    BesideAllocated(c, j, size, i);
  }

  /** A block other than the one taken is where it was, one place up if a block in front was split. */
  lemma BesideAllocated(c: Chain, j: nat, size: nat, s: nat)
    requires j + 1 < |c| && s + 1 < |c| && s != j
    ensures var d := Allocate(c, j, size);
      var s2 := if j < s && Room(c, j) >= size + HDR + MIN then s + 1 else s;
      s2 + 1 < |d| && d[s2] == c[s] && d[s2 + 1].at == c[s + 1].at
  {
  }

  lemma PayloadsApart(c: Chain, ms: nat, s: nat, k: nat, j: nat)
    requires Tiled(c, ms) && j + 1 < |c| && PayloadOf(c, s, k) && s != j
    ensures k < c[j].at || c[j + 1].at <= k
  {
    if j + 1 < s { Apart(c, ms, j + 1, s); }
    if s + 1 < j { Apart(c, ms, s + 1, j); }
  }

  /** The steps of a move: b is before, b1 after the allocation, b2 after the copy, b3 after the release. */
  ghost predicate MoveSteps(b: Text, b1: Text, b2: Text, b3: Text,
                            c: Chain, ms: nat, i: nat, j: nat, size: nat, n: nat) {
    && Encodes(b, c, ms) && i + 1 < |c| && c[i].used && j + 1 < |c| && !c[j].used
    && Room(c, j) >= size >= n && n <= Room(c, i)
    && KeepsPayloads(b, b1, c)
    && c[i].at + HDR + n <= |b1| && c[j].at + HDR + n <= |b1|
    && b2 == MemoryOps.Moved(b1, c[j].at + HDR, c[i].at + HDR, n)
    && Successor(c, i, j, size) < |Allocate(c, j, size)|
    && KeepsPayloads(b2, b3, SetUsed(Allocate(c, j, size), Successor(c, i, j, size), false))
  }

  lemma MovedTo(b: Text, dst: nat, src: nat, n: nat, m: nat)
    requires dst + n <= |b| && src + n <= |b| && m < n
    ensures MemoryOps.Moved(b, dst, src, n)[dst + m] == b[src + m]
  {
  }

  lemma MovedByte(b: Text, b1: Text, b2: Text, b3: Text,
                  c: Chain, ms: nat, i: nat, j: nat, size: nat, n: nat, m: nat)
    requires MoveSteps(b, b1, b2, b3, c, ms, i, j, size, n) && m < n
    ensures c[j].at + HDR + m < |b3| == |b| && c[i].at + HDR + m < |b|
    ensures b3[c[j].at + HDR + m] == b[c[i].at + HDR + m]
  {
    hide Tiled, BlockEncoded, Allocate, MemoryOps.Moved;
    AllocateCovers(c, ms, i, j, size, n);
    var d := SetUsed(Allocate(c, j, size), Successor(c, i, j, size), false);
    MovedTo(b1, c[j].at + HDR, c[i].at + HDR, n, m);
    assert PayloadOf(d, j, c[j].at + HDR + m);
    assert PayloadOf(c, i, c[i].at + HDR + m);
  }

  lemma KeptByte(b: Text, b1: Text, b2: Text, b3: Text,
                 c: Chain, ms: nat, i: nat, j: nat, size: nat, n: nat, s: nat, k: nat)
    requires MoveSteps(b, b1, b2, b3, c, ms, i, j, size, n)
    requires PayloadOf(c, s, k) && s != i && k < |b|
    ensures k < |b3| && b3[k] == b[k]
  {
    OtherPayload(c, i, j, size, s, k);
    PayloadsApart(c, ms, s, k, j);
    hide Tiled, BlockEncoded, Allocate;
  }

  lemma RelocateArrives(b: Text, b1: Text, b2: Text, b3: Text,
                        c: Chain, ms: nat, i: nat, j: nat, size: nat, n: nat)
    requires MoveSteps(b, b1, b2, b3, c, ms, i, j, size, n)
    ensures i + 1 < |c| && j + 1 < |c| && Arrived(b, b3, c[i].at + HDR, c[j].at + HDR, n)
  {
    hide MoveSteps;
    MoveBounds(b, b1, b2, b3, c, ms, i, j, size, n);
    var dst, src := c[j].at + HDR, c[i].at + HDR;
    var before, after := b[src..src + n], b3[dst..dst + n];
    forall m: nat | m < n ensures after[m] == before[m] {
      MovedByte(b, b1, b2, b3, c, ms, i, j, size, n, m);
    }
  }

  lemma MoveBounds(b: Text, b1: Text, b2: Text, b3: Text,
                   c: Chain, ms: nat, i: nat, j: nat, size: nat, n: nat)
    requires MoveSteps(b, b1, b2, b3, c, ms, i, j, size, n)
    ensures |b3| == |b| && i + 1 < |c| && j + 1 < |c|
    ensures 0 <= c[i].at && c[i].at + HDR + n <= |b| && 0 <= c[j].at && c[j].at + HDR + n <= |b|
  {
    AllocateCovers(c, ms, i, j, size, n);
    Apart(c, ms, 0, |c| - 1);
    if i > 0 { Apart(c, ms, 0, i); }
    if j > 0 { Apart(c, ms, 0, j); }
    hide Tiled, BlockEncoded, Allocate, KeepsPayloads;
  }

  lemma RelocateKeeps(b: Text, b1: Text, b2: Text, b3: Text,
                      c: Chain, ms: nat, i: nat, j: nat, size: nat, n: nat)
    requires MoveSteps(b, b1, b2, b3, c, ms, i, j, size, n)
    ensures i + 1 < |c| && j + 1 < |c|
    ensures KeepsPayloads(b, b3, SetUsed(c, i, false))
    ensures Arrived(b, b3, c[i].at + HDR, c[j].at + HDR, n)
  {
    RelocateArrives(b, b1, b2, b3, c, ms, i, j, size, n);
    assert |b3| == |b|;
    hide MoveSteps, Arrived;
    forall s: nat, k: nat | PayloadOf(SetUsed(c, i, false), s, k) && k < |b| ensures b3[k] == b[k] {
      assert s != i && PayloadOf(c, s, k);
      KeptByte(b, b1, b2, b3, c, ms, i, j, size, n, s, k);
    }
  }

  lemma PayloadsSelf(c: Chain)
    ensures PayloadsWithin(c, c)
  {
    forall s: nat, k: int | PayloadOf(c, s, k) ensures Live(c, k) {}
  }

  // ---- Clearing a payload ------------------------------------------------------------------

  ghost predicate Zeroed(b: Text, p: nat, n: nat) {
    p + n <= |b| && forall k | p <= k < p + n :: b[k] == 0
  }

  lemma TakenCovers(c: Chain, ms: nat, i: nat, size: nat, n: nat)
    requires Tiled(c, ms) && i + 1 < |c| && !c[i].used && Room(c, i) >= size >= n
    ensures n > 0 ==> PayloadOf(Allocate(c, i, size), i, c[i].at + HDR)
    ensures n > 0 ==> PayloadOf(Allocate(c, i, size), i, c[i].at + HDR + n - 1)
    ensures c[i].at + HDR + n <= ms + HDR
  {
    AllocateUpTo(c, i, size);
    if i + 1 < |c| - 1 { Apart(c, ms, i + 1, |c| - 1); }
  }

  lemma ZeroKeeps(b: Text, b1: Text, b2: Text, c: Chain, ms: nat, i: nat, n: nat)
    requires Tiled(c, ms) && i + 1 < |c| && !c[i].used && n <= Room(c, i)
    requires KeepsPayloads(b, b1, c) && |b2| == |b1|
    requires forall k | 0 <= k < |b1| && !(c[i].at + HDR <= k < c[i].at + HDR + n) :: b2[k] == b1[k]
    ensures KeepsPayloads(b, b2, c)
  {
    forall s: nat, k: nat | PayloadOf(c, s, k) && k < |b| ensures b2[k] == b[k] {
      PayloadsApart(c, ms, s, k, i);
    }
  }
}
