/** rt_malloc_align and rt_free_align on the small-memory heap.

    `base` is the address of the heap region; addresses are 32-bit words, and the pointer to the real
    block is kept in the four bytes in front of the aligned address. */
module AlignedAlloc {
  import opened HeapChain
  import opened HeapRegion
  import opened SmallHeap
  import opened PowerOfTwo
  import opened WordMask
  import CText
  import Modulo
  import HeapLaws
  import HeapMemory

  /** (n + 3) & ~3 in 32 bits */
  function RoundUp(n: nat): nat { Clear((n + 3) % TWO32, 4) }

  lemma SmallPowers()
    ensures Power(1) && Power(2) && Power(4)
  {
    assert Power(2) by { assert Power(1); }
  }

  lemma RoundUpMeans(n: nat)
    requires n < TWO32
    ensures RoundUp(n) == Align4(n)
    ensures n + 3 < TWO32 ==> n <= RoundUp(n) < n + 4
    ensures RoundUp(n) % 4 == 0 && RoundUp(n) + 4 <= TWO32
  {
    hide Clear, Power;
    SmallPowers();
    MaskMeans((n + 3) % TWO32, 4);
  }

  lemma PowerQuads(a: nat)
    requires Power(a)
    ensures a == 1 || a == 2 || (a >= 4 && a % 4 == 0)
  {
    if a > 2 {
      assert Power(a / 2);
    }
  }

  /** An alignment below four becomes four, any other power of two stays. */
  lemma RoundUpPower(a: nat)
    requires Power(a) && a + 3 < TWO32
    ensures Power(RoundUp(a)) && RoundUp(a) == (if a < 4 then 4 else a) && RoundUp(a) % 4 == 0
  {
    hide RoundUp, Power;
    RoundUpMeans(a);
    PowerQuads(a);
    SmallPowers();
  }

  /** The aligned address for a block at address ptr. */
  function AlignedIn(ptr: nat, align: nat): int {
    if Mask(ptr, align) == 0 then ptr + align else Clear(ptr + (align - 1), align)
  }

  predicate MultipleOf(x: int, a: int) { a > 0 && x % a == 0 }

  /** An address aligned to a multiple of four is itself a multiple of four. */
  lemma AlignedToFour(x: nat, align: nat)
    requires MultipleOf(align, 4) && MultipleOf(x, align)
    ensures MultipleOf(x, 4)
  {
    var q, t := x / align, align / 4;
    assert x == align * q;
    assert align * q == 4 * (t * q);
    Modulo.Unique(x, 4, t * q, 0);
  }

  lemma Floor(y: nat, align: nat)
    requires align > 0
    ensures 0 <= y - y % align && MultipleOf(y - y % align, align) && y % align < align
  {
    Modulo.Unique(y - y % align, align, y / align, 0);
  }

  lemma NextMultiple(ptr: nat, align: nat)
    requires MultipleOf(ptr, align)
    ensures MultipleOf(ptr + align, align)
  {
    var q := ptr / align;
    assert ptr == align * q;
    assert align * (q + 1) == align * q + align;
    Modulo.Unique(ptr + align, align, q + 1, 0);
  }

  /** Clearing the low bits moves down to a multiple, by less than the alignment. */
  lemma ClearMeans(y: nat, align: nat)
    requires Power(align) && align < TWO32 && y < TWO32
    ensures y - align < Clear(y, align) <= y && MultipleOf(Clear(y, align), align)
    ensures Mask(y, align) == 0 <==> MultipleOf(y, align)
  {
    hide Power, Clear, Mask;
    MaskMeans(y, align);
    Floor(y, align);
  }

  /** The aligned address is behind the block's address by at least a pointer and at most the alignment. */
  lemma AlignedInRange(ptr: nat, align: nat)
    requires align > 0 && MultipleOf(align, 4) && MultipleOf(ptr, 4) && align < TWO32 && ptr + align <= TWO32
    ensures ptr + 4 <= AlignedIn(ptr, align) <= ptr + align
  {
    hide Mask, Clear;
    if Mask(ptr, align) != 0 {
      ClearRaises(ptr, align);
    }
  }

  /** For a power of two it is a multiple of it. */
  lemma AlignedInMeans(ptr: nat, align: nat)
    requires Power(align) && MultipleOf(align, 4) && MultipleOf(ptr, 4) && align < TWO32 && ptr + align <= TWO32
    ensures MultipleOf(AlignedIn(ptr, align), align)
  {
    hide Mask, Clear, Power, MultipleOf;
    assert align >= 4 by { FourAtLeast(align); }
    ClearMeans(ptr, align);
    if Mask(ptr, align) == 0 {
      NextMultiple(ptr, align);
    } else {
      ClearMeans(ptr + (align - 1), align);
    }
  }

  /** The address is aligned to (rounded) `align` for every block exactly when that is a power of two. */
  lemma AlignedExactly(align: nat)
    requires 0 < align <= 0x8000_0000 && MultipleOf(align, 4)
    ensures (forall ptr: nat | MultipleOf(ptr, 4) && ptr + align <= TWO32 :: MultipleOf(AlignedIn(ptr, align), align))
       <==> Power(align)
  {
    hide Power, Mask, Clear;
    if Power(align) {
      hide MultipleOf, AlignedIn;
      forall ptr: nat | MultipleOf(ptr, 4) && ptr + align <= TWO32 ensures MultipleOf(AlignedIn(ptr, align), align) {
        AlignedInMeans(ptr, align);
      }
    } else {
      var ptr := UnevenMask(align);
      assert MultipleOf(ptr, 4) && AlignedIn(ptr, align) == ptr + align;
      Modulo.Unique(ptr + align, align, 1, ptr);
    }
  }

  /** An alignment of 0 gives address 0, with the pointer to be stored in front of it. */
  lemma ZeroAlignment(ptr: nat)
    requires 0 < ptr < TWO32
    ensures RoundUp(0) == 0 && AlignedIn(ptr, RoundUp(0)) == 0
  {
    hide Mask, Clear;
    RoundUpMeans(0);
    MaskByZero(ptr);
    MaskByZero(ptr - 1);
  }

  lemma FourAtLeast(a: nat)
    requires MultipleOf(a, 4) && Power(a)
    ensures a >= 4
  {
  }

  /** The total request: room for the block, and for moving it up to the alignment. */
  function Total(size: nat, align: nat): nat { (RoundUp(size) + RoundUp(align)) % TWO32 }

  /** Neither rounding nor adding wraps around 2^32. */
  predicate NoWrap(size: nat, align: nat) {
    size + 3 < TWO32 && align + 3 < TWO32 && RoundUp(size) + RoundUp(align) < TWO32
  }

  /** An address that is a multiple of the rounded alignment is one of the alignment asked for. */
  lemma AskedFor(x: nat, align: nat)
    requires Power(align) && align + 3 < TWO32 && MultipleOf(x, RoundUp(align))
    ensures MultipleOf(x, align)
  {
    hide RoundUp, Power, MultipleOf;
    RoundUpPower(align);
    PowerQuads(align);
    if align < 4 {
      OneAndTwo(x);
    }
  }

  lemma OneAndTwo(x: nat)
    requires MultipleOf(x, 4)
    ensures MultipleOf(x, 1) && MultipleOf(x, 2)
  {
    var q := x / 4;
    assert x == 4 * q;
    Modulo.Unique(x, 1, x, 0);
    Modulo.Unique(x, 2, 2 * q, 0);
  }

  /** Where the aligned block goes: behind the pointer, and inside the request exactly when the sizes do
      not wrap. */
  lemma Place(ptr: nat, size: nat, align: nat)
    requires MultipleOf(ptr, 4) && 0 < align && align + 3 < TWO32 && size < TWO32 && ptr + RoundUp(align) <= TWO32
    ensures ptr + 4 <= AlignedIn(ptr, RoundUp(align))
    ensures AlignedIn(ptr, RoundUp(align)) + size <= ptr + Total(size, align) <==> NoWrap(size, align)
    ensures AlignedTo(AlignedIn(ptr, RoundUp(align)), align)
  {
    hide RoundUp, Power, AlignedIn, Align4;
    RoundUpMeans(size);
    RoundUpMeans(align);
    AlignedInRange(ptr, RoundUp(align));
    if Power(RoundUp(align)) {
      AlignedInMeans(ptr, RoundUp(align));
    }
    if Power(align) {
      RoundUpPower(align);
      AskedFor(AlignedIn(ptr, RoundUp(align)), align);
    }
  }

  /** What the address promises: a power of two is met, and so is one that rounding up gives. */
  ghost predicate AlignedTo(address: int, align: nat) {
    && (Power(align) ==> MultipleOf(address, align))
    && (Power(RoundUp(align)) ==> MultipleOf(address, RoundUp(align)))
  }

  // ---- The operations ------------------------------------------------------------------------

  /** Stores an address in four payload bytes, lowest byte first. */
  method StoreAddress(h: Heap, k: nat, v: nat, ghost i: nat)
    requires h.Valid() && v < TWO32 && PayloadOf(h.chain, i, k) && PayloadOf(h.chain, i, k + 3)
    modifies h.region
    ensures h.Valid() && k + 4 <= h.region.Length && Get32(h.region[..], k) == v
    ensures forall j | 0 <= j < h.region.Length && !(k <= j < k + 4) :: h.region[j] == old(h.region[j])
  {
    hide Encodes, NoTwoFree, Aligned, UsedTotal, Lowest, HeapMemory.Next;
    assert PayloadOf(h.chain, i, k + 1) && PayloadOf(h.chain, i, k + 2);
    PayloadEnds(h, i, k + 3);
    h.Store(k, v % 256, i);
    h.Store(k + 1, v / 256 % 256, i);
    h.Store(k + 2, v / 256 / 256 % 256, i);
    h.Store(k + 3, v / 256 / 256 / 256, i);
  }

  lemma PayloadEnds(h: Heap, i: nat, k: nat)
    requires h.Valid() && PayloadOf(h.chain, i, k)
    ensures k < h.region.Length
  {
    PayloadInside(h.chain, h.msize, i, k);
  }

  /** The aligned block: `off` is the offset handed out, i the heap block it lies in. */
  ghost predicate AlignedBlock(b: CText.Text, c: Chain, i: nat, base: nat, off: int, size: nat, align: nat) {
    && i + 1 < |c| && c[i].used
    && AlignedTo(base + off, align)
    && c[i].at + HDR + 4 <= off && off + size <= c[i + 1].at
    && 0 <= off - 4 && off <= |b| && Get32(b, off - 4) == base + c[i].at + HDR
  }

  lemma BlockBounds(c: Chain, ms: nat, base: nat, i: nat)
    requires Tiled(c, ms) && Aligned(c) && i + 1 < |c| && MultipleOf(base, 4)
    ensures 0 <= c[i].at && c[i + 1].at <= ms + HDR && MultipleOf(base + c[i].at + HDR, 4)
  {
    if i > 0 { Apart(c, ms, 0, i); }
    if i + 1 < |c| - 1 { Apart(c, ms, i + 1, |c| - 1); }
  }

  /** The block that rt_malloc returned has room for the aligned block and the pointer in front of it. */
  lemma FitsInside(c: Chain, ms: nat, base: nat, i: nat, size: nat, align: nat)
    requires Tiled(c, ms) && Aligned(c) && MultipleOf(base, 4) && base + ms + 2 * HDR <= TWO32
    requires i + 1 < |c| && !c[i].used && align > 0 && NoWrap(size, align)
    requires Room(c, i) >= Request(Total(size, align))
    ensures c[i].at + HDR >= 0
    ensures var ptr := base + c[i].at + HDR;
      var to := AlignedIn(ptr, RoundUp(align)) - base;
      var d := Allocate(c, i, Request(Total(size, align)));
      && AlignedTo(base + to, align) && c[i].at + HDR + 4 <= to && to <= ms + HDR
      && i + 1 < |d| && d[i].used && d[i].at == c[i].at && to + size <= d[i + 1].at
      && PayloadOf(d, i, to - 4) && PayloadOf(d, i, to - 1)
  {
    hide RoundUp, Power, Allocate, AlignedIn, Total, MultipleOf, Tiled, Request, AlignedTo;
    BlockBounds(c, ms, base, i);
    AllocateUpTo(c, i, Request(Total(size, align)));
    TotalHolds(size, align);
    Place(base + c[i].at + HDR, size, align);
  }

  /** rt_malloc_align for sizes that do not wrap around 2^32 (see Place) and any alignment but 0 (see
      ZeroAlignment): in those two cases the pointer may be stored outside the block. */
  method MallocAlign(h: Heap, base: nat, size: nat, align: nat) returns (r: Ptr, ghost i: nat)
    requires h.Valid() && MultipleOf(base, 4) && base + h.region.Length <= TWO32
    requires align > 0 && NoWrap(size, align)
    requires h.ScanEnds(Total(size, align))
    modifies h`lfree, h`usedMem, h`maxMem, h`chain, h.region
    ensures h.Valid()
    ensures r.Null? <==>
      Align4(Total(size, align)) > h.msize || NoFit(old(h.chain), h.msize, Request(Total(size, align)))
    ensures r.Null? ==> h.chain == old(h.chain) && h.region[..] == old(h.region[..])
    ensures r.At? ==> IsFirstFit(old(h.chain), h.msize, Request(Total(size, align)), i)
    ensures r.At? ==> h.chain == Allocate(old(h.chain), i, Request(Total(size, align)))
    ensures r.At? ==> AlignedBlock(h.region[..], h.chain, i, base, r.off, size, align)
    ensures KeepsPayloads(old(h.region[..]), h.region[..], old(h.chain))
    ensures h.maxMem == if r.At? then HeapLaws.Max(old(h.maxMem), h.usedMem) else old(h.maxMem)
  {
    hide Power, RoundUp, Encodes, NoTwoFree, UsedTotal, Lowest, Allocate, KeepsPayloads, MultipleOf, Tiled, Aligned,
         NoFit, IsFirstFit, Request;
    ghost var c := h.chain;
    ghost var b := h.region[..];
    HeapFacts(h);
    var alignSize := RoundUp(size) + RoundUp(align);
    TotalHolds(size, align);
    r, i := h.Malloc(alignSize);
    if r.At? {
      FirstFitFacts(c, h.msize, Request(alignSize), i);
      var off := PutPointer(h, base, r.off, size, align, b, c, i);
      r := At(off);
    }
  }

  lemma TotalHolds(size: nat, align: nat)
    requires align > 0 && NoWrap(size, align)
    ensures Total(size, align) == RoundUp(size) + RoundUp(align) <= Request(Total(size, align))
    ensures 0 < Total(size, align) < TWO32 && RoundUp(align) <= Total(size, align)
  {
    hide RoundUp, Request, Align4;
    RoundUpMeans(size);
    RoundUpMeans(align);
    AlignedStays(Total(size, align));
  }

  lemma FirstFitFacts(c: Chain, ms: nat, size: nat, i: nat)
    requires IsFirstFit(c, ms, size, i)
    ensures i + 1 < |c| && !c[i].used && Room(c, i) >= size
  {
  }

  lemma HeapFacts(h: Heap)
    requires h.Valid()
    ensures Tiled(h.chain, h.msize) && Aligned(h.chain) && h.region.Length == h.msize + 2 * HDR
  {
  }

  /** The part behind the allocation: the aligned address, and the pointer in front of it. */
  method PutPointer(h: Heap, base: nat, off: int, size: nat, align: nat, ghost b: CText.Text, ghost c: Chain,
                    ghost i: nat)
    returns (to: int)
    requires h.Valid() && MultipleOf(base, 4) && base + h.region.Length <= TWO32 && h.region.Length == h.msize + 2 * HDR
    requires align > 0 && NoWrap(size, align)
    requires Tiled(c, h.msize) && Aligned(c) && i + 1 < |c| && !c[i].used && Room(c, i) >= Request(Total(size, align))
    requires h.chain == Allocate(c, i, Request(Total(size, align))) && off == c[i].at + HDR
    requires KeepsPayloads(b, h.region[..], c)
    modifies h.region
    ensures h.Valid() && AlignedBlock(h.region[..], h.chain, i, base, to, size, align)
    ensures KeepsPayloads(b, h.region[..], c)
  {
    hide Power, RoundUp, Encodes, NoTwoFree, UsedTotal, Lowest, Allocate, KeepsPayloads, AlignedIn, MultipleOf, Get32,
         Tiled, Aligned, Request, Total;
    FitsInside(c, h.msize, base, i, size, align);
    ghost var b1 := h.region[..];
    var ptr: nat := base + off;
    to := AlignedIn(ptr, RoundUp(align)) - base;
    PointerRoom(c, i, size, align, to);
    StoreAddress(h, to - 4, ptr, i);
    PointerKeeps(b, b1, h.region[..], c, h.msize, i, to - 4);
  }

  /** The four bytes in front of the aligned block lie in the free block that was taken. */
  lemma PointerRoom(c: Chain, i: nat, size: nat, align: nat, to: int)
    requires i + 1 < |c| && !c[i].used && Room(c, i) >= Request(Total(size, align))
    requires i + 1 < |Allocate(c, i, Request(Total(size, align)))|
    requires to + size <= Allocate(c, i, Request(Total(size, align)))[i + 1].at
    ensures to <= c[i + 1].at
  {
    AllocateUpTo(c, i, Request(Total(size, align)));
    hide Allocate, Request, Total;
  }

  /** Storing the pointer changes no payload that was live before. */
  lemma PointerKeeps(b: CText.Text, b1: CText.Text, b2: CText.Text, c: Chain, ms: nat, i: nat, k: int)
    requires KeepsPayloads(b, b1, c) && |b2| == |b1| && Tiled(c, ms) && i + 1 < |c| && !c[i].used
    requires c[i].at + HDR <= k && k + 4 <= c[i + 1].at
    requires forall j | 0 <= j < |b1| && !(k <= j < k + 4) :: b2[j] == b1[j]
    ensures KeepsPayloads(b, b2, c)
  {
    forall s: nat, m: nat | PayloadOf(c, s, m) && m < |b| ensures b2[m] == b[m] {
      PayloadsApart(c, ms, s, m, i);
    }
    hide Tiled;
  }

  /** rt_free_align gives the real block back to rt_free, as long as the pointer in front is intact. */
  method FreeAlign(h: Heap, base: nat, off: nat, ghost i: nat, ghost size: nat, ghost align: nat)
    requires h.Valid() && AlignedBlock(h.region[..], h.chain, i, base, off, size, align)
    modifies h`lfree, h`usedMem, h`chain, h.region
    ensures h.Valid() && h.chain == Release(old(h.chain), i)
    ensures KeepsPayloads(old(h.region[..]), h.region[..], HeapChain.SetUsed(old(h.chain), i, false))
  {
    hide NoTwoFree, UsedTotal, Lowest, KeepsPayloads, Get32, MultipleOf, Plug;
    var block := Get32(h.region[..], off - 4) - base;
    h.Free(At(block), i);
  }

  /** A client that stays inside its aligned block leaves the pointer in front of it intact. */
  lemma ClientKeepsPointer(b: CText.Text, c: Chain, i: nat, base: nat, off: int, size: nat, align: nat, k: nat,
                           v: CText.Byte)
    requires AlignedBlock(b, c, i, base, off, size, align) && off <= k < |b|
    ensures AlignedBlock(b[k := v], c, i, base, off, size, align)
  {
  }

  /** Freeing an aligned block straight after allocating it restores the chain. */
  lemma FreeAlignUndoes(c: Chain, ms: nat, i: nat, size: nat, align: nat)
    requires Sound(c, ms) && IsFirstFit(c, ms, Request(Total(size, align)), i)
    ensures Release(Allocate(c, i, Request(Total(size, align))), i) == c
  {
    HeapLaws.FreeUndoesMalloc(c, ms, i, Request(Total(size, align)));
    hide Total, Request;
  }
}
