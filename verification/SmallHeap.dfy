/** The small-memory heap of mem.c (32-bit, RT_ALIGN_SIZE 4, no memory trace).

    Addresses are byte offsets from heap_ptr.  Each method is one call of the source,
    made under the heap semaphore.  The ghost field `chain` is the block list that the
    header bytes encode. */
module SmallHeap {
  import CText
  import opened HeapChain
  import opened HeapRegion
  import Laws = HeapLaws
  import Mem = HeapMemory
  import MemoryOps

  datatype Ptr = Null | At(off: int)

  function Min(a: int, b: int): int { if a < b then a else b }

  class Heap {
    /** heap_ptr */
    var region: array<CText.Byte>
    /** mem_size_aligned */
    var msize: nat
    var lfree: int
    var usedMem: int
    var maxMem: int
    ghost var chain: Chain

    function HeadAt(p: nat): Head
      requires p + HDR <= region.Length
      reads this`region, region
    {
      HeadOf(region[..], p)
    }

    /** The header bytes encode the chain and lfree is its lowest free block. */
    ghost predicate Linked()
      reads this, region
    {
      && Encodes(region[..], chain, msize)
      && lfree == chain[Lowest(chain)].at
    }

    ghost predicate Valid()
      reads this, region
    {
      && Linked()
      && NoTwoFree(chain)
      && Aligned(chain)
      && usedMem == UsedTotal(chain) <= maxMem
    }

    /** What the laws of HeapLaws speak of. */
    ghost function Books(): Laws.HeapState
      reads this
    {
      Laws.HeapState(chain, usedMem, maxMem)
    }

    /** What HeapMemory speaks of: the bytes and the books. */
    ghost function Memory(): Mem.Memory
      reads this, region
    {
      Mem.Memory(region[..], Books())
    }

    /** The pointer is inside the region, as rt_free and rt_realloc test it. */
    predicate InRange(p: Ptr)
      reads this
    {
      p.At? && 0 <= p.off < msize + HDR
    }

    /** Callers pass NULL, a foreign pointer, or the payload address of a used block i. */
    ghost predicate Owned(p: Ptr, i: nat)
      reads this
    {
      InRange(p) ==> i + 1 < |chain| && chain[i].used && p.off == chain[i].at + HDR
    }

    /** The pointer is the payload address of the live block i of c, which has a payload. */
    static ghost predicate Points(p: Ptr, c: Chain, i: nat) {
      i + 1 < |c| && c[i].used && c[i + 1].at - c[i].at > 12 && p == At(c[i].at + 12)
    }

    // ---- Header fields -----------------------------------------------------------

    method Put16(o: nat, v: nat)
      requires o + 2 <= region.Length && v < TWO16
      modifies region
      ensures Get16(region[..], o) == v
      ensures forall k | 0 <= k < region.Length && !(o <= k < o + 2) :: region[k] == old(region[k])
    {
      region[o], region[o + 1] := v % 0x100, v / 0x100;
    }

    method Put32(o: nat, v: nat)
      requires o + 4 <= region.Length && v < TWO32
      modifies region
      ensures Get32(region[..], o) == v
      ensures forall k | 0 <= k < region.Length && !(o <= k < o + 4) :: region[k] == old(region[k])
    {
      Put16(o, v % TWO16);
      Put16(o + 2, v / TWO16);
    }

    method SetMagic(p: nat)
      requires p + HDR <= region.Length
      modifies region
      ensures Touches(old(region[..]), region[..], p)
      ensures HeadAt(p) == old(HeadAt(p)).(magic := MAGIC)
    {
      Put16(p, MAGIC);
    }

    method SetUsed(p: nat, v: nat)
      requires p + HDR <= region.Length && v < TWO16
      modifies region
      ensures Touches(old(region[..]), region[..], p)
      ensures HeadAt(p) == old(HeadAt(p)).(used := v)
    {
      Put16(p + 2, v);
    }

    method SetNext(p: nat, v: nat)
      requires p + HDR <= region.Length && v < TWO32
      modifies region
      ensures Touches(old(region[..]), region[..], p)
      ensures HeadAt(p) == old(HeadAt(p)).(next := v)
    {
      Put32(p + 4, v);
    }

    method SetPrev(p: nat, v: nat)
      requires p + HDR <= region.Length && v < TWO32
      modifies region
      ensures Touches(old(region[..]), region[..], p)
      ensures HeadAt(p) == old(HeadAt(p)).(prev := v)
    {
      Put32(p + 8, v);
    }

    /** Fill in a whole header, field by field. */
    method InitHead(p: nat, used: nat, next: nat, prev: nat)
      requires p + HDR <= region.Length && used < TWO16 && next < TWO32 && prev < TWO32
      modifies region
      ensures Touches(old(region[..]), region[..], p)
      ensures HeadAt(p) == Head(MAGIC, used, next, prev)
    {
      hide HeadOf;
      SetMagic(p);
      SetUsed(p, used);
      SetNext(p, next);
      SetPrev(p, prev);
    }

    // ---- rt_system_heap_init -------------------------------------------------------

    /** `bytes` is the region between the aligned begin and end addresses. */
    constructor (bytes: array<CText.Byte>)
      requires bytes.Length % 4 == 0 && 2 * HDR <= bytes.Length < TWO32
      modifies bytes
      ensures Valid() && region == bytes && msize == bytes.Length - 2 * HDR
      ensures chain == [Block(0, false), Block(msize + HDR, true)]
      ensures usedMem == 0 && maxMem == 0
    {
      region, msize, lfree, usedMem, maxMem := bytes, bytes.Length - 2 * HDR, 0, 0, 0;
      chain := Empty(bytes.Length - 2 * HDR);
      new;
      hide HeadOf, Touches, Encodes, NoTwoFree, Aligned, Lowest, UsedTotal;
      EmptyChain(msize);
      InitHead(0, 0, msize + HDR, 0);
      var end := msize + HDR;
      ghost var b := region[..];
      InitHead(end, 1, msize + HDR, msize + HDR);
      TouchFrame(b, region[..], end, 0);
      EmptyEncodes(region[..], msize);
    }

    static function Empty(ms: nat): Chain { [Block(0, false), Block(ms + HDR, true)] }

    /** The chain of an empty heap. */
    static lemma EmptyChain(ms: nat)
      requires ms % 4 == 0
      ensures Tiled(Empty(ms), ms) && NoTwoFree(Empty(ms)) && Aligned(Empty(ms))
      ensures Lowest(Empty(ms)) == 0 && UsedTotal(Empty(ms)) == 0
    {
      LowestIs(Empty(ms), 0);
      assert UsedTotal(Empty(ms)) == UsedBefore(Empty(ms), 0);
    }

    static lemma EmptyEncodes(b: CText.Text, ms: nat)
      requires |b| == ms + 2 * HDR < TWO32 && Tiled(Empty(ms), ms)
      requires HeadOf(b, 0) == Head(MAGIC, 0, ms + HDR, 0) && HeadOf(b, ms + HDR) == Head(MAGIC, 1, ms + HDR, ms + HDR)
      ensures Encodes(b, Empty(ms), ms)
    {
      hide HeadOf;
    }

    // ---- plug_holes ----------------------------------------------------------------

    method PlugForwardHoles(mem: nat, ghost i: nat)
      requires Linked() && i + 1 < |chain| && chain[i] == Block(mem, false)
      modifies this`lfree, this`chain, region
      ensures Linked() && chain == PlugForward(old(chain), i)
      ensures KeepsPayloads(old(region[..]), region[..], old(chain))
    {
      hide HeadOf;
      assert BlockEncoded(region[..], chain, i) && BlockEncoded(region[..], chain, i + 1);
      Apart(chain, msize, i, i + 1);
      Apart(chain, msize, i, |chain| - 1);
      var nmem := HeadAt(mem).next;
      PlugForwardLowest(chain, i);
      if mem != nmem && HeadAt(nmem).used == 0 && nmem != msize + HDR {
        lfree := if lfree == nmem then mem else lfree;
        assert BlockEncoded(region[..], chain, i + 2);
        ghost var b := region[..];
        SetNext(mem, HeadAt(nmem).next);
        ghost var b1 := region[..];
        FarHead(b, b1, chain, msize, i, i + 1);
        SetPrev(HeadAt(nmem).next, mem);
        JoinEncodes(b, b1, region[..], chain, msize, i);
        chain := Join(chain, i);
      }
    }

    method PlugBackwardHoles(mem: nat, ghost i: nat)
      requires Linked() && i + 1 < |chain| && chain[i] == Block(mem, false)
      modifies this`lfree, this`chain, region
      ensures Linked() && chain == PlugBackward(old(chain), i)
      ensures KeepsPayloads(old(region[..]), region[..], old(chain))
    {
      hide HeadOf;
      assert BlockEncoded(region[..], chain, i);
      Apart(chain, msize, i, |chain| - 1);
      if i > 0 {
        assert BlockEncoded(region[..], chain, i - 1);
        Apart(chain, msize, i - 1, i);
      }
      var pmem := HeadAt(mem).prev;
      PlugBackwardLowest(chain, i);
      if pmem != mem && HeadAt(pmem).used == 0 {
        lfree := if lfree == mem then pmem else lfree;
        assert BlockEncoded(region[..], chain, i + 1);
        ghost var b := region[..];
        SetNext(pmem, HeadAt(mem).next);
        ghost var b1 := region[..];
        FarHead(b, b1, chain, msize, i - 1, i);
        SetPrev(HeadAt(mem).next, pmem);
        JoinEncodes(b, b1, region[..], chain, msize, i - 1);
        chain := Join(chain, i - 1);
      }
    }

    method PlugHoles(mem: nat, ghost i: nat)
      requires Linked() && i + 1 < |chain| && chain[i] == Block(mem, false)
      modifies this`lfree, this`chain, region
      ensures Linked() && chain == Plug(old(chain), i)
      ensures KeepsPayloads(old(region[..]), region[..], old(chain))
    {
      ghost var c := chain;
      ghost var b := region[..];
      PlugForwardLowest(chain, i);
      PlugForwardHoles(mem, i);
      ghost var d := chain;
      ghost var b1 := region[..];
      PlugForwardPayloads(c, i);
      PlugBackwardHoles(mem, i);
      KeepsTrans(b, b1, region[..], c, d);
    }

    /** Find the next free block at or after the block lfree points to. */
    method AdvanceLfree(ghost i: nat)
      requires Encodes(region[..], chain, msize) && i < |chain| && lfree == chain[i].at
      requires forall j | 0 <= j < i :: chain[j].used
      modifies this`lfree
      ensures lfree == chain[Lowest(chain)].at
    {
      hide HeadOf;
      ghost var j := i;
      assert BlockEncoded(region[..], chain, j);
      while HeadAt(lfree).used != 0 && lfree != msize + HDR
        invariant i <= j < |chain| && lfree == chain[j].at && BlockEncoded(region[..], chain, j)
        invariant forall k | 0 <= k < j :: chain[k].used
        decreases |chain| - j
      {
        lfree := HeadAt(lfree).next;
        j := j + 1;
        assert BlockEncoded(region[..], chain, j);
      }
      if j < |chain| - 1 {
        Apart(chain, msize, j, |chain| - 1);
      }
      LowestIs(chain, j);
    }

    // ---- rt_malloc -----------------------------------------------------------------

    /** Cut block i: the front becomes used, the rest a new free block. */
    method CutBlock(ptr: nat, size: nat, next: nat, ghost i: nat)
      requires Encodes(region[..], chain, msize) && i + 1 < |chain| && chain[i].at == ptr && chain[i + 1].at == next
      requires Room(chain, i) >= size + HDR
      modifies this`chain, region
      ensures Encodes(region[..], chain, msize) && chain == Split(old(chain), i, size, true)
      ensures KeepsPayloads(old(region[..]), region[..], chain)
    {
      hide HeadOf, BlockEncoded;
      ghost var b := region[..];
      Apart(chain, msize, i, |chain| - 1);
      var ptr2 := ptr + HDR + size;
      InitHead(ptr2, 0, next, ptr);
      ghost var b1 := region[..];
      SetNext(ptr, ptr2);
      SetUsed(ptr, 1);
      SetMagic(ptr);
      ghost var b2 := region[..];
      if i + 2 < |chain| {
        Apart(chain, msize, i + 1, |chain| - 1);
      }
      if next != msize + HDR {
        SetPrev(next, ptr2);
      }
      SplitEncodes(b, b1, b2, region[..], chain, msize, i, size);
      chain := Split(chain, i, size, true);
    }

    /** Mark the header at ptr and keep its links. */
    method FlagBlock(ptr: nat, used: bool, ghost i: nat)
      requires Encodes(region[..], chain, msize) && i + 1 < |chain| && chain[i].at == ptr
      modifies this`chain, region
      ensures Encodes(region[..], chain, msize) && chain == HeapChain.SetUsed(old(chain), i, used)
      ensures KeepsPayloads(old(region[..]), region[..], old(chain))
    {
      hide HeadOf, BlockEncoded;
      ghost var b := region[..];
      Apart(chain, msize, i, |chain| - 1);
      SetUsed(ptr, if used then 1 else 0);
      SetMagic(ptr);
      FlagEncodes(b, region[..], chain, msize, i, used);
      chain := HeapChain.SetUsed(chain, i, used);
    }

    /** Take free block i, which has room, out of the free blocks. */
    method Take(ptr: nat, size: nat, ghost i: nat)
      requires Valid() && i + 1 < |chain| && chain[i] == Block(ptr, false)
      requires size % 4 == 0 && Room(chain, i) >= size
      modifies this`lfree, this`usedMem, this`maxMem, this`chain, region
      ensures Valid() && chain == Allocate(old(chain), i, size)
      ensures KeepsPayloads(old(region[..]), region[..], old(chain))
      ensures maxMem == Laws.Max(old(maxMem), usedMem)
    {
      hide HeadOf, KeepsPayloads, Split, Tiled, UsedTotal;
      ghost var c := chain;
      ghost var b := region[..];
      assert BlockEncoded(b, c, i);
      Apart(c, msize, i, |c| - 1);
      AllocateTotal(c, msize, i, size);
      AllocateAligned(c, i, size);
      var next := HeadAt(ptr).next;
      if next - (ptr + HDR) >= size + HDR + MIN {
        CutBlock(ptr, size, next, i);
        SplitKeeps(b, region[..], c, i, size);
        usedMem := usedMem + (size + HDR);
      } else {
        FlagBlock(ptr, true, i);
        usedMem := usedMem + (next - ptr);
      }
      if maxMem < usedMem {
        maxMem := usedMem;
      }
      AllocateUpTo(c, i, size);
      if Lowest(c) < i {
        Apart(c, msize, Lowest(c), i);
      }
      if ptr == lfree {
        AdvanceLfree(i);
      } else {
        AllocateLowest(c, i, size);
      }
    }

    /** The scan of rt_malloc ends for this size; HeapLaws.ScanRunsForeverExactly says when it does not. */
    predicate ScanEnds(size: nat)
      reads this
    {
      size == 0 || Align4(size) > msize || msize >= MIN
    }

    /** The scan of rt_malloc: from lfree along the next links to the first block that fits. */
    method Scan(size: nat) returns (found: bool, ptr: nat, ghost i: nat)
      requires Valid() && MIN <= size <= msize
      ensures found <==> !NoFit(chain, msize, size)
      ensures found ==> IsFirstFit(chain, msize, size, i) && ptr == chain[i].at
    {
      hide HeadOf, NoTwoFree, Aligned, UsedTotal;
      i := Lowest(chain);
      ptr := lfree;
      assert BlockEncoded(region[..], chain, i);
      while ptr < msize - size
        invariant i < |chain| && ptr == chain[i].at && BlockEncoded(region[..], chain, i)
        invariant forall j: nat | j < i :: !Fits(chain, msize, size, j)
        decreases |chain| - i
      {
        var mem := HeadAt(ptr);
        assert i + 1 < |chain|;
        if mem.used == 0 && mem.next - (ptr + HDR) >= size {
          assert IsFirstFit(chain, msize, size, i);
          return true, ptr, i;
        }
        ptr := mem.next;
        i := i + 1;
        assert BlockEncoded(region[..], chain, i);
      }
      forall j: nat | i <= j ensures !Fits(chain, msize, size, j) {
        if i < j < |chain| { Apart(chain, msize, i, j); }
      }
      found := false;
    }

    static lemma IsFit(c: Chain, ms: nat, size: nat, i: nat)
      requires IsFirstFit(c, ms, size, i)
      ensures i + 1 < |c| && !c[i].used && Room(c, i) >= size && !NoFit(c, ms, size)
    {
    }

    method Malloc(size: nat) returns (r: Ptr, ghost i: nat)
      requires Valid() && size < TWO32 && ScanEnds(size)
      modifies this`lfree, this`usedMem, this`maxMem, this`chain, region
      ensures Valid()
      ensures r.Null? <==> size == 0 || Align4(size) > msize || NoFit(old(chain), msize, Request(size))
      ensures r.Null? ==> chain == old(chain) && region[..] == old(region[..]) && maxMem == old(maxMem)
      ensures r.At? ==> IsFirstFit(old(chain), msize, Request(size), i) && r.off == old(chain)[i].at + HDR
      ensures r.At? ==> chain == Allocate(old(chain), i, Request(size)) && maxMem == Laws.Max(old(maxMem), usedMem)
      ensures r.At? ==> i + 1 < |chain| && (Room(chain, i) >= size <==> size + 3 < TWO32)
      ensures KeepsPayloads(old(region[..]), region[..], old(chain))
      ensures Mem.Next(msize, old(Memory()), Mem.Call(Laws.Malloc(size)), Memory())
    {
      assert Sound(chain, msize);
      hide HeadOf, NoTwoFree, Aligned, Tiled, UsedTotal, Allocate, Encodes, NoFit, IsFirstFit;
      i := 0;
      KeepsSame(region[..], chain);
      if size == 0 {
        return Null, i;
      }
      var request := Align4(size);
      if request > msize {
        return Null, i;
      }
      if request < MIN {
        request := MIN;
      }
      var found, ptr;
      found, ptr, i := Scan(request);
      if found {
        IsFit(chain, msize, request, i);
        Take(ptr, request, i);
        Laws.MallocIsNext(msize, old(Books()), size, i, Books());
        Laws.MallocHoldsExactly(old(chain), msize, size, i);
        return At(ptr + HDR), i;
      }
      return Null, i;
    }

    // ---- rt_free -------------------------------------------------------------------

    /** Such a pointer is in the range that rt_free and rt_realloc accept, and no two blocks share one. */
    lemma PointsInside(p: Ptr, i: nat)
      requires Valid() && Points(p, chain, i)
      ensures InRange(p) && p != Null
      ensures forall j | 0 <= j < |chain| && j != i :: chain[j].at + HDR != p.off
    {
      var c := chain;
      assert Tiled(c, msize);
      hide Encodes, NoTwoFree, Aligned, UsedTotal;
      if i + 1 < |c| - 1 { Apart(c, msize, i + 1, |c| - 1); }
    }

    method Free(rmem: Ptr, ghost i: nat)
      requires Valid() && Owned(rmem, i)
      modifies this`lfree, this`usedMem, this`chain, region
      ensures Valid()
      ensures Points(rmem, old(chain), i) ==> chain == Release(old(chain), i)
      ensures chain == if InRange(rmem) then Release(old(chain), i) else old(chain)
      ensures InRange(rmem) ==> KeepsPayloads(old(region[..]), region[..], HeapChain.SetUsed(old(chain), i, false))
      ensures !InRange(rmem) ==> region[..] == old(region[..]) && Books() == old(Books())
      ensures InRange(rmem) ==> Mem.Next(msize, old(Memory()), Mem.Call(Laws.Free(i)), Memory())
    {
      hide HeadOf, KeepsPayloads, Tiled, UsedTotal, Plug, Laws.Next;
      if Points(rmem, chain, i) { PointsInside(rmem, i); }
      if rmem.Null? {
        return;
      }
      if rmem.off < 0 || rmem.off >= msize + HDR {
        return;
      }
      ghost var c := chain;
      ghost var b := region[..];
      var mem := rmem.off - HDR;
      assert BlockEncoded(b, c, i);
      Apart(c, msize, i, i + 1);
      ReleaseTotal(c, msize, i);
      assert HeadAt(mem).used == 1 && HeadAt(mem).magic == MAGIC;
      var next := HeadAt(mem).next;
      FlagBlock(mem, false, i);
      ghost var d := chain;
      ghost var b1 := region[..];
      FreedLowest(c, i);
      if Lowest(c) < i { Apart(c, msize, Lowest(c), i); }
      if i < Lowest(c) { Apart(c, msize, i, Lowest(c)); }
      if mem < lfree {
        lfree := mem;
      }
      usedMem := usedMem - (next - mem);
      PlugHoles(mem, i);
      PlugAligned(d, i);
      FreeKeeps(b, b1, region[..], c, i);
      Laws.FreeIsNext(msize, old(Books()), i, Books());
    }

    // ---- Payload accesses ------------------------------------------------------------

    /** A client writes one byte of a live payload: the heap's own data is untouched. */
    method Store(k: nat, v: CText.Byte, ghost i: nat)
      requires Valid() && PayloadOf(chain, i, k)
      modifies region
      ensures Valid() && region[..] == old(region[..])[k := v]
      ensures Mem.Next(msize, old(Memory()), Mem.Write(i, k, [v]), Memory())
    {
      ghost var b := region[..];
      PayloadInside(chain, msize, i, k);
      region[k] := v;
      StoreEncodes(b, v, chain, msize, i, k);
    }

    /** rt_memcpy into the payload of block j from bytes that it does not touch. */
    method CopyPayload(dst: nat, src: nat, n: nat, ghost j: nat)
      requires Valid() && (n > 0 ==> PayloadOf(chain, j, dst) && PayloadOf(chain, j, dst + n - 1))
      requires src + n <= region.Length && dst + n <= region.Length && (dst + n <= src || src + n <= dst)
      modifies region
      ensures Valid() && region[..] == MemoryOps.Moved(old(region[..]), dst, src, n)
      ensures Mem.Next(msize, old(Memory()), Mem.Write(j, dst, old(region[src..src + n])), Memory())
    {
      hide Encodes, NoTwoFree, Aligned, UsedTotal, Lowest, Mem.Next;
      ghost var b := region[..];
      ghost var m := Memory();
      MemoryOps.Memcpy(region, dst, src, n);
      MemoryOps.CopyIsMove(b, dst, src, n);
      WriteEncodes(b, region[..], chain, msize, j, dst, n);
      MovedIsWritten(b, dst, src, n);
      Mem.WriteIsNext(msize, m, j, dst, b[src..src + n], region[..]);
    }

    static lemma MovedIsWritten(b: CText.Text, dst: nat, src: nat, n: nat)
      requires src + n <= |b| && dst + n <= |b|
      ensures MemoryOps.Moved(b, dst, src, n) == Mem.Written(b, dst, b[src..src + n])
    {
    }

    /** The last part of rt_realloc: allocate elsewhere, copy, free the old block. */
    method Relocate(rmem: Ptr, size: nat, newsize: nat, ghost i: nat) returns (r: Ptr, ghost j: nat)
      requires Valid() && InRange(rmem) && Owned(rmem, i) && size == Room(chain, i)
      requires newsize % 4 == 0 && 0 < newsize <= msize && ScanEnds(newsize)
      modifies this`lfree, this`usedMem, this`maxMem, this`chain, region
      ensures Valid()
      ensures r.Null? <==> NoFit(old(chain), msize, Request(newsize))
      ensures r.Null? ==> chain == old(chain) && region[..] == old(region[..])
      ensures r.At? ==> IsFirstFit(old(chain), msize, Request(newsize), j) && r.off == old(chain)[j].at + HDR
      ensures r.At? ==> chain == Relocated(old(chain), i, j, Request(newsize))
      ensures r.At? ==> Arrived(old(region[..]), region[..], rmem.off, r.off, Min(size, newsize))
      ensures KeepsPayloads(old(region[..]), region[..], HeapChain.SetUsed(old(chain), i, false))
      ensures r.Null? ==> Books() == old(Books())
      ensures r.At? ==> maxMem == Laws.Max(old(maxMem), UsedTotal(Allocate(old(chain), j, Request(newsize))))
      ensures r.At? ==> exists x: CText.Text :: Mem.Reaches(msize, old(Memory()),
        [Mem.Call(Laws.Malloc(newsize)), Mem.Write(j, r.off, x),
         Mem.Call(Laws.Free(Successor(old(chain), i, j, Request(newsize))))], Memory())
    {
      hide KeepsPayloads, NoTwoFree, Aligned, UsedTotal, Lowest, Tiled, Plug, Allocate, NoFit, BlockEncoded;
      hide Mem.Next, Mem.Reaches, MemoryOps.Moved, IsFirstFit, Request, Align4, Arrived;
      ghost var c := chain;
      ghost var b := region[..];
      KeepsSame(b, HeapChain.SetUsed(c, i, false));
      AlignedStays(newsize);
      r, j := Malloc(newsize);
      if r.At? {
        IsFit(c, msize, Request(newsize), j);
        ghost var d := chain;
        ghost var i2 := Successor(c, i, j, Request(newsize));
        ghost var b1 := region[..];
        var n := Min(size, newsize);
        AllocateCovers(c, msize, i, j, Request(newsize), n);
        ghost var x := region[rmem.off..rmem.off + n];
        ghost var m1 := Memory();
        CopyPayload(r.off, rmem.off, n, j);
        ghost var b2 := region[..];
        ghost var m2 := Memory();
        Free(rmem, i2);
        RelocateKeeps(b, b1, b2, region[..], c, msize, i, j, Request(newsize), n);
        Mem.ReachesThree(msize, old(Memory()), Mem.Call(Laws.Malloc(newsize)), m1, Mem.Write(j, r.off, x), m2,
                         Mem.Call(Laws.Free(i2)), Memory());
      }
    }

    // ---- rt_realloc ----------------------------------------------------------------

    /** The in-place branch of rt_realloc: give the tail of the block back. */
    method ShrinkInPlace(mem: nat, size: nat, newsize: nat, ghost i: nat)
      requires Valid() && i + 1 < |chain| && chain[i] == Block(mem, true) && size == Room(chain, i)
      requires newsize % 4 == 0 && newsize + HDR + MIN < size
      modifies this`lfree, this`usedMem, this`chain, region
      ensures Valid() && chain == Shrink(old(chain), i, newsize)
      ensures KeepsPayloads(old(region[..]), region[..], Split(old(chain), i, newsize, true))
      ensures Mem.Next(msize, old(Memory()), Mem.Call(Laws.Shrink(i, newsize)), Memory())
    {
      hide Laws.Next, KeepsPayloads, NoTwoFree, Aligned, UsedTotal, Tiled, Plug, BlockEncoded, HeadOf;
      ghost var c := chain;
      ghost var b := region[..];
      assert BlockEncoded(b, c, i);
      Apart(c, msize, i, |c| - 1);
      ShrinkTotal(c, msize, i, newsize);
      usedMem := usedMem - (size - newsize);
      var mem2 := mem + HDR + newsize;
      var next := HeadNext(mem, i);
      CutBlock(mem, newsize, next, i);
      ghost var d := chain;
      ghost var b1 := region[..];
      CutLowest(c, i, newsize);
      if Lowest(c) < i { Apart(c, msize, Lowest(c), i); }
      if i + 1 < Lowest(c) { Apart(c, msize, i + 1, Lowest(c)); }
      if mem2 < lfree {
        lfree := mem2;
      }
      PlugHoles(mem2, i + 1);
      SplitAligned(c, i, newsize, true);
      PlugAligned(d, i + 1);
      PayloadsSelf(d);
      KeepsTrans(b, b1, region[..], d, d);
      AlignedStays(newsize);
      Laws.ShrinkIsNext(msize, old(Books()), i, newsize, Books());
    }

    /** Read the next link of block i. */
    method HeadNext(p: nat, ghost i: nat) returns (next: nat)
      requires Encodes(region[..], chain, msize) && i + 1 < |chain| && chain[i].at == p
      ensures p + HDR <= next == chain[i + 1].at < TWO32
    {
      assert BlockEncoded(region[..], chain, i);
      next := HeadAt(p).next;
    }

    /** rt_realloc takes a new block: for NULL, and when it moves. */
    predicate Serves(p: Ptr, c: Chain, i: nat, newsize: nat)
      reads this
    {
      p.Null? || (InRange(p) && i + 1 < |c| && !InPlace(c, i, newsize))
    }

    method Realloc(rmem: Ptr, newsize: nat, ghost i: nat) returns (r: Ptr, ghost j: nat)
      requires Valid() && Owned(rmem, i) && newsize < TWO32 && ScanEnds(Align4(newsize))
      modifies this`lfree, this`usedMem, this`maxMem, this`chain, region
      ensures Valid()
      ensures Points(rmem, old(chain), i) && 0 < Align4(newsize) <= msize ==>
        var room, want := Room(old(chain), i), Align4(newsize);
        if room == want then r == rmem && Memory() == old(Memory())
        else if want + HDR + MIN < room then r == rmem && chain == Shrink(old(chain), i, want)
        else if r.Null? then NoFit(old(chain), msize, Request(newsize)) && Memory() == old(Memory())
        else r != rmem && IsFirstFit(old(chain), msize, Request(newsize), j) && r.off == old(chain)[j].at + HDR
      ensures Align4(newsize) > msize ==> r.Null? && chain == old(chain) && region[..] == old(region[..])
      ensures Align4(newsize) == 0 ==> r.Null? && chain == if InRange(rmem) then Release(old(chain), i) else old(chain)
      ensures 0 < Align4(newsize) <= msize ==>
        && (rmem.At? && !InRange(rmem) ==> r == rmem && chain == old(chain) && region[..] == old(region[..]))
        && (rmem.Null? || (InRange(rmem) && !InPlace(old(chain), i, newsize)) ==>
             && (r.Null? <==> NoFit(old(chain), msize, Request(newsize)))
             && (r.Null? ==> chain == old(chain) && region[..] == old(region[..]))
             && (r.At? ==> IsFirstFit(old(chain), msize, Request(newsize), j) && r.off == old(chain)[j].at + HDR))
        && (rmem.Null? && r.At? ==> chain == Allocate(old(chain), j, Request(newsize)))
        && (InRange(rmem) && InPlace(old(chain), i, newsize) ==>
             && r == rmem
             && chain == (if Room(old(chain), i) == Align4(newsize) then old(chain)
                          else Shrink(old(chain), i, Align4(newsize))))
        && (InRange(rmem) && !InPlace(old(chain), i, newsize) && r.At? ==>
             && chain == Relocated(old(chain), i, j, Request(newsize))
             && Arrived(old(region[..]), region[..], rmem.off, r.off, Min(Room(old(chain), i), Align4(newsize))))
      ensures KeepsPayloads(old(region[..]), region[..],
                            if !InRange(rmem) || Align4(newsize) > msize then old(chain)
                            else if Align4(newsize) != 0 && InPlace(old(chain), i, newsize)
                              then Resized(old(chain), i, newsize)
                            else HeapChain.SetUsed(old(chain), i, false))
      ensures maxMem == if r.At? && Serves(rmem, old(chain), i, newsize)
                        then Laws.Max(old(maxMem), UsedTotal(Allocate(old(chain), j, Request(newsize))))
                        else old(maxMem)
      ensures exists events: seq<Mem.Event> | |events| <= 3 :: Mem.Reaches(msize, old(Memory()), events, Memory())
    {
      hide Mem.Next, Mem.Reaches, KeepsPayloads, Encodes, NoTwoFree, Aligned, UsedTotal, Lowest, Tiled, Plug,
           Allocate, NoFit, BlockEncoded, HeadOf, Align4, Request, Arrived;
      if Points(rmem, chain, i) { PointsInside(rmem, i); }
      RoundTwice(newsize);
      j := 0;
      KeepsSame(region[..], old(chain));
      var size' := Align4(newsize);
      Mem.ReachesNone(msize, Memory());
      if size' > msize {
        return Null, j;
      } else if size' == 0 {
        Free(rmem, i);
        if InRange(rmem) {
          Mem.ReachesOne(msize, old(Memory()), Mem.Call(Laws.Free(i)), Memory());
        }
        return Null, j;
      }
      if rmem.Null? {
        r, j := Malloc(size');
        Mem.ReachesOne(msize, old(Memory()), Mem.Call(Laws.Malloc(size')), Memory());
        return;
      }
      if rmem.off < 0 || rmem.off >= msize + HDR {
        return rmem, j;
      }
      var mem := rmem.off - HDR;
      var next := HeadNext(mem, i);
      var size := next - mem - HDR;
      if size == size' {
        return rmem, j;
      }
      if size' + HDR + MIN < size {
        ShrinkInPlace(mem, size, size', i);
        Mem.ReachesOne(msize, old(Memory()), Mem.Call(Laws.Shrink(i, size')), Memory());
        return rmem, j;
      }
      r, j := Relocate(rmem, size, size', i);
    }

    // ---- rt_calloc -----------------------------------------------------------------

    /** The product of the arguments wraps at 32 bits, and the request is for the wrapped size. */
    method Calloc(count: nat, size: nat) returns (r: Ptr, ghost i: nat)
      requires count < TWO32 && size < TWO32
      requires Valid() && count * size % TWO32 + 3 < TWO32 && ScanEnds(count * size % TWO32)
      modifies this`lfree, this`usedMem, this`maxMem, this`chain, region
      ensures Valid()
      ensures var n := count * size % TWO32;
        && (r.Null? <==> n == 0 || Align4(n) > msize || NoFit(old(chain), msize, Request(n)))
        && (r.Null? ==> chain == old(chain) && region[..] == old(region[..]))
        && (r.At? ==> IsFirstFit(old(chain), msize, Request(n), i) && r.off == old(chain)[i].at + HDR)
        && (r.At? ==> chain == Allocate(old(chain), i, Request(n)) && maxMem == Laws.Max(old(maxMem), usedMem))
        && (r.At? ==> Zeroed(region[..], r.off, n))
        && (r.At? ==> i + 1 < |chain| && (Room(chain, i) >= count * size <==> count * size + 3 < TWO32))
        && (r.At? ==> Mem.Reaches(msize, old(Memory()),
              [Mem.Call(Laws.Malloc(n)), Mem.Write(i, r.off, region[r.off..r.off + n])], Memory()))
      ensures r.Null? ==> maxMem == old(maxMem)
      ensures KeepsPayloads(old(region[..]), region[..], old(chain))
    {
      hide Mem.Next, Mem.Reaches, KeepsPayloads, NoTwoFree, Aligned, UsedTotal, Lowest, Tiled, Allocate, NoFit,
           BlockEncoded, Zeroed, Request, Align4;
      var n := count * size % TWO32;
      r, i := ZeroedMalloc(n);
      if r.At? {
        Laws.CallocHoldsExactly(old(chain), msize, count, size, i);
      }
    }

    /** The body of rt_calloc, for the wrapped product n. */
    method ZeroedMalloc(n: nat) returns (r: Ptr, ghost i: nat)
      requires Valid() && n + 3 < TWO32 && ScanEnds(n)
      modifies this`lfree, this`usedMem, this`maxMem, this`chain, region
      ensures Valid()
      ensures r.Null? <==> n == 0 || Align4(n) > msize || NoFit(old(chain), msize, Request(n))
      ensures r.Null? ==> chain == old(chain) && region[..] == old(region[..]) && maxMem == old(maxMem)
      ensures r.At? ==> IsFirstFit(old(chain), msize, Request(n), i) && r.off == old(chain)[i].at + HDR
      ensures r.At? ==> chain == Allocate(old(chain), i, Request(n)) && maxMem == Laws.Max(old(maxMem), usedMem)
      ensures r.At? ==> Zeroed(region[..], r.off, n)
      ensures r.At? ==> Mem.Reaches(msize, old(Memory()),
        [Mem.Call(Laws.Malloc(n)), Mem.Write(i, r.off, region[r.off..r.off + n])], Memory())
      ensures KeepsPayloads(old(region[..]), region[..], old(chain))
    {
      hide Mem.Next, Mem.Reaches, KeepsPayloads, NoTwoFree, Aligned, UsedTotal, Lowest, Tiled, Allocate, NoFit,
           BlockEncoded;
      ghost var c := chain;
      ghost var b := region[..];
      r, i := Malloc(n);
      if r.At? {
        ghost var b1 := region[..];
        TakenCovers(c, msize, i, Request(n), n);
        ghost var m1 := Memory();
        ZeroPayload(r.off, n, i);
        ghost var x := region[r.off..r.off + n];
        Mem.ReachesTwo(msize, old(Memory()), Mem.Call(Laws.Malloc(n)), m1, Mem.Write(i, r.off, x), Memory());
        ZeroKeeps(b, b1, region[..], c, msize, i, n);
      }
    }

    /** rt_memset(p, 0, n) on a payload. */
    method ZeroPayload(dst: nat, n: nat, ghost j: nat)
      requires Valid() && (n > 0 ==> PayloadOf(chain, j, dst) && PayloadOf(chain, j, dst + n - 1))
      requires dst + n <= region.Length
      modifies region
      ensures Valid() && Zeroed(region[..], dst, n)
      ensures Mem.Next(msize, old(Memory()), Mem.Write(j, dst, region[dst..dst + n]), Memory())
      ensures forall k | 0 <= k < region.Length && !(dst <= k < dst + n) :: region[k] == old(region[k])
    {
      hide Encodes, NoTwoFree, Aligned, UsedTotal, Lowest, Mem.Next;
      ghost var b := region[..];
      ghost var m := Memory();
      MemoryOps.Memset(region, dst, 0, n);
      assert region[..] == MemoryOps.Filled(b, dst, 0, n);
      WriteEncodes(b, region[..], chain, msize, j, dst, n);
      Mem.WrittenIs(b, region[..], dst, n);
      Mem.WriteIsNext(msize, m, j, dst, region[dst..dst + n], region[..]);
    }
  }
}
