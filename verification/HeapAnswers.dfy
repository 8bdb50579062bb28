/** What each heap call answers and does, on the sizes and the live blocks before it. */
module HeapAnswers {
  import opened HeapChain
  import opened HeapRegion
  import opened HeapLaws

  // ---- The live blocks determine the block list ---------------------------------------------------

  /** A live block extends from offset a, where its header is, to offset b. */
  ghost predicate Extent(c: Chain, a: int, b: int) {
    exists k: nat :: ExtentAt(c, k, a, b)
  }

  ghost predicate ExtentAt(c: Chain, k: nat, a: int, b: int) {
    k + 1 < |c| && c[k].used && c[k].at == a && c[k + 1].at == b
  }

  /** The lists agree up to block k, except perhaps for the mark of block k. */
  ghost predicate Agree(c: Chain, d: Chain, k: nat) {
    k < |c| && k < |d| && c[k].at == d[k].at && c[..k] == d[..k]
  }

  lemma SameMark(c: Chain, d: Chain, ms: nat, k: nat)
    requires Tiled(c, ms) && Tiled(d, ms) && k + 1 < |c| && k + 1 < |d| && c[k].at == d[k].at && c[k].used
    requires forall a, b :: Extent(c, a, b) ==> Extent(d, a, b)
    ensures d[k].used && d[k + 1].at == c[k + 1].at
  {
    assert ExtentAt(c, k, c[k].at, c[k + 1].at) && Extent(c, c[k].at, c[k + 1].at);
    var j: nat :| ExtentAt(d, j, c[k].at, c[k + 1].at);
    if j < k { Apart(d, ms, j, k); }
    if k < j { Apart(d, ms, k, j); }
  }

  /** Behind a free block of both lists the next one starts no earlier in c than in d. */
  lemma NextNotBefore(c: Chain, d: Chain, ms: nat, k: nat)
    requires Sound(c, ms) && Sound(d, ms) && k + 1 < |c| && k + 1 < |d| && c[k].at == d[k].at
    requires !c[k].used && !d[k].used
    requires forall a, b :: Extent(c, a, b) ==> Extent(d, a, b)
    ensures d[k + 1].at <= c[k + 1].at
  {
    assert !FreePair(c, k);
    if k + 2 < |c| {
      assert ExtentAt(c, k + 1, c[k + 1].at, c[k + 2].at) && Extent(c, c[k + 1].at, c[k + 2].at);
      var j: nat :| ExtentAt(d, j, c[k + 1].at, c[k + 2].at);
      Apart(c, ms, k, k + 1);
      if j < k { Apart(d, ms, j, k); }
      if k + 1 < j { Apart(d, ms, k + 1, j); }
    } else if k + 1 < |d| - 1 {
      Apart(d, ms, k + 1, |d| - 1);
    }
  }

  lemma {:induction false} AgreeOn(c: Chain, d: Chain, ms: nat, k: nat)
    requires Sound(c, ms) && Sound(d, ms) && k < |c| && forall a, b :: Extent(c, a, b) <==> Extent(d, a, b)
    ensures Agree(c, d, k) && (k == |c| - 1 <==> k == |d| - 1)
  {
    hide NoTwoFree, Extent;
    if k == 0 {
      Apart(c, ms, 0, 1);
      Apart(d, ms, 0, 1);
    } else {
      AgreeOn(c, d, ms, k - 1);
      if c[k - 1].used {
        SameMark(c, d, ms, k - 1);
      } else if d[k - 1].used {
        SameMark(d, c, ms, k - 1);
      } else {
        NextNotBefore(c, d, ms, k - 1);
        NextNotBefore(d, c, ms, k - 1);
      }
      assert c[..k] == c[..k - 1] + [c[k - 1]] && d[..k] == d[..k - 1] + [d[k - 1]];
      if k < |c| - 1 { Apart(c, ms, k, |c| - 1); }
      if k < |d| - 1 { Apart(d, ms, k, |d| - 1); }
    }
  }

  /** Two sound lists with the same live blocks are the same. */
  lemma SameLive(c: Chain, d: Chain, ms: nat)
    requires Sound(c, ms) && Sound(d, ms) && forall a, b :: Extent(c, a, b) <==> Extent(d, a, b)
    ensures c == d
  {
    hide NoTwoFree, Extent;
    var n := |c| - 1;
    AgreeOn(c, d, ms, n);
    assert c == c[..n] + [c[n]] && d == d[..n] + [d[n]];
  }

  // ---- What the calls do to the live blocks -----------------------------------------------------

  lemma NoExtentAt(c: Chain, ms: nat, i: nat, b: int)
    requires Tiled(c, ms) && i + 1 < |c| && !c[i].used
    ensures !Extent(c, c[i].at, b)
  {
    if k: nat :| ExtentAt(c, k, c[i].at, b) {
      if k < i { Apart(c, ms, k, i); }
      if i < k { Apart(c, ms, i, k); }
    }
  }

  /** An extent that starts elsewhere belongs to another block. */
  lemma OtherBlock(c: Chain, ms: nat, i: nat, a: int, b: int) returns (k: nat)
    requires Tiled(c, ms) && i < |c| && Extent(c, a, b) && a != c[i].at
    ensures ExtentAt(c, k, a, b) && k != i
  {
    k :| ExtentAt(c, k, a, b);
  }

  /** A block beside the split one, in the split list and in the old one. */
  lemma SplitBeside(c: Chain, i: nat, size: nat, k: nat, a: int, b: int)
    requires i + 1 < |c|
    ensures k != i ==> (ExtentAt(c, k, a, b) ==> ExtentAt(Split(c, i, size, true), if k < i then k else k + 1, a, b))
    ensures k < i ==> (ExtentAt(Split(c, i, size, true), k, a, b) ==> ExtentAt(c, k, a, b))
    ensures k > i ==> (ExtentAt(Split(c, i, size, true), k, a, b) ==> k > i + 1 && ExtentAt(c, k - 1, a, b))
  {
  }

  lemma SplitSelf(c: Chain, i: nat, size: nat)
    requires i + 1 < |c|
    ensures i + 1 < |Split(c, i, size, true)| && Split(c, i, size, true)[i].at == c[i].at
    ensures ExtentAt(Split(c, i, size, true), i, c[i].at, c[i].at + HDR + size)
  {
  }

  lemma SplitExtents(c: Chain, ms: nat, i: nat, size: nat, a: int, b: int)
    requires Tiled(c, ms) && i + 1 < |c| && Room(c, i) >= size + HDR
    ensures Extent(Split(c, i, size, true), a, b) <==>
      if a == c[i].at then b == a + HDR + size else Extent(c, a, b)
  {
    var d := Split(c, i, size, true);
    SplitTiled(c, ms, i, size, true);
    SplitSelf(c, i, size);
    hide Tiled, Split;
    if a == c[i].at {
      if k: nat :| ExtentAt(d, k, a, b) {
        if k < i { Apart(d, ms, k, i); }
        if i < k { Apart(d, ms, i, k); }
      }
    } else {
      if Extent(c, a, b) {
        var k := OtherBlock(c, ms, i, a, b);
        SplitBeside(c, i, size, k, a, b);
      }
      if Extent(d, a, b) {
        var k := OtherBlock(d, ms, i, a, b);
        SplitBeside(c, i, size, k, a, b);
      }
    }
  }

  lemma FlagExtents(c: Chain, ms: nat, i: nat, used: bool, a: int, b: int)
    requires Tiled(c, ms) && i + 1 < |c|
    ensures Extent(SetUsed(c, i, used), a, b) <==>
      if a == c[i].at then used && b == c[i + 1].at else Extent(c, a, b)
  {
    var d := SetUsed(c, i, used);
    assert Tiled(d, ms);
    hide Tiled;
    if a == c[i].at {
      if used {
        assert ExtentAt(d, i, a, c[i + 1].at);
      }
      if k: nat :| ExtentAt(d, k, a, b) {
        if k < i { Apart(d, ms, k, i); }
        if i < k { Apart(d, ms, i, k); }
      }
    } else {
      if Extent(c, a, b) {
        var k := OtherBlock(c, ms, i, a, b);
        assert ExtentAt(d, k, a, b);
      }
      if Extent(d, a, b) {
        var k := OtherBlock(d, ms, i, a, b);
        assert ExtentAt(c, k, a, b);
      }
    }
  }

  /** Removing the border between two free blocks changes no live block. */
  lemma JoinExtents(c: Chain, i: nat, a: int, b: int)
    requires i + 2 < |c| && !c[i].used && !c[i + 1].used
    ensures Extent(Join(c, i), a, b) <==> Extent(c, a, b)
  {
    var d := Join(c, i);
    if Extent(c, a, b) {
      var k: nat :| ExtentAt(c, k, a, b);
      assert ExtentAt(d, if k < i then k else k - 1, a, b);
    }
    if Extent(d, a, b) {
      var k: nat :| ExtentAt(d, k, a, b);
      assert ExtentAt(c, if k < i then k else k + 1, a, b);
    }
  }

  lemma PlugExtents(c: Chain, i: nat, a: int, b: int)
    requires i + 1 < |c| && !c[i].used
    ensures Extent(Plug(c, i), a, b) <==> Extent(c, a, b)
  {
    hide Extent;
    var d := PlugForward(c, i);
    if i + 2 < |c| && !c[i + 1].used {
      JoinExtents(c, i, a, b);
    }
    if 0 < i && !d[i - 1].used {
      JoinExtents(d, i - 1, a, b);
    }
  }

  /** Serving a request from a free block adds one live block at its front: of exactly the size asked for when
      a header and MIN_SIZE are left over, and the whole block otherwise. */
  lemma AllocateExactly(c: Chain, ms: nat, i: nat, size: nat, a: int, b: int)
    requires Sound(c, ms) && i + 1 < |c| && !c[i].used && Room(c, i) >= size
    ensures Sound(Allocate(c, i, size), ms)
    ensures Extent(Allocate(c, i, size), a, b) <==>
      || Extent(c, a, b)
      || (a == c[i].at && b == if Room(c, i) >= size + 24 then a + 12 + size else c[i + 1].at)
  {
    hide Extent, NoTwoFree, Tiled;
    AllocateSound(c, ms, i, size);
    NoExtentAt(c, ms, i, b);
    if Room(c, i) >= size + HDR + MIN {
      SplitExtents(c, ms, i, size, a, b);
    } else {
      FlagExtents(c, ms, i, true, a, b);
    }
  }

  /** Freeing takes away exactly the block freed. */
  lemma ReleaseExactly(c: Chain, ms: nat, i: nat, a: int, b: int)
    requires Sound(c, ms) && i + 1 < |c| && c[i].used
    ensures Sound(Release(c, i), ms)
    ensures Extent(Release(c, i), a, b) <==> Extent(c, a, b) && a != c[i].at
  {
    hide Extent, NoTwoFree, Tiled, Plug;
    ReleaseSound(c, ms, i);
    FlagExtents(c, ms, i, false, a, b);
    PlugExtents(SetUsed(c, i, false), i, a, b);
  }

  /** Cutting a block in place changes nothing but its end. */
  lemma ShrinkExactly(c: Chain, ms: nat, i: nat, size: nat, a: int, b: int)
    requires Sound(c, ms) && i + 1 < |c| && c[i].used && Room(c, i) >= size + HDR
    ensures Sound(HeapChain.Shrink(c, i, size), ms)
    ensures Extent(HeapChain.Shrink(c, i, size), a, b) <==>
      if a == c[i].at then b == a + 12 + size else Extent(c, a, b)
  {
    hide Extent, NoTwoFree, Tiled, Plug, Split;
    ShrinkSound(c, ms, i, size);
    SplitExtents(c, ms, i, size, a, b);
    CutFree(c, i, size);
    PlugExtents(Split(c, i, size, true), i + 1, a, b);
  }

  lemma CutFree(c: Chain, i: nat, size: nat)
    requires i + 1 < |c|
    ensures i + 2 < |Split(c, i, size, true)| && !Split(c, i, size, true)[i + 1].used
  {
  }

  // ---- Sizes --------------------------------------------------------------------------------------

  /** What a request comes to: 12 bytes at least, and a multiple of four. */
  function Needed(size: nat): nat {
    if size <= 12 then 12 else size + (4 - size % 4) % 4
  }

  lemma RequestExactly(size: nat)
    requires size + 3 < TWO32
    ensures Request(size) == Needed(size)
    ensures size > 12 ==> Align4(size) == Needed(size)
  {
  }

  /** The block can serve the size: it is free and large enough, and no exact fit in last place. */
  ghost predicate Serves(c: Chain, size: nat, i: nat) {
    && i + 1 < |c| && !c[i].used
    && c[i + 1].at - c[i].at - 12 >= Needed(size)
    && (i + 2 == |c| ==> c[i + 1].at - c[i].at - 12 > Needed(size))
  }

  /** rt_malloc takes the lowest block that can serve the size, and finds none exactly when there is none. */
  lemma FindsExactly(c: Chain, ms: nat, size: nat, i: nat)
    requires Tiled(c, ms) && size + 3 < TWO32
    ensures NoFit(c, ms, Request(size)) <==> forall k: nat :: !Serves(c, size, k)
    ensures IsFirstFit(c, ms, Request(size), i) <==> Serves(c, size, i) && forall k: nat | k < i :: !Serves(c, size, k)
  {
    hide Tiled, Align4, Request;
    RequestExactly(size);
    forall k: nat ensures Fits(c, ms, Request(size), k) <==> Serves(c, size, k) {
      ServesFits(c, ms, size, k);
    }
    hide Fits, Serves;
  }

  lemma ServesFits(c: Chain, ms: nat, size: nat, k: nat)
    requires Tiled(c, ms) && size + 3 < TWO32
    ensures Fits(c, ms, Request(size), k) <==> Serves(c, size, k)
  {
    RequestExactly(size);
    if HasRoom(c, Request(size), k) {
      PassedOver(c, ms, Request(size), k);
    }
    hide Request, Align4;
  }

  // ---- rt_realloc ---------------------------------------------------------------------------------

  /** rt_realloc leaves a block where it is exactly when the rounded size is the size it has, or leaves more
      than a header and MIN_SIZE over. */
  lemma InPlaceExactly(c: Chain, i: nat, newsize: nat)
    requires i + 1 < |c| && newsize + 3 < TWO32
    ensures InPlace(c, i, newsize) <==>
      var room, want := c[i + 1].at - c[i].at - 12, newsize + (4 - newsize % 4) % 4;
      room == want || want + 24 < room
  {
  }
}
