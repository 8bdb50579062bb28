/** When every block of the heap keeps a payload of at least the minimal size. */
module HeapRooms {
  import opened HeapChain
  import opened HeapLaws

  /** Every block, used or free, has the payload that the layout comment asks for. */
  ghost predicate Roomy(c: Chain) {
    forall i: nat | i + 1 < |c| :: Room(c, i) >= MIN
  }

  lemma RoomyAt(c: Chain, i: nat)
    requires Roomy(c) && i + 1 < |c|
    ensures Room(c, i) >= MIN
  {
  }

  lemma SplitRoomy(c: Chain, i: nat, size: nat)
    requires Roomy(c) && i + 1 < |c| && size >= MIN && Room(c, i) >= size + HDR + MIN
    ensures Roomy(Split(c, i, size, true))
  {
    var d := Split(c, i, size, true);
    forall j: nat | j + 1 < |d| ensures Room(d, j) >= MIN {
      RoomyAt(c, if j <= i then j else j - 1);
    }
  }

  lemma JoinRoomy(c: Chain, i: nat)
    requires Roomy(c) && i + 2 < |c|
    ensures Roomy(Join(c, i))
  {
    var d := Join(c, i);
    forall j: nat | j + 1 < |d| ensures Room(d, j) >= MIN {
      RoomyAt(c, if j <= i then j else j + 1);
      RoomyAt(c, i + 1);
    }
  }

  lemma FlagRoomy(c: Chain, i: nat, used: bool)
    requires Roomy(c) && i < |c|
    ensures Roomy(SetUsed(c, i, used))
  {
    var d := SetUsed(c, i, used);
    forall j: nat | j + 1 < |d| ensures Room(d, j) >= MIN {
      RoomyAt(c, j);
    }
  }

  lemma PlugRoomy(c: Chain, i: nat)
    requires Roomy(c) && i + 1 < |c|
    ensures Roomy(Plug(c, i))
  {
    if i + 2 < |c| && !c[i + 1].used { JoinRoomy(c, i); }
    var d := PlugForward(c, i);
    if 0 < i && !d[i - 1].used { JoinRoomy(d, i - 1); }
  }

  /** A block cut in place has exactly the rounded new size. */
  lemma CutRoom(c: Chain, i: nat, size: nat)
    requires i + 1 < |c| && c[i].used
    ensures i + 1 < |HeapChain.Shrink(c, i, size)| && Room(HeapChain.Shrink(c, i, size), i) == size
  {
  }

  /** Cutting block i leaves every payload minimal exactly when the block's own new one is. */
  lemma ShrinkRoomy(c: Chain, i: nat, size: nat)
    requires Roomy(c) && i + 1 < |c| && c[i].used && Room(c, i) >= size + HDR + MIN
    ensures Roomy(HeapChain.Shrink(c, i, size)) <==> size >= MIN
  {
    hide Roomy;
    CutRoom(c, i, size);
    if size >= MIN {
      SplitRoomy(c, i, size);
      PlugRoomy(Split(c, i, size, true), i + 1);
    } else if Roomy(HeapChain.Shrink(c, i, size)) {
      RoomyAt(HeapChain.Shrink(c, i, size), i);
    }
  }

  /** The call is a rt_realloc in place to a rounded size below the minimum. */
  predicate CutsBelowMinimum(call: Call) {
    call.Shrink? && Align4(call.newsize) < MIN
  }

  /** One call keeps every payload minimal if and only if it does not cut a block below the minimum. */
  lemma RoomyExactly(ms: nat, s: HeapState, call: Call, t: HeapState)
    requires Good(ms, s) && Roomy(s.chain) && Next(ms, s, call, t)
    ensures Roomy(t.chain) <==> !CutsBelowMinimum(call)
  {
    hide Good, Roomy, Plug, Split;
    match call
    case Malloc(size) =>
      if t != s {
        var i: nat :| IsFirstFit(s.chain, ms, Request(size), i) && t == Taken(s, i, Request(size));
        if Room(s.chain, i) >= Request(size) + HDR + MIN {
          SplitRoomy(s.chain, i, Request(size));
        } else {
          FlagRoomy(s.chain, i, true);
        }
      }
    case Free(i) =>
      FlagRoomy(s.chain, i, false);
      PlugRoomy(SetUsed(s.chain, i, false), i);
    case Shrink(i, newsize) =>
      ShrinkRoomy(s.chain, i, Align4(newsize));
  }

  /** Over every run: all payloads have stayed minimal if and only if the heap itself is no smaller and no
      call so far has cut a block below the minimum. */
  lemma {:induction false} RunRoomy(ms: nat, states: seq<HeapState>, calls: seq<Call>, n: nat)
    requires ms % 4 == 0 && Run(ms, states, calls) && n <= |calls|
    ensures (forall k: nat | k <= n :: Roomy(states[k].chain)) <==>
            ms >= MIN && forall k: nat | k < n :: !CutsBelowMinimum(calls[k])
  {
    hide Roomy, Next, CutsBelowMinimum;
    if n == 0 {
      FreshRoomy(ms);
    } else {
      RunRoomy(ms, states, calls, n - 1);
      assert Next(ms, states[n - 1], calls[n - 1], states[n]);
      RunGood(ms, states, calls, n - 1);
      if forall k: nat | k <= n - 1 :: Roomy(states[k].chain) {
        RoomyExactly(ms, states[n - 1], calls[n - 1], states[n]);
      }
    }
  }

  lemma FreshRoomy(ms: nat)
    ensures Roomy([Block(0, false), Block(ms + HDR, true)]) <==> ms >= MIN
  {
    assert Room([Block(0, false), Block(ms + HDR, true)], 0) == ms;
  }

  /** An input: rt_realloc of a block of 100 bytes to one byte leaves a payload of four. */
  lemma CutToFour()
    ensures
      var c := [Block(0, true), Block(112, false), Block(212, true)];
      var s, t := HeapState(c, 112, 112), HeapState(HeapChain.Shrink(c, 0, 4), 16, 112);
      && Good(200, s) && Roomy(c) && Next(200, s, HeapLaws.Shrink(0, 1), t)
      && Room(t.chain, 0) == 4 < MIN
  {
    var c := [Block(0, true), Block(112, false), Block(212, true)];
    assert UsedTotal(c) == UsedBefore(c, 1) == 112;
    CutRoom(c, 0, 4);
  }
}
