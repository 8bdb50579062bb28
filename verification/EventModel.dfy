/** Event flags: rt_event_send, rt_event_recv and the reset command as steps. */
module EventModel {
  import opened WaitQueue

  type Bits = bv32

  const AND: bv8 := 0x01
  const OR: bv8 := 0x02
  const CLEAR: bv8 := 0x04

  predicate ByAnd(option: bv8) { option & AND != 0 }

  predicate ByOr(option: bv8) { option & OR != 0 }

  predicate Clears(option: bv8) { option & CLEAR != 0 }

  /** The receive option names a mode; the source asserts it. */
  predicate HasMode(option: bv8) { ByAnd(option) || ByOr(option) }

  /** The test that rt_event_send and rt_event_recv apply to a request. */
  predicate Met(flags: Bits, want: Bits, option: bv8) {
    if ByAnd(option) then want & flags == want
    else ByOr(option) && want & flags != 0
  }

  /** What a woken thread finds in its event_set: an OR request is narrowed to the bits present. */
  function Delivered(flags: Bits, want: Bits, option: bv8): Bits {
    if ByAnd(option) then want else Meet(want, flags)
  }

  function Cleared(flags: Bits, bits: Bits, option: bv8): Bits {
    if Clears(option) then Minus(flags, bits) else flags
  }

  predicate Subset(a: Bits, b: Bits) { a & b == a }

  predicate Disjoint(a: Bits, b: Bits) { a & b == 0 }

  predicate SomeBit(a: Bits) { a != 0 }

  function Meet(a: Bits, b: Bits): Bits { a & b }

  function Minus(a: Bits, b: Bits): Bits { a & !b }

  function Union(a: Bits, b: Bits): Bits { a | b }

  // ---- Facts about bits --------------------------------------------------------------

  lemma MeetSubset(a: Bits, b: Bits)
    ensures Subset(Meet(a, b), b) && Subset(Meet(a, b), a) && Meet(a, b) == Meet(b, a)
  {
  }

  lemma MinusSubset(a: Bits, b: Bits)
    ensures Subset(Minus(a, b), a) && Disjoint(Minus(a, b), b)
  {
  }

  lemma MinusMeet(a: Bits, b: Bits)
    ensures Minus(a, Meet(b, a)) == Minus(a, b)
  {
  }

  lemma SubsetTrans(a: Bits, b: Bits, c: Bits)
    requires Subset(a, b) && Subset(b, c)
    ensures Subset(a, c)
  {
  }

  lemma MeetShrinks(want: Bits, small: Bits, large: Bits)
    requires Subset(small, large)
    ensures want & small != 0 ==> want & large != 0
    ensures want & small == want ==> want & large == want
  {
  }

  lemma DisjointBelow(a: Bits, flags: Bits, b: Bits)
    requires Disjoint(flags, a) && Subset(b, flags)
    ensures Disjoint(a, b)
  {
  }

  // ---- One request -------------------------------------------------------------------

  lemma MetNeedsBits(small: Bits, large: Bits, want: Bits, option: bv8)
    requires Subset(small, large) && Met(small, want, option)
    ensures Met(large, want, option)
  {
    MeetShrinks(want, small, large);
    hide ByAnd, ByOr, Subset;
  }

  /** The path through the suspend list and the immediate path deliver the same bits and leave the same
      flags behind. */
  lemma PathsAgree(flags: Bits, want: Bits, option: bv8)
    requires Met(flags, want, option)
    ensures Delivered(flags, want, option) == Meet(flags, want)
    ensures Cleared(flags, Delivered(flags, want, option), option) == Cleared(flags, want, option)
    ensures SomeBit(want) ==> SomeBit(Delivered(flags, want, option))
    ensures Subset(Delivered(flags, want, option), flags) && Subset(Delivered(flags, want, option), want)
    ensures ByAnd(option) ==> Delivered(flags, want, option) == want
  {
    MeetSubset(want, flags);
    MinusMeet(flags, want);
    hide ByAnd, ByOr, Clears, Subset;
  }

  lemma ClearedShrinks(flags: Bits, bits: Bits, option: bv8)
    ensures Subset(Cleared(flags, bits, option), flags)
    ensures Clears(option) ==> Disjoint(Cleared(flags, bits, option), bits)
  {
    MinusSubset(flags, bits);
    hide Clears;
  }

  // ---- The wake-up walk of rt_event_send ------------------------------------------------

  /** The walk's result: the flags left, the threads still suspended, every thread's event_set, the
      threads resumed in order, and whether a request without a mode stopped the walk. */
  datatype Walk = Walk(flags: Bits, waiters: seq<Thread>, want: map<Thread, Bits>, woken: seq<Thread>, stopped: bool)

  /** Every thread of the list has a request. */
  predicate Covered(q: seq<Thread>, want: map<Thread, Bits>, info: map<Thread, bv8>) {
    forall x | x in q :: x in want && x in info
  }

  lemma CoveredHead(q: seq<Thread>, want: map<Thread, Bits>, info: map<Thread, bv8>)
    requires Covered(q, want, info) && q != []
    ensures q[0] in want && q[0] in info
  {
  }

  function Wake(q: seq<Thread>, flags: Bits, want: map<Thread, Bits>, info: map<Thread, bv8>): (r: Walk)
    requires Covered(q, want, info)
    ensures r.want.Keys == want.Keys
  {
    if q == [] then Walk(flags, [], want, [], false)
    else
      var t := q[0];
      if !HasMode(info[t]) then Walk(flags, q, want, [], true)
      else if Met(flags, want[t], info[t]) then
        var d := Delivered(flags, want[t], info[t]);
        var r := Wake(q[1..], Cleared(flags, d, info[t]), want[t := d], info);
        r.(woken := [t] + r.woken)
      else
        var r := Wake(q[1..], flags, want, info);
        r.(waiters := [t] + r.waiters)
  }

  /** A walk that has passed `kept` and resumed `done` continues like a walk of the rest. */
  function Behind(kept: seq<Thread>, done: seq<Thread>, r: Walk): Walk {
    r.(waiters := kept + r.waiters, woken := done + r.woken)
  }

  lemma WakeUnfold(kept: seq<Thread>, done: seq<Thread>, q: seq<Thread>, flags: Bits, want: map<Thread, Bits>,
                   info: map<Thread, bv8>)
    requires q != [] && Covered(q, want, info) && HasMode(info[q[0]])
    ensures Covered(q[1..], want, info) && Covered(q[1..], want[q[0] := Delivered(flags, want[q[0]], info[q[0]])], info)
    ensures var t := q[0];
      var d := Delivered(flags, want[t], info[t]);
      Behind(kept, done, Wake(q, flags, want, info)) ==
        if Met(flags, want[t], info[t]) then
          Behind(kept, done + [t], Wake(q[1..], Cleared(flags, d, info[t]), want[t := d], info))
        else
          Behind(kept + [t], done, Wake(q[1..], flags, want, info))
  {
    hide Met, Delivered, Cleared, HasMode;
    var t := q[0];
    var d := Delivered(flags, want[t], info[t]);
    if Met(flags, want[t], info[t]) {
      var r := Wake(q[1..], Cleared(flags, d, info[t]), want[t := d], info);
      assert done + ([t] + r.woken) == (done + [t]) + r.woken;
    } else {
      var r := Wake(q[1..], flags, want, info);
      assert kept + ([t] + r.waiters) == (kept + [t]) + r.waiters;
    }
  }

  ghost predicate AllModes(q: seq<Thread>, info: map<Thread, bv8>) {
    forall x | x in q :: x in info && HasMode(info[x])
  }

  /** Requests that nobody else's turn can change: the walk visits each thread once. */
  ghost predicate Walkable(q: seq<Thread>, want: map<Thread, Bits>, info: map<Thread, bv8>) {
    Distinct(q) && AllModes(q, info) && forall x | x in q :: x in want
  }

  lemma Tail(q: seq<Thread>, want: map<Thread, Bits>, info: map<Thread, bv8>, d: Bits)
    requires Walkable(q, want, info) && q != []
    ensures Walkable(q[1..], want, info) && Walkable(q[1..], want[q[0] := d], info)
    ensures q[0] !in q[1..]
    ensures forall x :: x in q <==> x == q[0] || x in q[1..]
  {
  }

  /** Every thread of the list is either resumed or stays, never both, and the walk runs to its end. */
  lemma {:induction false} WakeSplits(q: seq<Thread>, flags: Bits, want: map<Thread, Bits>, info: map<Thread, bv8>)
    requires Walkable(q, want, info)
    ensures var r := Wake(q, flags, want, info);
      && !r.stopped
      && (forall x :: x in q <==> x in r.waiters || x in r.woken)
      && (forall x :: !(x in r.waiters && x in r.woken))
      && Distinct(r.waiters) && Distinct(r.woken)
      && (forall x | x in want && x !in r.woken :: r.want[x] == want[x])
  {
    hide Met, Delivered, Cleared;
    if q != [] {
      var t := q[0];
      var d := Delivered(flags, want[t], info[t]);
      Tail(q, want, info, d);
      assert HasMode(info[t]);
      if Met(flags, want[t], info[t]) {
        WakeSplits(q[1..], Cleared(flags, d, info[t]), want[t := d], info);
      } else {
        WakeSplits(q[1..], flags, want, info);
      }
    }
  }

  /** Bits only leave during the walk. */
  lemma {:induction false} WakeShrinks(q: seq<Thread>, flags: Bits, want: map<Thread, Bits>, info: map<Thread, bv8>)
    requires Covered(q, want, info)
    ensures Subset(Wake(q, flags, want, info).flags, flags)
  {
    hide Met, Delivered, Cleared, HasMode;
    if q != [] {
      var t := q[0];
      var d := Delivered(flags, want[t], info[t]);
      var f := Cleared(flags, d, info[t]);
      if HasMode(info[t]) {
        if Met(flags, want[t], info[t]) {
          WakeShrinks(q[1..], f, want[t := d], info);
          ClearedShrinks(flags, d, info[t]);
          SubsetTrans(Wake(q[1..], f, want[t := d], info).flags, f, flags);
        } else {
          WakeShrinks(q[1..], flags, want, info);
        }
      }
    }
  }

  /** Completeness: although the flags shrink during the walk, no thread that stays could be resumed. */
  lemma {:induction false} WakeComplete(q: seq<Thread>, flags: Bits, want: map<Thread, Bits>, info: map<Thread, bv8>)
    requires Walkable(q, want, info)
    ensures var r := Wake(q, flags, want, info);
      forall x | x in r.waiters :: x in want && x in info && !Met(r.flags, want[x], info[x])
  {
    hide Met, Delivered, Cleared, HasMode, Subset;
    if q != [] {
      var t := q[0];
      var d := Delivered(flags, want[t], info[t]);
      Tail(q, want, info, d);
      var r := Wake(q, flags, want, info);
      WakeSplits(q, flags, want, info);
      if Met(flags, want[t], info[t]) {
        WakeComplete(q[1..], Cleared(flags, d, info[t]), want[t := d], info);
      } else {
        WakeComplete(q[1..], flags, want, info);
        WakeShrinks(q[1..], flags, want, info);
        if Met(r.flags, want[t], info[t]) {
          MetNeedsBits(r.flags, flags, want[t], info[t]);
        }
      }
    }
  }

  /** A resumed thread gets bits that were set and that it asked for: all of them for AND, at least one
      for OR. */
  lemma {:induction false} WakeDelivers(q: seq<Thread>, flags: Bits, want: map<Thread, Bits>, info: map<Thread, bv8>,
                                        x: Thread)
    requires Walkable(q, want, info) && x in Wake(q, flags, want, info).woken
    ensures var got := Wake(q, flags, want, info).want;
      && x in got && x in want && x in info
      && Subset(got[x], flags) && Subset(got[x], want[x])
      && (ByAnd(info[x]) ==> got[x] == want[x])
      && (SomeBit(want[x]) ==> SomeBit(got[x]))
  {
    hide Met, Delivered, Cleared, HasMode, Subset, ByAnd, SomeBit;
    var t := q[0];
    var d := Delivered(flags, want[t], info[t]);
    Tail(q, want, info, d);
    if Met(flags, want[t], info[t]) {
      var f := Cleared(flags, d, info[t]);
      WakeSplits(q[1..], f, want[t := d], info);
      if x == t {
        PathsAgree(flags, want[t], info[t]);
      } else {
        WakeDelivers(q[1..], f, want[t := d], info, x);
        ClearedShrinks(flags, d, info[t]);
        SubsetTrans(Wake(q[1..], f, want[t := d], info).want[x], f, flags);
      }
    } else {
      WakeDelivers(q[1..], flags, want, info, x);
    }
  }

  /** What the first thread takes with CLEAR is out of reach for the rest of the walk. */
  lemma FirstTakes(q: seq<Thread>, flags: Bits, want: map<Thread, Bits>, info: map<Thread, bv8>, b: Thread)
    requires Walkable(q, want, info) && q != [] && Clears(info[q[0]])
    requires var d := Delivered(flags, want[q[0]], info[q[0]]);
      b in Wake(q[1..], Cleared(flags, d, info[q[0]]), want[q[0] := d], info).woken
    ensures var d := Delivered(flags, want[q[0]], info[q[0]]);
      var got := Wake(q[1..], Cleared(flags, d, info[q[0]]), want[q[0] := d], info).want;
      b in got && Disjoint(d, got[b])
  {
    hide Delivered, Cleared, HasMode, Subset, Clears, Disjoint, Wake;
    var t := q[0];
    var d := Delivered(flags, want[t], info[t]);
    var f := Cleared(flags, d, info[t]);
    Tail(q, want, info, d);
    WakeDelivers(q[1..], f, want[t := d], info, b);
    ClearedShrinks(flags, d, info[t]);
    DisjointBelow(d, f, Wake(q[1..], f, want[t := d], info).want[b]);
  }

  /** Each CLEAR waiter's bits are given to nobody resumed after it. */
  ghost predicate ClearsApart(woken: seq<Thread>, got: map<Thread, Bits>, info: map<Thread, bv8>)
    requires forall x | x in woken :: x in got && x in info
  {
    woken == []
    || (&& (Clears(info[woken[0]]) ==> forall x | x in woken[1..] :: Disjoint(got[woken[0]], got[x]))
        && ClearsApart(woken[1..], got, info))
  }

  lemma {:induction false} WakeApart(q: seq<Thread>, flags: Bits, want: map<Thread, Bits>, info: map<Thread, bv8>)
    requires Walkable(q, want, info)
    ensures var r := Wake(q, flags, want, info);
      && (forall x | x in r.woken :: x in r.want && x in info)
      && ClearsApart(r.woken, r.want, info)
  {
    hide Met, Delivered, Cleared, HasMode, Clears, Disjoint, Distinct;
    WakeSplits(q, flags, want, info);
    if q != [] {
      var t := q[0];
      var d := Delivered(flags, want[t], info[t]);
      Tail(q, want, info, d);
      if Met(flags, want[t], info[t]) {
        var f := Cleared(flags, d, info[t]);
        var rest := Wake(q[1..], f, want[t := d], info);
        WakeApart(q[1..], f, want[t := d], info);
        WakeSplits(q[1..], f, want[t := d], info);
        assert ([t] + rest.woken)[1..] == rest.woken;
        if Clears(info[t]) {
          forall b | b in rest.woken ensures Disjoint(d, rest.want[b]) {
            FirstTakes(q, flags, want, info, b);
          }
        }
      } else {
        WakeApart(q[1..], flags, want, info);
      }
    }
  }

  lemma {:induction false} ApartByIndex(woken: seq<Thread>, got: map<Thread, Bits>, info: map<Thread, bv8>, i: nat,
                                        j: nat)
    requires (forall x | x in woken :: x in got && x in info) && ClearsApart(woken, got, info)
    requires i < j < |woken| && Clears(info[woken[i]])
    ensures Disjoint(got[woken[i]], got[woken[j]])
  {
    hide Clears, Disjoint;
    if i == 0 {
      assert woken[j] == woken[1..][j - 1];
    } else {
      ApartByIndex(woken[1..], got, info, i - 1, j - 1);
    }
  }

  /** In one send the bits given to two CLEAR waiters are disjoint. */
  lemma WakeDisjoint(q: seq<Thread>, flags: Bits, want: map<Thread, Bits>, info: map<Thread, bv8>, i: nat, j: nat)
    requires Walkable(q, want, info)
    requires i < |Wake(q, flags, want, info).woken| && j < |Wake(q, flags, want, info).woken| && i != j
    ensures var r := Wake(q, flags, want, info);
      var a, b := r.woken[i], r.woken[j];
      && a in r.want && b in r.want && a in info && b in info
      && (Clears(info[a]) && Clears(info[b]) ==> Disjoint(r.want[a], r.want[b]))
  {
    WakeApart(q, flags, want, info);
    var r := Wake(q, flags, want, info);
    assert r.woken[i] in r.woken && r.woken[j] in r.woken;
    hide Clears, Wake;
    if Clears(info[r.woken[i]]) && Clears(info[r.woken[j]]) {
      ApartByIndex(r.woken, r.want, info, if i < j then i else j, if i < j then j else i);
    }
  }

  /** All bits delivered to CLEAR waiters. */
  function Consumed(woken: seq<Thread>, got: map<Thread, Bits>, info: map<Thread, bv8>): Bits
    requires forall x | x in woken :: x in got && x in info
  {
    if woken == [] then 0
    else if Clears(info[woken[0]]) then Union(got[woken[0]], Consumed(woken[1..], got, info))
    else Consumed(woken[1..], got, info)
  }

  lemma MinusTwice(a: Bits, b: Bits, c: Bits)
    ensures Minus(Minus(a, b), c) == Minus(a, Union(b, c))
  {
  }

  lemma MinusNothing(a: Bits)
    ensures Minus(a, 0) == a
  {
  }

  /** The send consumes exactly the bits it delivered to CLEAR waiters. */
  lemma {:induction false} WakeConsumes(q: seq<Thread>, flags: Bits, want: map<Thread, Bits>, info: map<Thread, bv8>)
    requires Walkable(q, want, info)
    ensures var r := Wake(q, flags, want, info);
      && (forall x | x in r.woken :: x in r.want && x in info)
      && r.flags == Minus(flags, Consumed(r.woken, r.want, info))
  {
    hide Met, Delivered, HasMode, Clears, Minus, Union;
    WakeSplits(q, flags, want, info);
    if q == [] {
      MinusNothing(flags);
    } else {
      var t := q[0];
      var d := Delivered(flags, want[t], info[t]);
      Tail(q, want, info, d);
      if Met(flags, want[t], info[t]) {
        var rest := Wake(q[1..], Cleared(flags, d, info[t]), want[t := d], info);
        WakeSplits(q[1..], Cleared(flags, d, info[t]), want[t := d], info);
        WakeConsumes(q[1..], Cleared(flags, d, info[t]), want[t := d], info);
        var c := Consumed(rest.woken, rest.want, info);
        MinusTwice(flags, d, c);
        assert ([t] + rest.woken)[1..] == rest.woken;
      } else {
        WakeConsumes(q[1..], flags, want, info);
      }
    }
  }
}
