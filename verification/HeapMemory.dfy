/** Runs of the heap together with its clients, on the bytes of the region: what a client has written into a
    live block stays there until somebody writes it again or the block is given back. */
module HeapMemory {
  import opened CText
  import opened HeapChain
  import opened HeapRegion
  import Laws = HeapLaws

  datatype Memory = Memory(bytes: Text, books: Laws.HeapState)

  /** A call that changes the block list, or a client's write of x at offset `at` into the live block i. */
  datatype Event = Call(call: Laws.Call) | Write(i: nat, at: nat, x: Text)

  /** The bytes from `at` on become x. */
  function Written(b: Text, at: nat, x: Text): Text
    requires at + |x| <= |b|
  {
    b[..at] + x + b[at + |x|..]
  }

  /** The bytes lie in the payload of the used block i. */
  ghost predicate Inside(c: Chain, i: nat, at: nat, n: nat) {
    n > 0 ==> i + 1 < |c| && c[i].used && c[i].at + HDR <= at && at + n <= c[i + 1].at
  }

  /** The blocks whose payload a call must not touch: a freed block is given up, a cut one keeps its front. */
  ghost function Kept(s: Laws.HeapState, call: Laws.Call): Chain
    requires Laws.Legal(s, call)
  {
    match call
    case Malloc(size) => s.chain
    case Free(i) => SetUsed(s.chain, i, false)
    case Shrink(i, newsize) => Split(s.chain, i, Align4(newsize), true)
  }

  /** One step; the methods of SmallHeap.Heap promise it. */
  ghost predicate Next(ms: nat, m: Memory, e: Event, r: Memory) {
    match e
    case Call(call) =>
      && Laws.Next(ms, m.books, call, r.books) && Encodes(r.bytes, r.books.chain, ms)
      && KeepsPayloads(m.bytes, r.bytes, Kept(m.books, call))
    case Write(i, at, x) =>
      && Inside(m.books.chain, i, at, |x|) && at + |x| <= |m.bytes|
      && r == Memory(Written(m.bytes, at, x), m.books)
  }

  // ---- Sequences of steps ------------------------------------------------------------------------

  ghost predicate Reaches(ms: nat, m: Memory, events: seq<Event>, r: Memory)
    decreases |events|
  {
    if events == [] then m == r
    else exists mid: Memory :: Next(ms, m, events[0], mid) && Reaches(ms, mid, events[1..], r)
  }

  lemma ReachesNone(ms: nat, m: Memory)
    ensures Reaches(ms, m, [], m)
  {
  }

  lemma ReachesOne(ms: nat, m: Memory, e: Event, r: Memory)
    requires Next(ms, m, e, r)
    ensures Reaches(ms, m, [e], r)
  {
    hide Next;
    assert Reaches(ms, r, [], r);
    assert [e][1..] == [];
  }

  lemma ReachesTwo(ms: nat, m: Memory, e: Event, mid: Memory, f: Event, r: Memory)
    requires Next(ms, m, e, mid) && Next(ms, mid, f, r)
    ensures Reaches(ms, m, [e, f], r)
  {
    hide Next;
    ReachesOne(ms, mid, f, r);
    assert [e, f][1..] == [f];
  }

  lemma ReachesThree(ms: nat, m: Memory, e: Event, m1: Memory, f: Event, m2: Memory, g: Event, r: Memory)
    requires Next(ms, m, e, m1) && Next(ms, m1, f, m2) && Next(ms, m2, g, r)
    ensures Reaches(ms, m, [e, f, g], r)
  {
    hide Next;
    ReachesTwo(ms, m1, f, m2, g, r);
    assert [e, f, g][1..] == [f, g];
  }

  /** Writing into a live payload is a step. */
  lemma WriteIsNext(ms: nat, m: Memory, i: nat, at: nat, x: Text, b: Text)
    requires at + |x| <= |m.bytes| && b == Written(m.bytes, at, x)
    requires x != [] ==> PayloadOf(m.books.chain, i, at) && PayloadOf(m.books.chain, i, at + |x| - 1)
    ensures Next(ms, m, Write(i, at, x), Memory(b, m.books))
  {
  }

  /** A text that differs from b in the n bytes from `at` on only is b with these bytes written. */
  lemma WrittenIs(b: Text, d: Text, at: nat, n: nat)
    requires |d| == |b| && at + n <= |b|
    requires forall k | 0 <= k < |b| && !(at <= k < at + n) :: d[k] == b[k]
    ensures d == Written(b, at, d[at..at + n])
  {
  }

  // ---- One step ----------------------------------------------------------------------------------

  ghost predicate Good(ms: nat, m: Memory) {
    Laws.Good(ms, m.books) && Encodes(m.bytes, m.books.chain, ms)
  }

  lemma WriteGood(ms: nat, m: Memory, i: nat, at: nat, x: Text)
    requires Good(ms, m) && Inside(m.books.chain, i, at, |x|) && at + |x| <= |m.bytes|
    ensures Encodes(Written(m.bytes, at, x), m.books.chain, ms)
  {
    if x == [] {
      assert Written(m.bytes, at, x) == m.bytes;
    } else {
      hide Encodes, NoTwoFree, Aligned, UsedTotal;
      WriteEncodes(m.bytes, Written(m.bytes, at, x), m.books.chain, ms, i, at, |x|);
    }
  }

  lemma NextGood(ms: nat, m: Memory, e: Event, r: Memory)
    requires Good(ms, m) && Next(ms, m, e, r)
    ensures Good(ms, r) && |r.bytes| == |m.bytes|
  {
    match e
    case Call(call) =>
      hide Encodes, Laws.Good, Laws.Next;
      Laws.NextGood(ms, m.books, call, r.books);
    case Write(i, at, x) =>
      WriteGood(ms, m, i, at, x);
  }

  /** Plugging makes no byte live. */
  lemma JoinLive(c: Chain, i: nat, k: int)
    requires i + 2 < |c| && !c[i].used && !c[i + 1].used && Live(Join(c, i), k)
    ensures Live(c, k)
  {
    var j: nat :| PayloadOf(Join(c, i), j, k);
    assert PayloadOf(c, if j < i then j else j + 1, k);
  }

  lemma PlugLive(c: Chain, i: nat, k: int)
    requires i + 1 < |c| && !c[i].used && Live(Plug(c, i), k)
    ensures Live(c, k)
  {
    hide Live;
    var d := PlugForward(c, i);
    if 0 < i && !d[i - 1].used {
      JoinLive(d, i - 1, k);
    }
    if i + 2 < |c| && !c[i + 1].used {
      JoinLive(c, i, k);
    }
  }

  /** What is live before and after a call is among the bytes it keeps. */
  lemma LiveKept(ms: nat, s: Laws.HeapState, call: Laws.Call, t: Laws.HeapState, k: int)
    requires Laws.Next(ms, s, call, t) && Live(s.chain, k) && Live(t.chain, k)
    ensures Live(Kept(s, call), k)
  {
    hide Live, Plug, Split;
    match call
    case Malloc(size) =>
    case Free(i) => PlugLive(SetUsed(s.chain, i, false), i, k);
    case Shrink(i, newsize) => CutLive(s.chain, i, Align4(newsize), k);
  }

  lemma CutLive(c: Chain, i: nat, size: nat, k: int)
    requires i + 1 < |c| && Live(HeapChain.Shrink(c, i, size), k)
    ensures Live(Split(c, i, size, true), k)
  {
    hide Live, Plug;
    PlugLive(Split(c, i, size, true), i + 1, k);
  }

  /** The event writes the byte at k. */
  ghost predicate Covers(e: Event, k: nat) {
    e.Write? && e.at <= k < e.at + |e.x|
  }

  /** A byte that is live before and after a step, and that the step does not write, keeps its value. */
  lemma NextHolds(ms: nat, m: Memory, e: Event, r: Memory, k: nat)
    requires Next(ms, m, e, r) && k < |m.bytes| && !Covers(e, k)
    requires Live(m.books.chain, k) && Live(r.books.chain, k)
    ensures k < |r.bytes| && r.bytes[k] == m.bytes[k]
  {
    match e
    case Call(call) =>
      LiveKept(ms, m.books, call, r.books, k);
      hide Encodes, Laws.Next, Kept;
    case Write(i, at, x) =>
  }

  // ---- Runs --------------------------------------------------------------------------------------

  /** A run from a heap in order. */
  ghost predicate Run(ms: nat, memories: seq<Memory>, events: seq<Event>) {
    && |memories| == |events| + 1 && Good(ms, memories[0])
    && forall n: nat | n < |events| :: Next(ms, memories[n], events[n], memories[n + 1])
  }

  /** Whatever calls are made and whatever is written into live blocks, the headers go on encoding a sound
      block list and the books are right. */
  lemma {:induction false} RunGood(ms: nat, memories: seq<Memory>, events: seq<Event>, n: nat)
    requires Run(ms, memories, events) && n < |memories|
    ensures Good(ms, memories[n]) && |memories[n].bytes| == |memories[0].bytes|
  {
    hide Good, Next;
    if n > 0 {
      RunGood(ms, memories, events, n - 1);
      assert Next(ms, memories[n - 1], events[n - 1], memories[n]);
      NextGood(ms, memories[n - 1], events[n - 1], memories[n]);
    }
  }

  /** The byte at k has been live in all states from m on, and has not been written by the events from m on. */
  ghost predicate Untouched(memories: seq<Memory>, events: seq<Event>, k: nat, m: nat, n: nat) {
    && m <= n < |memories| && |events| + 1 == |memories|
    && (forall p: nat | m <= p <= n :: Live(memories[p].books.chain, k))
    && forall p: nat | m <= p < n :: !Covers(events[p], k)
  }

  lemma {:induction false} StaysUntouched(ms: nat, memories: seq<Memory>, events: seq<Event>, k: nat, m: nat, n: nat)
    requires Run(ms, memories, events) && Untouched(memories, events, k, m, n) && k < |memories[m].bytes|
    ensures k < |memories[n].bytes| && memories[n].bytes[k] == memories[m].bytes[k]
    decreases n
  {
    hide Next, Good, Live, Covers;
    if m < n {
      assert Untouched(memories, events, k, m, n - 1);
      StaysUntouched(ms, memories, events, k, m, n - 1);
      assert Next(ms, memories[n - 1], events[n - 1], memories[n]);
      NextHolds(ms, memories[n - 1], events[n - 1], memories[n], k);
    }
  }

  /** The main theorem: in every run, a byte that has been live since a client wrote it, and that nobody has
      written again, holds what the client wrote, whatever else was allocated, freed, cut, moved and
      written in between. */
  lemma LastWriteHolds(ms: nat, memories: seq<Memory>, events: seq<Event>, k: nat, m: nat, n: nat)
    requires Run(ms, memories, events) && m < n < |memories| && Covers(events[m], k)
    requires Untouched(memories, events, k, m + 1, n)
    ensures k < |memories[n].bytes| && memories[n].bytes[k] == events[m].x[k - events[m].at]
  {
    assert Next(ms, memories[m], events[m], memories[m + 1]);
    hide Good, Live;
    StaysUntouched(ms, memories, events, k, m + 1, n);
  }
}
