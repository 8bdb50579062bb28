/** rt_memset, rt_memcpy and rt_memmove on a memory of bytes with 4-byte words (32-bit, not the tiny-size
    build).  Addresses are indices, and address 0 is word-aligned. */
module MemoryOps {
  import opened CText
  import Modulo

  const WORD := 4
  const BIG := 16

  // ---- What the operations are for -------------------------------------------------------------

  /** The memory with n bytes from src on copied to dst. */
  function Moved(mem: Text, dst: nat, src: nat, n: nat): (r: Text)
    requires dst + n <= |mem| && src + n <= |mem|
    ensures |r| == |mem|
  {
    seq(|mem|, k requires 0 <= k < |mem| => if dst <= k < dst + n then mem[src + (k - dst)] else mem[k])
  }

  function Filled(mem: Text, s: nat, c: Byte, n: nat): (r: Text)
    requires s + n <= |mem|
    ensures |r| == |mem|
  {
    seq(|mem|, k requires 0 <= k < |mem| => if s <= k < s + n then c else mem[k])
  }

  /** Copying byte by byte, lowest address first. */
  function ByteCopy(mem: Text, dst: nat, src: nat, n: nat): (r: Text)
    requires dst + n <= |mem| && src + n <= |mem|
    ensures |r| == |mem|
    decreases n
  {
    if n == 0 then mem else ByteCopy(mem[dst := mem[src]], dst + 1, src + 1, n - 1)
  }

  // ---- Words -------------------------------------------------------------------------------------

  predicate Unaligned(x: nat) { x % WORD != 0 }

  /** The four bytes of a word, lowest address first. */
  function Load(mem: Text, a: nat): (w: seq<Byte>)
    requires a + WORD <= |mem|
    ensures |w| == WORD
  {
    [mem[a], mem[a + 1], mem[a + 2], mem[a + 3]]
  }

  /** Stores a whole word. */
  method Store(m: array<Byte>, a: nat, w: seq<Byte>)
    requires a + WORD <= m.Length && |w| == WORD
    modifies m
    ensures m[..] == old(m[..])[a := w[0]][a + 1 := w[1]][a + 2 := w[2]][a + 3 := w[3]]
  {
    m[a], m[a + 1], m[a + 2], m[a + 3] := w[0], w[1], w[2], w[3];
  }

  /** One aligned word is four bytes: copying it at once is copying them one by one. */
  lemma WordIsBytes(mem: Text, dst: nat, src: nat, n: nat)
    requires dst + n <= |mem| && src + n <= |mem| && n >= WORD && !Unaligned(dst) && !Unaligned(src)
    ensures var w := Load(mem, src);
      var after := mem[dst := w[0]][dst + 1 := w[1]][dst + 2 := w[2]][dst + 3 := w[3]];
      ByteCopy(mem, dst, src, n) == ByteCopy(after, dst + WORD, src + WORD, n - WORD)
  {
    assert dst == src || dst + WORD <= src || src + WORD <= dst by { AlignedApart(dst, src); }
    var w := Load(mem, src);
    var m1 := mem[dst := w[0]];
    assert m1[src + 1] == w[1];
    var m2 := m1[dst + 1 := w[1]];
    assert m2[src + 2] == w[2];
    var m3 := m2[dst + 2 := w[2]];
    assert m3[src + 3] == w[3];
    assert ByteCopy(mem, dst, src, n) == ByteCopy(m1, dst + 1, src + 1, n - 1);
    assert ByteCopy(m1, dst + 1, src + 1, n - 1) == ByteCopy(m2, dst + 2, src + 2, n - 2);
    assert ByteCopy(m2, dst + 2, src + 2, n - 2) == ByteCopy(m3, dst + 3, src + 3, n - 3);
  }

  lemma AlignedApart(a: nat, b: nat)
    requires !Unaligned(a) && !Unaligned(b)
    ensures a == b || a + WORD <= b || b + WORD <= a
  {
  }

  // ---- rt_memcpy ---------------------------------------------------------------------------------

  /** One word of the copying loops. */
  method CopyWord(m: array<Byte>, dst: nat, src: nat, ghost n: nat)
    requires dst + n <= m.Length && src + n <= m.Length && n >= WORD && !Unaligned(dst) && !Unaligned(src)
    modifies m
    ensures ByteCopy(old(m[..]), dst, src, n) == ByteCopy(m[..], dst + WORD, src + WORD, n - WORD)
  {
    WordIsBytes(m[..], dst, src, n);
    Store(m, dst, [m[src], m[src + 1], m[src + 2], m[src + 3]]);
  }

  /** rt_memcpy does what a byte-wise copy does, for all contents, alignments and overlaps. */
  method Memcpy(m: array<Byte>, dst0: nat, src0: nat, count: nat)
    requires dst0 + count <= m.Length && src0 + count <= m.Length
    modifies m
    ensures m[..] == ByteCopy(old(m[..]), dst0, src0, count)
  {
    var dst: nat, src: nat, len: nat := dst0, src0, count;
    if len >= BIG && !Unaligned(src) && !Unaligned(dst) {
      dst, src, len := CopyWords(m, dst, src, len);
    }
    while len > 0
      invariant dst + len <= m.Length && src + len <= m.Length
      invariant ByteCopy(m[..], dst, src, len) == ByteCopy(old(m[..]), dst0, src0, count)
    {
      ghost var mem := m[..];
      m[dst] := m[src];
      assert m[..] == mem[dst := mem[src]];
      dst, src, len := dst + 1, src + 1, len - 1;
    }
  }

  method CopyFourWords(m: array<Byte>, dst: nat, src: nat, ghost n: nat)
    requires dst + n <= m.Length && src + n <= m.Length && n >= BIG && !Unaligned(dst) && !Unaligned(src)
    modifies m
    ensures ByteCopy(old(m[..]), dst, src, n) == ByteCopy(m[..], dst + BIG, src + BIG, n - BIG)
  {
    hide ByteCopy;
    CopyWord(m, dst, src, n);
    CopyWord(m, dst + WORD, src + WORD, n - WORD);
    CopyWord(m, dst + 2 * WORD, src + 2 * WORD, n - 2 * WORD);
    CopyWord(m, dst + 3 * WORD, src + 3 * WORD, n - 3 * WORD);
  }

  /** The two word loops. */
  method CopyWords(m: array<Byte>, dst0: nat, src0: nat, count: nat) returns (dst: nat, src: nat, len: nat)
    requires dst0 + count <= m.Length && src0 + count <= m.Length && !Unaligned(dst0) && !Unaligned(src0)
    modifies m
    ensures dst + len <= m.Length && src + len <= m.Length && len < WORD
    ensures ByteCopy(m[..], dst, src, len) == ByteCopy(old(m[..]), dst0, src0, count)
  {
    hide ByteCopy;
    dst, src, len := dst0, src0, count;
    while len >= BIG
      invariant dst + len <= m.Length && src + len <= m.Length && !Unaligned(dst) && !Unaligned(src)
      invariant ByteCopy(m[..], dst, src, len) == ByteCopy(old(m[..]), dst0, src0, count)
    {
      CopyFourWords(m, dst, src, len);
      dst, src, len := dst + BIG, src + BIG, len - BIG;
    }
    while len >= WORD
      invariant dst + len <= m.Length && src + len <= m.Length && !Unaligned(dst) && !Unaligned(src)
      invariant ByteCopy(m[..], dst, src, len) == ByteCopy(old(m[..]), dst0, src0, count)
    {
      CopyWord(m, dst, src, len);
      dst, src, len := dst + WORD, src + WORD, len - WORD;
    }
  }

  /** The destination starts inside the source, behind its first byte. */
  predicate Clobbers(dst: nat, src: nat, n: nat) { src < dst < src + n }

  lemma {:induction false} CopyIsMove(mem: Text, dst: nat, src: nat, n: nat)
    requires dst + n <= |mem| && src + n <= |mem| && !Clobbers(dst, src, n)
    ensures ByteCopy(mem, dst, src, n) == Moved(mem, dst, src, n)
    decreases n
  {
    if n > 0 {
      var next := mem[dst := mem[src]];
      CopyIsMove(next, dst + 1, src + 1, n - 1);
      var a, b := Moved(next, dst + 1, src + 1, n - 1), Moved(mem, dst, src, n);
      forall k | 0 <= k < |mem| ensures a[k] == b[k] {
        if dst < k < dst + n {
          assert src + (k - dst) != dst || dst == src;
        }
      }
    }
  }

  /** Bytes in front of both cursors stay. */
  lemma {:induction false} CopyLeaves(mem: Text, dst: nat, src: nat, n: nat, k: nat)
    requires dst + n <= |mem| && src + n <= |mem| && k < |mem| && (k < dst || dst + n <= k)
    ensures ByteCopy(mem, dst, src, n)[k] == mem[k]
    decreases n
  {
    if n > 0 {
      CopyLeaves(mem[dst := mem[src]], dst + 1, src + 1, n - 1, k);
    }
  }

  /** When the destination starts inside the source, its first byte comes back one distance later:
      by then the copy has overwritten the byte that belongs there. */
  lemma {:induction false} CopyRepeats(mem: Text, dst: nat, src: nat, n: nat, i: nat)
    requires dst + n <= |mem| && src + n <= |mem| && src < dst && i < n
    ensures ByteCopy(mem, dst, src, n)[dst + i] == mem[src + i % (dst - src)]
    decreases n
  {
    var next := mem[dst := mem[src]];
    if i == 0 {
      CopyLeaves(next, dst + 1, src + 1, n - 1, dst);
    } else {
      CopyRepeats(next, dst + 1, src + 1, n - 1, i - 1);
      Turn(i, dst - src);
    }
  }

  lemma Turn(i: nat, d: nat)
    requires i > 0 && d > 0
    ensures if i % d == 0 then (i - 1) % d == d - 1 else (i - 1) % d == i % d - 1
  {
    var q := i / d;
    assert i == d * q + i % d;
    if i % d == 0 {
      Modulo.Unique(i - 1, d, q - 1, d - 1);
    } else {
      Modulo.Unique(i - 1, d, q, i % d - 1);
    }
  }

  /** rt_memcpy gives the copy it is for, whatever the contents, exactly when the destination does not
      start inside the source behind its first byte. */
  lemma CopyRightExactly(dst: nat, src: nat, n: nat, size: nat)
    requires dst + n <= size && src + n <= size
    ensures (forall mem: Text | |mem| == size :: ByteCopy(mem, dst, src, n) == Moved(mem, dst, src, n))
        <==> !Clobbers(dst, src, n)
  {
    if Clobbers(dst, src, n) {
      OneGoesWrong(dst, src, n, size);
    } else {
      forall mem: Text | |mem| == size ensures ByteCopy(mem, dst, src, n) == Moved(mem, dst, src, n) {
        CopyIsMove(mem, dst, src, n);
      }
    }
  }

  /** The contents with a single one at src. */
  lemma OneGoesWrong(dst: nat, src: nat, n: nat, size: nat)
    requires dst + n <= size && src + n <= size && Clobbers(dst, src, n)
    ensures exists mem: Text :: |mem| == size && ByteCopy(mem, dst, src, n) != Moved(mem, dst, src, n)
  {
    hide ByteCopy;
    var mem: Text := seq(size, k requires 0 <= k < size => if k == src then 1 else 0);
    var d := dst - src;
    CopyRepeats(mem, dst, src, n, d);
    Modulo.Unique(d, d, 1, 0);
    assert ByteCopy(mem, dst, src, n)[dst + d] == 1 && Moved(mem, dst, src, n)[dst + d] == 0;
  }

  // ---- rt_memmove --------------------------------------------------------------------------------

  /** rt_memmove gives the copy it is for whatever the overlap. */
  method Memmove(m: array<Byte>, dst: nat, src: nat, count: nat)
    requires dst + count <= m.Length && src + count <= m.Length
    modifies m
    ensures m[..] == Moved(old(m[..]), dst, src, count)
    ensures forall k | dst <= k < dst + count :: m[k] == old(m[src + (k - dst)])
    ensures forall k | 0 <= k < m.Length && !(dst <= k < dst + count) :: m[k] == old(m[k])
  {
    ghost var mem := m[..];
    if src < dst && dst < src + count {
      var n: nat := count;
      while n > 0
        invariant n <= count
        invariant forall k | 0 <= k < m.Length && !(dst + n <= k < dst + count) :: m[k] == mem[k]
        invariant forall k | dst + n <= k < dst + count :: m[k] == mem[src + (k - dst)]
      {
        n := n - 1;
        m[dst + n] := m[src + n];
      }
    } else {
      var n: nat := 0;
      while n < count
        invariant n <= count
        invariant forall k | 0 <= k < m.Length && !(dst <= k < dst + n) :: m[k] == mem[k]
        invariant forall k | dst <= k < dst + n :: m[k] == mem[src + (k - dst)]
      {
        m[dst + n] := m[src + n];
        n := n + 1;
      }
    }
  }

  // ---- rt_memset ---------------------------------------------------------------------------------

  /** The word with d in every byte, built by shifting. */
  function Splat(d: nat): nat {
    var half := d * 0x100 + d;
    half * 0x1_0000 + half
  }

  /** The bytes of a 32-bit word, lowest first. */
  function Bytes(w: nat): seq<Byte>
    requires w < 0x1_0000_0000
  {
    [w % 256, w / 256 % 256, w / 256 / 256 % 256, w / 256 / 256 / 256 % 256]
  }

  lemma SplatBytes(d: Byte)
    ensures Splat(d) < 0x1_0000_0000 && Bytes(Splat(d)) == [d, d, d, d]
  {
    var w := Splat(d);
    assert w / 256 == (d * 256 + d) * 256 + d;
    assert w / 256 / 256 == d * 256 + d;
  }

  ghost predicate Set(m: Text, mem: Text, s: nat, c: Byte, n: nat) {
    |m| == |mem| && forall k | 0 <= k < |mem| :: m[k] == if s <= k < s + n then c else mem[k]
  }

  /** One word of the filling loops. */
  method SetWord(m: array<Byte>, a: nat, buffer: nat, ghost mem: Text, ghost s: nat, ghost c: Byte)
    requires s <= a && a + WORD <= m.Length && buffer == Splat(c) < 0x1_0000_0000 && Set(m[..], mem, s, c, a - s)
    modifies m
    ensures Set(m[..], mem, s, c, a + WORD - s)
  {
    SplatBytes(c);
    Store(m, a, Bytes(buffer));
  }

  /** rt_memset fills exactly the given bytes, with the low byte of c. */
  method Memset(m: array<Byte>, s: nat, c: int, count0: nat)
    requires s + count0 <= m.Length
    modifies m
    ensures m[..] == Filled(old(m[..]), s, c % 256, count0)
    ensures forall k | s <= k < s + count0 :: m[k] == c % 256
    ensures forall k | 0 <= k < m.Length && !(s <= k < s + count0) :: m[k] == old(m[k])
  {
    ghost var mem := m[..];
    var d: Byte := c % 256;
    var a: nat, count: nat := s, count0;
    SplatBytes(d);
    if count >= WORD && !Unaligned(s) {
      hide Set, Splat, Bytes;
      assert Set(m[..], mem, s, d, 0) by { SetNothing(m[..], s, d); }
      var buffer := d * 0x100 + d;
      buffer := buffer * 0x1_0000 + buffer;
      assert buffer == Splat(d) by { SplatIs(d); }
      while count >= 4 * WORD
        invariant s <= a && a + count == s + count0 && Set(m[..], mem, s, d, a - s)
      {
        SetWord(m, a, buffer, mem, s, d);
        SetWord(m, a + WORD, buffer, mem, s, d);
        SetWord(m, a + 2 * WORD, buffer, mem, s, d);
        SetWord(m, a + 3 * WORD, buffer, mem, s, d);
        a, count := a + 4 * WORD, count - 4 * WORD;
      }
      while count >= WORD
        invariant s <= a && a + count == s + count0 && Set(m[..], mem, s, d, a - s)
      {
        SetWord(m, a, buffer, mem, s, d);
        a, count := a + WORD, count - WORD;
      }
    }
    SetBytes(m, a, d, count, mem, s);
    FilledIsSet(m[..], mem, s, d, count0);
  }

  lemma SetNothing(mem: Text, s: nat, c: Byte)
    ensures Set(mem, mem, s, c, 0)
  {
  }

  lemma SplatIs(d: nat)
    ensures (d * 0x100 + d) * 0x1_0000 + (d * 0x100 + d) == Splat(d)
  {
  }

  lemma FilledIsSet(m: Text, mem: Text, s: nat, c: Byte, n: nat)
    requires Set(m, mem, s, c, n) && s + n <= |mem|
    ensures m == Filled(mem, s, c, n)
  {
  }

  /** The byte-wise loop. */
  method SetBytes(m: array<Byte>, a0: nat, d: Byte, count: nat, ghost mem: Text, ghost s: nat)
    requires s <= a0 && a0 + count <= m.Length && Set(m[..], mem, s, d, a0 - s)
    modifies m
    ensures Set(m[..], mem, s, d, a0 + count - s)
  {
    for k := 0 to count
      invariant Set(m[..], mem, s, d, a0 + k - s)
    {
      m[a0 + k] := d;
    }
  }
}
