/** print_string_ptr and parse_string on memory. */
module JsonStringCode {
  import opened CText
  import opened Options
  import opened JsonString
  import JsonUtf8

  /** The memory reads x from index at on. */
  ghost predicate Reads(m: array<Byte>, at: nat, x: Text)
    reads m
  {
    Has(m[..], at, x)
  }

  /** The memory is the same outside [lo, hi). */
  ghost predicate Outside(before: Text, after: Text, lo: nat, hi: nat) {
    |after| == |before| && forall k | 0 <= k < |before| && !(lo <= k < hi) :: after[k] == before[k]
  }

  predicate AnyEscape(s: Text) {
    exists i | 0 <= i < |s| :: NeedsEscape(s[i])
  }

  /** The first loops of print_string_ptr: how many bytes the literal takes between its quotes. */
  method Measure(s: Text) returns (flag: bool, len: nat)
    requires NoZero(s)
    ensures flag == AnyEscape(s) && len == |Escaped(s)|
  {
    flag := false;
    for i := 0 to |s|
      invariant flag <==> AnyEscape(s[..i])
    {
      assert s[..i + 1] == s[..i] + [s[i]];
      flag := flag || NeedsEscape(s[i]);
    }
    assert s[..|s|] == s;
    if !flag {
      EscapedPlain(s);
      len := |s|;
    } else {
      len := MeasureEscapes(s);
    }
  }

  method MeasureEscapes(s: Text) returns (len: nat)
    requires NoZero(s)
    ensures len == |Escaped(s)|
  {
    len := 0;
    for i := 0 to |s|
      invariant len == Widths(s[..i])
    {
      assert s[..i + 1][..i] == s[..i];
      len := len + 1;
      if Letter(s[i]) != 0 {
        len := len + 1;
      } else if s[i] < 32 {
        len := len + 5;
      }
    }
    assert s[..|s|] == s;
    WidthsExact(s);
  }

  /** Stores x at index p. */
  method Put(m: array<Byte>, p: nat, x: Text)
    requires p + |x| <= m.Length
    modifies m
    ensures Reads(m, p, x) && Outside(old(m[..]), m[..], p, p + |x|)
  {
    for k := 0 to |x|
      invariant forall j | 0 <= j < k :: m[p + j] == x[j]
      invariant forall j | 0 <= j < m.Length && !(p <= j < p + k) :: m[j] == old(m[j])
    {
      m[p + k] := x[k];
    }
  }

  /** What a write behind it leaves of a text. */
  lemma Stays(before: Text, after: Text, at: nat, x: Text, lo: nat, hi: nat)
    requires Has(before, at, x) && Outside(before, after, lo, hi) && at + |x| <= lo
    ensures Has(after, at, x)
  {
    assert after[at..at + |x|] == before[at..at + |x|];
  }

  lemma Joins(m: array<Byte>, at: nat, x: Text, y: Text)
    requires Reads(m, at, x) && Reads(m, at + |x|, y)
    ensures Reads(m, at, x + y)
  {
    HasSplit(m[..], at, x, y);
  }

  /** Stores x behind what has been written from `at` on; returns the cursor behind x. */
  method Emit(m: array<Byte>, ghost at: nat, ghost done: Text, p: nat, x: Text) returns (q: nat)
    requires p == at + |done| && p + |x| <= m.Length && Reads(m, at, done)
    modifies m
    ensures q == p + |x| && Reads(m, at, done + x) && Outside(old(m[..]), m[..], p, q)
  {
    Put(m, p, x);
    Stays(old(m[..]), m[..], at, done, p, p + |x|);
    Joins(m, at, done, x);
    q := p + |x|;
  }

  /** What print_string_ptr does once it has memory for len + 3 bytes at index `at`.  (strcpy and
      sprintf also store a zero that the next store overwrites.) */
  method Render(s: Text, m: array<Byte>, at: nat, flag: bool, len: nat)
    requires NoZero(s) && flag == AnyEscape(s) && len == |Escaped(s)| && at + len + 3 <= m.Length
    modifies m
    ensures Reads(m, at, Literal(s) + [0]) && |Literal(s) + [0]| == len + 3
    ensures Outside(old(m[..]), m[..], at, at + len + 3)
  {
    var p := Emit(m, at, [], at, [QUOTE]);
    assert [] + [QUOTE] == [QUOTE];
    if !flag {
      EscapedPlain(s);
      p := Emit(m, at, [QUOTE], p, s);
    } else {
      p := RenderEscapes(s, m, at, p, len);
    }
    p := Emit(m, at, [QUOTE] + Escaped(s), p, [QUOTE]);
    p := Emit(m, at, Literal(s), p, [0]);
  }

  method RenderEscapes(s: Text, m: array<Byte>, ghost at: nat, p0: nat, ghost len: nat) returns (p: nat)
    requires NoZero(s) && len == |Escaped(s)| && at + len + 3 <= m.Length
    requires p0 == at + 1 && Reads(m, at, [QUOTE])
    modifies m
    ensures p == p0 + len && Reads(m, at, [QUOTE] + Escaped(s)) && Outside(old(m[..]), m[..], p0, p)
  {
    hide Escape, Has;
    p := p0;
    assert [QUOTE] + Escaped(s[..0]) == [QUOTE];
    for i := 0 to |s|
      invariant |Escaped(s[..i])| <= len && p == p0 + |Escaped(s[..i])|
      invariant Reads(m, at, [QUOTE] + Escaped(s[..i])) && Outside(old(m[..]), m[..], p0, p0 + len)
    {
      EscapedSnoc(s[..i], s[i]);
      EscapedPrefix(s, i + 1);
      assert s[..i + 1] == s[..i] + [s[i]];
      p := RenderByte(s[i], m, at, [QUOTE] + Escaped(s[..i]), p);
      assert [QUOTE] + Escaped(s[..i]) + Escape(s[i]) == [QUOTE] + Escaped(s[..i + 1]);
    }
    assert s[..|s|] == s;
  }

  /** The body of the escaping loop. */
  method RenderByte(c: Byte, m: array<Byte>, ghost at: nat, ghost done: Text, p: nat) returns (q: nat)
    requires c != 0 && p == at + |done| && p + |Escape(c)| <= m.Length && Reads(m, at, done)
    modifies m
    ensures q == p + |Escape(c)| && Reads(m, at, done + Escape(c)) && Outside(old(m[..]), m[..], p, q)
  {
    if c > 31 && c != QUOTE && c != BACKSLASH {
      q := Emit(m, at, done, p, [c]);
    } else {
      q := Emit(m, at, done, p, [BACKSLASH]);
      if Letter(c) != 0 {
        assert done + [BACKSLASH] + [Letter(c)] == done + Escape(c);
        q := Emit(m, at, done + [BACKSLASH], q, [Letter(c)]);
      } else {
        assert done + [BACKSLASH] + ([LOWER_U] + Hex4(c)) == done + Escape(c);
        q := Emit(m, at, done + [BACKSLASH], q, [LOWER_U] + Hex4(c));
      }
    }
  }

  lemma {:induction false} EscapedPrefix(s: Text, i: nat)
    requires i <= |s|
    ensures |Escaped(s[..i])| <= |Escaped(s)|
    decreases |s|
  {
    if i > 0 {
      EscapedPrefix(s[1..], i - 1);
      assert s[..i][1..] == s[1..][..i - 1];
    }
  }

  /** print_string_ptr without a print buffer: the memory is exactly as long as the text and its zero. */
  method PrintStringPtr(s: Text) returns (out: array<Byte>)
    requires NoZero(s)
    ensures fresh(out) && out[..] == Literal(s) + [0]
  {
    var flag, len := Measure(s);
    out := new Byte[len + 3];
    Render(s, out, 0, flag, len);
    assert out[..][0..out.Length] == out[..];
  }

  // ---- parse_string --------------------------------------------------------------------------

  /** The length pass; the literal's closing quote or the end of the text stops it. */
  method CountBytes(t: Text, i: nat) returns (len: nat)
    ensures len == LengthPass(t, i)
  {
    len := 0;
    var ptr := i;
    while At(t, ptr) != QUOTE && At(t, ptr) != 0
      invariant len + LengthPass(t, ptr) == LengthPass(t, i)
      decreases |t| - ptr
    {
      len := len + 1;
      ptr := if At(t, ptr) == BACKSLASH then ptr + 2 else ptr + 1;
    }
  }

  /** The copying pass writes the unescaped bytes, and never behind the memory the length pass counted. */
  method CopyBytes(t: Text, i: nat, out: array<Byte>) returns (len: nat, end: nat)
    requires EscapesWhole(t, i) && out.Length == LengthPass(t, i) + 1
    modifies out
    ensures len < out.Length && (out[..len], end) == Unescaped(t, i) && out[len] == 0
  {
    LengthPassBounds(t, i);
    var ptr := i;
    len := 0;
    assert out[..0] + Unescaped(t, i).0 == Unescaped(t, i).0;
    while At(t, ptr) != QUOTE && At(t, ptr) != 0
      invariant len + |Unescaped(t, ptr).0| < out.Length && ptr >= i
      invariant Unescaped(t, i) == (out[..len] + Unescaped(t, ptr).0, Unescaped(t, ptr).1)
      decreases |t| - ptr
    {
      ghost var whole := Unescaped(t, ptr);
      if At(t, ptr) != BACKSLASH {
        assert whole.0 == [At(t, ptr)] + Unescaped(t, ptr + 1).0;
        len := Append(out, len, [At(t, ptr)], Unescaped(t, ptr + 1).0);
        ptr := ptr + 1;
      } else {
        ghost var (bytes, next) := Unescape1(t, ptr + 1);
        assert whole.0 == bytes + Unescaped(t, next).0;
        len, ptr := AppendEscape(t, ptr + 1, out, len, Unescaped(t, next).0);
      }
    }
    out[len] := 0;
    assert out[..len] + [] == out[..len];
    end := if At(t, ptr) == QUOTE then ptr + 1 else ptr;
  }

  method Append(out: array<Byte>, len: nat, x: Text, ghost rest: Text) returns (next: nat)
    requires len + |x| + |rest| < out.Length
    modifies out
    ensures next == len + |x| && out[..next] + rest == old(out[..len]) + (x + rest)
  {
    next := Emit(out, 0, out[..len], len, x);
    assert out[..][0..next] == out[..next];
  }

  /** The switch on the character behind a backslash, at index i. */
  method AppendEscape(t: Text, i: nat, out: array<Byte>, len: nat, ghost rest: Text) returns (next: nat, end: nat)
    requires len + |Unescape1(t, i).0| + |rest| < out.Length
    modifies out
    ensures next == len + |Unescape1(t, i).0| && end == Unescape1(t, i).1
    ensures out[..next] + rest == old(out[..len]) + (Unescape1(t, i).0 + rest)
  {
    hide UnescapeU;
    var c := At(t, i);
    if c == LOWER_U {
      next, end := JsonUtf8.CopyUnicode(t, i, out, len);
    } else {
      out[len] := if c == 98 then 8 else if c == 102 then 12 else if c == 110 then NEWLINE
                  else if c == 114 then RETURN else if c == 116 then TAB else c;
      next, end := len + 1, i + 1;
    }
    assert out[..next] == old(out[..len]) + out[len..next];
  }

  method ParseStringPtr(t: Text, i: nat) returns (r: Option<(Text, nat)>)
    requires At(t, i) == QUOTE ==> EscapesWhole(t, i + 1)
    ensures r == ParseString(t, i)
  {
    if At(t, i) != QUOTE {
      return None;
    }
    var len := CountBytes(t, i + 1);
    var out := new Byte[len + 1];
    var used, end := CopyBytes(t, i + 1, out);
    r := Some((out[..used], end));
  }
}
