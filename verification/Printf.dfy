/** rt_vsnprintf on memory, and what it guarantees for every format, argument list and buffer size. */
module Printf {
  import opened CText
  import opened Format
  import opened Numerals

  /** The buffer holds as much of `out` as fits below index `end`, and is otherwise as it was. */
  ghost predicate Holds(after: Text, before: Text, end: nat, out: Text) {
    && |after| == |before| && end <= |before|
    && forall k | 0 <= k < |before| :: after[k] == if k < end && k < |out| then out[k] else before[k]
  }

  /** if (str < end) *str = c; ++str; */
  method PutByte(buf: array<Byte>, end: nat, str: nat, c: Byte, ghost before: Text, ghost out: Text) returns (next: nat)
    requires Holds(buf[..], before, end, out) && str == |out|
    modifies buf
    ensures Holds(buf[..], before, end, out + [c]) && next == |out + [c]|
  {
    if str < end {
      buf[str] := c;
    }
    next := str + 1;
  }

  /** The padding loops: nothing happens when n is not positive. */
  method PutFill(buf: array<Byte>, end: nat, str: nat, n: int, c: Byte, ghost before: Text, ghost out: Text)
    returns (next: nat)
    requires Holds(buf[..], before, end, out) && str == |out|
    modifies buf
    ensures Holds(buf[..], before, end, out + Fill(n, c)) && next == |out + Fill(n, c)|
  {
    hide Holds;
    next := str;
    var k := 0;
    assert out + Fill(0, c) == out;
    while k < n
      invariant 0 <= k && (k <= n || k == 0)
      invariant next == |out + Fill(k, c)| && Holds(buf[..], before, end, out + Fill(k, c))
    {
      next := PutByte(buf, end, next, c, before, out + Fill(k, c));
      assert Fill(k + 1, c) == Fill(k, c) + [c];
      assert out + Fill(k + 1, c) == out + Fill(k, c) + [c];
      k := k + 1;
    }
    assert n <= 0 ==> Fill(n, c) == Fill(0, c);
  }

  method PutText(buf: array<Byte>, end: nat, str: nat, x: Text, ghost before: Text, ghost out: Text) returns (next: nat)
    requires Holds(buf[..], before, end, out) && str == |out|
    modifies buf
    ensures Holds(buf[..], before, end, out + x) && next == |out + x|
  {
    hide Holds;
    next := str;
    assert out + x[..0] == out;
    for k := 0 to |x|
      invariant next == |out| + k && Holds(buf[..], before, end, out + x[..k])
    {
      next := PutByte(buf, end, next, x[k], before, out + x[..k]);
      assert out + x[..k + 1] == out + x[..k] + [x[k]];
    }
    assert x[..|x|] == x;
  }

  // ---- print_number ----------------------------------------------------------------------------

  /** What tmp spells when it is read backwards from index i. */
  ghost function Backwards(tmp: Text, i: nat): Text
    requires i <= |tmp|
  {
    seq(i, k requires 0 <= k < i => tmp[i - 1 - k])
  }

  /** The digits that are still to be made. */
  function Missing(n: nat, d: nat, large: bool): Text
    requires d == 10 || d == 16
  {
    if n == 0 then [] else Digits(n, d, large)
  }

  lemma NextDigit(n: nat, d: nat, large: bool, was: Text)
    requires (d == 10 || d == 16) && n > 0
    ensures Missing(n, d, large) + was == Missing(n / d, d, large) + ([Digit(n % d, large)] + was)
  {
    assert Digits(n, d, large) == Missing(n / d, d, large) + [Digit(n % d, large)];
  }

  method StoreDigit(tmp: array<Byte>, i: nat, c: Byte)
    requires i < tmp.Length
    modifies tmp
    ensures Backwards(tmp[..], i + 1) == [c] + old(Backwards(tmp[..], i))
  {
    tmp[i] := c;
  }

  /** The digit loop, least significant digit first. */
  method MakeDigits(num0: nat, d: nat, large: bool, tmp: array<Byte>) returns (i: nat)
    requires (d == 10 || d == 16) && num0 < TWO32 && tmp.Length == 16
    modifies tmp
    ensures i <= 10 && Backwards(tmp[..], i) == Digits(num0, d, large)
  {
    DigitsFit(num0, d, large);
    i := 0;
    if num0 == 0 {
      tmp[0] := ZERO;
      return 1;
    }
    var num: nat := num0;
    assert Missing(num, d, large) + Backwards(tmp[..], 0) == Digits(num0, d, large);
    hide Digits, Backwards;
    while num != 0
      invariant i <= 10 && Missing(num, d, large) + Backwards(tmp[..], i) == Digits(num0, d, large)
      decreases num
    {
      NextDigit(num, d, large, Backwards(tmp[..], i));
      StoreDigit(tmp, i, Digit(num % d, large));
      num := num / d;
      i := i + 1;
    }
    assert [] + Backwards(tmp[..], i) == Backwards(tmp[..], i);
  }

  /** The digits from tmp, last one first. */
  method PutDigits(buf: array<Byte>, end: nat, str: nat, tmp: array<Byte>, i: nat, ghost before: Text, ghost out: Text)
    returns (next: nat)
    requires Holds(buf[..], before, end, out) && str == |out| && tmp != buf && i <= tmp.Length
    modifies buf
    ensures Holds(buf[..], before, end, out + Backwards(tmp[..], i)) && next == |out + Backwards(tmp[..], i)|
  {
    hide Holds;
    next := str;
    ghost var x := Backwards(tmp[..], i);
    var k: nat := i;
    assert out + x[..0] == out;
    while k > 0
      invariant k <= i && next == |out| + (i - k) && Holds(buf[..], before, end, out + x[..i - k])
    {
      next := PutByte(buf, end, next, tmp[k - 1], before, out + x[..i - k]);
      k := k - 1;
      assert out + x[..i - k] == out + x[..i - k - 1] + [tmp[k]];
    }
    assert x[..i] == x;
  }

  /** A padding loop `while (size-- > 0)` also decides what is left of size. */
  function Spent(size: int): int { if size > 0 then -1 else size - 1 }

  method PutSign(buf: array<Byte>, end: nat, str: nat, sign: Byte, ghost text: Text, ghost before: Text,
                 ghost out: Text)
    returns (next: nat)
    requires Holds(buf[..], before, end, out) && str == |out| && text == if sign != 0 then [sign] else []
    modifies buf
    ensures Holds(buf[..], before, end, out + text) && next == |out + text|
  {
    hide Holds;
    next := str;
    assert out + [] == out;
    if sign != 0 {
      next := PutByte(buf, end, str, sign, before, out);
    }
  }

  /** The two padding loops around the sign; `size` is the width minus the precision. */
  method PutHead(buf: array<Byte>, end: nat, str0: nat, size0: int, sign: Byte, f: Flags, ghost signText: Text,
                 ghost pad: int, ghost before: Text, ghost out: Text) returns (str: nat, size: int)
    requires Holds(buf[..], before, end, out) && str0 == |out|
    requires signText == (if sign != 0 then [sign] else []) && pad == size0 - |signText|
    modifies buf
    ensures Holds(buf[..], before, end, out + Lead(f, pad) + signText + Zeros(f, pad))
    ensures str == |out + Lead(f, pad) + signText + Zeros(f, pad)|
    ensures f.left ==> size == pad
    ensures !f.left ==> size <= 0
  {
    hide Holds;
    var zeropad := f.zeropad && !f.left;
    str, size := str0, size0;
    assert out + [] == out;
    if !(zeropad || f.left) {
      if sign != 0 && size > 0 {
        size := size - 1;
      }
      assert Fill(size, SPACE) == Fill(pad, SPACE);
      str := PutFill(buf, end, str, size, SPACE, before, out);
      size := Spent(size);
    }
    str := PutSign(buf, end, str, sign, signText, before, out + Lead(f, pad));
    if sign != 0 {
      size := size - 1;
    }
    ghost var b := out + Lead(f, pad) + signText;
    assert b + [] == b;
    if !f.left {
      assert Fill(size, if zeropad then ZERO else SPACE) == Zeros(f, pad);
      str := PutFill(buf, end, str, size, if zeropad then ZERO else SPACE, before, b);
      size := Spent(size);
    }
  }

  /** The loops behind the sign: zeros for the precision, the digits, and blanks on the right. */
  method PutBody(buf: array<Byte>, end: nat, str0: nat, tmp: array<Byte>, i: nat, precision: int, precision0: int,
                 size: int, ghost digits: Text, ghost trail: Text, ghost before: Text, ghost out: Text)
    returns (str: nat)
    requires Holds(buf[..], before, end, out) && str0 == |out| && tmp != buf && i <= tmp.Length
    requires digits == Backwards(tmp[..], i) && precision == Max(i, precision0) && trail == Fill(size, SPACE)
    modifies buf
    ensures Holds(buf[..], before, end, out + Fill(precision0 - i, ZERO) + Body(precision0, digits) + trail)
    ensures str == |out + Fill(precision0 - i, ZERO) + Body(precision0, digits) + trail|
  {
    hide Holds;
    assert Fill(precision - i, ZERO) == Fill(precision0 - i, ZERO);
    str := PutFill(buf, end, str0, precision - i, ZERO, before, out);
    ghost var d := out + Fill(precision0 - i, ZERO);
    assert d + [] == d;
    if precision0 != 0 {
      str := PutDigits(buf, end, str, tmp, i, before, d);
    }
    str := PutFill(buf, end, str, size, SPACE, before, d + Body(precision0, digits));
  }

  method SignOf(num0: int, f: Flags) returns (sign: Byte, num: int)
    ensures SignText(num0, f) == (if sign != 0 then [sign] else []) && num % TWO32 == Magnitude(num0, f)
  {
    sign, num := 0, num0;
    if f.sign {
      if num < 0 {
        sign, num := MINUS, -num;
      } else if f.plus {
        sign := PLUS;
      } else if f.space {
        sign := SPACE;
      }
    }
  }

  method PrintNumber(buf: array<Byte>, end: nat, str0: nat, num0: int, base: nat, width: int, precision0: int, f: Flags,
                     ghost before: Text, ghost out0: Text) returns (str: nat)
    requires Holds(buf[..], before, end, out0) && str0 == |out0|
    modifies buf
    ensures Holds(buf[..], before, end, out0 + NumberText(num0, base, width, precision0, f))
    ensures str == |out0 + NumberText(num0, base, width, precision0, f)|
  {
    hide Holds, Digits, Lead, Zeros, Assemble, Body, SignText, Magnitude;
    var sign, num := SignOf(num0, f);
    var tmp := new Byte[16];
    var i := MakeDigits(num % TWO32, Divisor(base), f.large, tmp);
    ghost var digits := Backwards(tmp[..], i);
    ghost var signText := SignText(num0, f);
    ghost var pad := Pad(digits, signText, width, precision0);
    var precision := if i > precision0 then i else precision0;
    var size;
    str, size := PutHead(buf, end, str0, width - precision, sign, f, signText, pad, before, out0);
    ghost var c := out0 + Lead(f, pad) + signText + Zeros(f, pad);
    assert Fill(size, SPACE) == Trail(f, pad);
    str := PutBody(buf, end, str, tmp, i, precision, precision0, size, digits, Trail(f, pad), before, c);
    JoinSix(out0, Lead(f, pad), signText, Zeros(f, pad), Fill(precision0 - i, ZERO), Body(precision0, digits),
            Trail(f, pad));
  }

  lemma JoinSix(o: Text, a: Text, b: Text, c: Text, d: Text, e: Text, f: Text)
    ensures o + a + b + c + d + e + f == o + Assemble(a, b, c, d, e, f)
  {
  }

  // ---- Reading a directive ---------------------------------------------------------------------

  method ScanFlags(fmt: Text, i: nat) returns (f: Flags, j: nat)
    ensures (f, j) == ReadFlags(fmt, i, Flags(false, false, false, false, false, false))
  {
    f, j := Flags(false, false, false, false, false, false), i;
    while At(fmt, j) == MINUS || At(fmt, j) == PLUS || At(fmt, j) == SPACE || At(fmt, j) == 35 || At(fmt, j) == ZERO
      invariant ReadFlags(fmt, j, f) == ReadFlags(fmt, i, Flags(false, false, false, false, false, false))
      decreases |fmt| - j
    {
      var c := At(fmt, j);
      if c == MINUS {
        f := f.(left := true);
      } else if c == PLUS {
        f := f.(plus := true);
      } else if c == SPACE {
        f := f.(space := true);
      } else if c == ZERO {
        f := f.(zeropad := true);
      }
      j := j + 1;
    }
  }

  method ScanWidth(fmt: Text, s0: Spec) returns (s: Spec)
    ensures s == ReadWidth(fmt, s0)
  {
    s := s0;
    if IsDigit(At(fmt, s.i)) {
      var w, j := ScanDigits(fmt, s.i, 0);
      s := s.(width := w, i := j);
    } else if At(fmt, s.i) == STAR {
      var w := NextInt(s.args);
      s := s.(width := w, i := s.i + 1, args := Rest(s.args));
      if w < 0 {
        s := s.(width := -w, f := s.f.(left := true));
      }
    }
  }

  method ScanPrecision(fmt: Text, s0: Spec) returns (s: Spec)
    requires s0.precision == -1
    ensures s == ReadPrecision(fmt, s0)
  {
    s := s0;
    if At(fmt, s.i) == DOT {
      s := s.(i := s.i + 1);
      if IsDigit(At(fmt, s.i)) {
        var p, j := ScanDigits(fmt, s.i, 0);
        s := s.(precision := p, i := j);
      } else if At(fmt, s.i) == STAR {
        s := s.(precision := NextInt(s.args), i := s.i + 1, args := Rest(s.args));
      }
      if s.precision < 0 {
        s := s.(precision := 0);
      }
    }
  }

  method ScanSpec(fmt: Text, i: nat, args: seq<Arg>) returns (s: Spec)
    ensures s == ReadSpec(fmt, i, args)
  {
    hide ReadFlags, ReadDigits;
    var f, j := ScanFlags(fmt, i);
    s := ScanWidth(fmt, Spec(f, -1, -1, 0, j, args));
    s := ScanPrecision(fmt, s);
    if At(fmt, s.i) == 104 || At(fmt, s.i) == 108 {
      s := s.(qualifier := At(fmt, s.i), i := s.i + 1);
    }
  }

  // ---- Conversions -----------------------------------------------------------------------------

  /** Blanks on the left or on the right of a text. */
  method PutAligned(buf: array<Byte>, end: nat, str0: nat, x: Text, blanks: int, left: bool, ghost before: Text,
                    ghost out: Text)
    returns (str: nat)
    requires Holds(buf[..], before, end, out) && str0 == |out|
    modifies buf
    ensures var y := (if left then [] else Fill(blanks, SPACE)) + x + (if left then Fill(blanks, SPACE) else []);
      Holds(buf[..], before, end, out + y) && str == |out + y|
  {
    hide Holds;
    str := str0;
    ghost var a := if left then [] else Fill(blanks, SPACE);
    ghost var b := if left then Fill(blanks, SPACE) else [];
    assert out + [] == out;
    if !left {
      str := PutFill(buf, end, str, blanks, SPACE, before, out);
    }
    str := PutText(buf, end, str, x, before, out + a);
    assert out + a + x + [] == out + a + x;
    if left {
      str := PutFill(buf, end, str, blanks, SPACE, before, out + a + x);
    }
    assert out + a + x + b == out + (a + x + b);
  }

  /** The switch on the conversion character. */
  method PutConversion(buf: array<Byte>, end: nat, str0: nat, fmt: Text, s: Spec, ghost before: Text, ghost out: Text)
    returns (str: nat, args: seq<Arg>, i: nat)
    requires Holds(buf[..], before, end, out) && str0 == |out|
    modifies buf
    ensures var r := Convert(fmt, s);
      Holds(buf[..], before, end, out + r.0) && str == |out + r.0| && args == r.1 && i == r.2
  {
    hide Holds, NumberText, Fill;
    var c := At(fmt, s.i);
    args, i := Rest(s.args), s.i + 1;
    if c == 99 {
      str := PutAligned(buf, end, str0, [NextInt(s.args) % 256], s.width - 1, s.f.left, before, out);
    } else if c == 115 {
      var x := NextStr(s.args);
      if 0 < s.precision < |x| {
        x := x[..s.precision];
      }
      str := PutAligned(buf, end, str0, x, s.width - |x|, s.f.left, before, out);
    } else if c == 112 {
      var t := if s.width == -1 then s.(width := 8, f := s.f.(zeropad := true)) else s;
      str := PrintNumber(buf, end, str0, Signed(NextInt(s.args), TWO32), 16, t.width, t.precision, t.f, before, out);
    } else if IsNumber(c) {
      var f := s.f.(large := s.f.large || c == 88, sign := IsSigned(c));
      str := PrintNumber(buf, end, str0, NumberArg(s, IsSigned(c)), Base(c), s.width, s.precision, f, before, out);
    } else {
      args := s.args;
      str := PutByte(buf, end, str0, PERCENT, before, out);
      if c == 0 {
        i := s.i;
      } else if c != PERCENT {
        assert out + [PERCENT] + [c] == out + [PERCENT, c];
        str := PutByte(buf, end, str, c, before, out + [PERCENT]);
      }
    }
  }

  lemma NothingYet(before: Text, end: nat)
    requires end <= |before|
    ensures Holds(before, before, end, [])
  {
  }

  /** The zero behind the output, or in place of its last byte that fits. */
  method Terminate(buf: array<Byte>, size: nat, str: nat, ghost before: Text, ghost out: Text)
    requires size <= buf.Length && Holds(buf[..], before, size, out) && str == |out|
    modifies buf
    ensures forall k | size <= k < buf.Length :: buf[k] == before[k]
    ensures size > 0 ==> var kept := if str < size then str else size - 1;
              buf[..kept] == out[..kept] && buf[kept] == 0
  {
    if size > 0 {
      if str < size {
        buf[str] := 0;
      } else {
        buf[size - 1] := 0;
      }
    }
  }

  /** rt_vsnprintf into the first `size` bytes of the buffer.  The result is the length of the whole output
      whatever the size; nothing behind the first `size` bytes changes; and unless the size is 0 the buffer
      holds the longest prefix of the output that fits in front of a zero, and that zero. */
  method Vsnprintf(buf: array<Byte>, size: nat, fmt: Text, args0: seq<Arg>) returns (n: nat)
    requires size <= buf.Length
    modifies buf
    ensures n == |Output(fmt, 0, args0)|
    ensures forall k | size <= k < buf.Length :: buf[k] == old(buf[k])
    ensures size > 0 ==> var kept := if n < size then n else size - 1;
              buf[..kept] == Output(fmt, 0, args0)[..kept] && buf[kept] == 0
  {
    hide Convert, ReadSpec, Holds;
    ghost var before := buf[..];
    ghost var whole := Output(fmt, 0, args0);
    ghost var out: Text := [];
    var str, i, args := 0, 0, args0;
    assert [] + whole == whole && Holds(buf[..], before, size, out) by { NothingYet(buf[..], size); }
    while At(fmt, i) != 0
      invariant Holds(buf[..], before, size, out) && str == |out| && out + Output(fmt, i, args) == whole
      decreases |fmt| - i
    {
      ghost var rest := Output(fmt, i, args);
      ghost var done := out;
      if At(fmt, i) != PERCENT {
        str := PutByte(buf, size, str, At(fmt, i), before, out);
        out := out + [At(fmt, i)];
        i := i + 1;
      } else {
        var s := ScanSpec(fmt, i + 1, args);
        ghost var x := Convert(fmt, s).0;
        str, args, i := PutConversion(buf, size, str, fmt, s, before, out);
        out := out + x;
        assert done + (x + Output(fmt, i, args)) == out + Output(fmt, i, args);
      }
    }
    assert out + [] == out;
    n := str;
    Terminate(buf, size, str, before, out);
  }
}
