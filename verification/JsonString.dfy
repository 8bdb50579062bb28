/** String literals: print_string_ptr escapes, parse_string unescapes (RFC 8259 section 7). */
module JsonString {
  import opened CText
  import opened Options
  import opened HexDigits

  // ---- Printing ------------------------------------------------------------------------------

  function HexDigit(n: int): Byte
    requires 0 <= n < 16
  {
    if n < 10 then ZERO + n else 87 + n
  }

  /** "%04x" */
  function Hex4(n: int): (h: Text)
    requires 0 <= n < 0x10000
    ensures |h| == 4
  {
    [HexDigit(n / 16 / 16 / 16), HexDigit(n / 16 / 16 % 16), HexDigit(n / 16 % 16), HexDigit(n % 16)]
  }

  /** The letter of a two-character escape, or 0. */
  function Letter(c: Byte): Byte {
    if c == BACKSLASH || c == QUOTE then c
    else if c == 8 then 98 else if c == 12 then 102 else if c == NEWLINE then 110
    else if c == RETURN then 114 else if c == TAB then 116
    else 0
  }

  function Escape(c: Byte): Text {
    if c > 31 && c != QUOTE && c != BACKSLASH then [c]
    else if Letter(c) != 0 then [BACKSLASH, Letter(c)]
    else [BACKSLASH, LOWER_U] + Hex4(c)
  }

  function Escaped(s: Text): Text {
    if s == [] then [] else Escape(s[0]) + Escaped(s[1..])
  }

  /** What print_string_ptr writes for s. */
  function Literal(s: Text): Text {
    [QUOTE] + Escaped(s) + [QUOTE]
  }

  /** The test of the first loop. */
  predicate NeedsEscape(c: Byte) {
    0 < c < 32 || c == QUOTE || c == BACKSLASH
  }

  /** What the measuring loop adds for one byte. */
  function Width(c: Byte): nat {
    if Letter(c) != 0 then 2 else if c < 32 then 6 else 1
  }

  function Widths(s: Text): nat {
    if s == [] then 0 else Widths(s[..|s| - 1]) + Width(s[|s| - 1])
  }

  lemma EscapedOne(c: Byte)
    ensures Escaped([c]) == Escape(c)
  {
    hide Escape;
    assert [c][1..] == [] && Escaped([c]) == Escape(c) + Escaped([]);
  }

  lemma {:induction false} EscapedSnoc(s: Text, c: Byte)
    ensures Escaped(s + [c]) == Escaped(s) + Escape(c)
  {
    hide Escape;
    if s == [] {
      assert s + [c] == [c];
      EscapedOne(c);
    } else {
      EscapedSnoc(s[1..], c);
      assert (s + [c])[1..] == s[1..] + [c];
    }
  }

  /** The precomputed length is exactly what gets written. */
  lemma {:induction false} WidthsExact(s: Text)
    requires NoZero(s)
    ensures |Escaped(s)| == Widths(s)
  {
    if s != [] {
      var n := |s| - 1;
      WidthsExact(s[..n]);
      EscapedSnoc(s[..n], s[n]);
      assert s[..n] + [s[n]] == s;
    }
  }

  lemma {:induction false} EscapedPlain(s: Text)
    requires forall i | 0 <= i < |s| :: s[i] != 0 && !NeedsEscape(s[i])
    ensures Escaped(s) == s
  {
    if s != [] {
      EscapedPlain(s[1..]);
    }
  }

  // ---- Parsing -------------------------------------------------------------------------------

  /** The value of a hexadecimal digit, or -1. */
  function HexValue(c: Byte): (v: int)
    ensures -1 <= v < 16
  {
    if ZERO <= c <= NINE then c - ZERO
    else if 65 <= c <= 70 then c - 55
    else if 97 <= c <= 102 then c - 87
    else -1
  }

  /** parse_hex4 gives 0 as soon as a digit is missing. */
  function ParseHex4(t: Text, i: nat): (n: int)
    ensures 0 <= n < 0x10000
  {
    var a, b, c, d := HexValue(At(t, i)), HexValue(At(t, i + 1)), HexValue(At(t, i + 2)), HexValue(At(t, i + 3));
    if a < 0 || b < 0 || c < 0 || d < 0 then 0 else ((a * 16 + b) * 16 + c) * 16 + d
  }

  /** UTF-8, as the fall-through switch writes it from the last byte to the first. */
  function Utf8(uc: int): (b: Text)
    requires 0 <= uc < 0x110000
    ensures |b| <= 4 && (uc < 0x10000 ==> |b| <= 3)
  {
    if uc < 0x80 then [uc]
    else if uc < 0x800 then [0xC0 + uc / 64, 0x80 + uc % 64]
    else if uc < 0x10000 then [0xE0 + uc / 64 / 64, 0x80 + uc / 64 % 64, 0x80 + uc % 64]
    else [0xF0 + uc / 64 / 64 / 64, 0x80 + uc / 64 / 64 % 64, 0x80 + uc / 64 % 64, 0x80 + uc % 64]
  }

  predicate IsLow(uc: int) { 0xDC00 <= uc <= 0xDFFF }

  predicate IsHigh(uc: int) { 0xD800 <= uc <= 0xDBFF }

  function Pair(high: int, low: int): (uc: int)
    requires IsHigh(high) && IsLow(low)
    ensures 0x10000 <= uc < 0x110000
  {
    0x10000 + (high % 1024) * 1024 + low % 1024
  }

  /** An escape's bytes and the index behind it; i is the index of the character after the backslash. */
  function Unescape1(t: Text, i: nat): (r: (Text, nat))
    ensures r.1 > i && |r.0| <= 4
  {
    var c := At(t, i);
    if c == LOWER_U then UnescapeU(t, i)
    else ([if c == 98 then 8 else if c == 102 then 12 else if c == 110 then NEWLINE
           else if c == 114 then RETURN else if c == 116 then TAB else c], i + 1)
  }

  /** Transcode UTF-16 to UTF-8; invalid units give nothing. */
  function UnescapeU(t: Text, i: nat): (r: (Text, nat))
    ensures r.1 > i && |r.0| <= 4 && (r.1 == i + 5 || r.1 == i + 11) && (r.1 == i + 5 ==> |r.0| <= 3)
  {
    var uc := ParseHex4(t, i + 1);
    if IsLow(uc) || uc == 0 then ([], i + 5)
    else if IsHigh(uc) then
      if At(t, i + 5) != BACKSLASH || At(t, i + 6) != LOWER_U then ([], i + 5)
      else
        var uc2 := ParseHex4(t, i + 7);
        if !IsLow(uc2) then ([], i + 11) else (Utf8(Pair(uc, uc2)), i + 11)
    else (Utf8(uc), i + 5)
  }

  /** The bytes of a literal from index i to its closing quote, and the index behind that. */
  function Unescaped(t: Text, i: nat): (r: (Text, nat))
    ensures r.1 >= i
    decreases |t| - i
  {
    if At(t, i) == QUOTE then ([], i + 1)
    else if At(t, i) == 0 then ([], i)
    else if At(t, i) != BACKSLASH then
      var (rest, end) := Unescaped(t, i + 1);
      ([At(t, i)] + rest, end)
    else
      var (bytes, next) := Unescape1(t, i + 1);
      var (rest, end) := Unescaped(t, next);
      (bytes + rest, end)
  }

  /** parse_string */
  function ParseString(t: Text, i: nat): Option<(Text, nat)> {
    if At(t, i) != QUOTE then None else Some(Unescaped(t, i + 1))
  }

  // ---- Hexadecimal digits --------------------------------------------------------------------

  /** Four hexadecimal digits from index i on spell n. */
  predicate FourDigits(t: Text, i: nat, n: int) {
    && 0 <= n < 0x10000
    && IsHex(At(t, i), n / 4096) && IsHex(At(t, i + 1), n / 256 % 16)
    && IsHex(At(t, i + 2), n / 16 % 16) && IsHex(At(t, i + 3), n % 16)
  }

  /** A digit has its value, and no other character has one. */
  lemma HexExactly(c: Byte, v: int)
    requires 0 <= v < 16
    ensures IsHex(c, v) <==> HexValue(c) == v
    ensures HexDigit(v) == LOWER_DIGITS[v] as int
  {
    HexTable(v);
  }

  /** The places of a number below 2^16 in base 16. */
  lemma Places(n: int)
    requires 0 <= n < 0x10000
    ensures n == ((n / 4096 * 16 + n / 256 % 16) * 16 + n / 16 % 16) * 16 + n % 16
    ensures 0 <= n / 4096 < 16
  {
  }

  lemma PlacesOf(a: int, b: int, c: int, d: int)
    requires 0 <= a < 16 && 0 <= b < 16 && 0 <= c < 16 && 0 <= d < 16
    ensures var n := ((a * 16 + b) * 16 + c) * 16 + d;
      0 <= n < 0x10000 && n / 4096 == a && n / 256 % 16 == b && n / 16 % 16 == c && n % 16 == d
  {
  }

  /** parse_hex4 reads every spelling of a 16-bit number, in lower, upper or mixed case, as that number. */
  lemma HexReads(t: Text, i: nat, n: int)
    requires FourDigits(t, i, n)
    ensures ParseHex4(t, i) == n
  {
    hide HexValue, IsHex;
    Places(n);
    HexExactly(At(t, i), n / 4096);
    HexExactly(At(t, i + 1), n / 256 % 16);
    HexExactly(At(t, i + 2), n / 16 % 16);
    HexExactly(At(t, i + 3), n % 16);
  }

  /** And it reads nothing else as a number other than 0. */
  lemma HexReadsOnly(t: Text, i: nat)
    requires ParseHex4(t, i) != 0
    ensures FourDigits(t, i, ParseHex4(t, i))
  {
    hide HexValue, IsHex;
    var a, b, c, d := HexValue(At(t, i)), HexValue(At(t, i + 1)), HexValue(At(t, i + 2)), HexValue(At(t, i + 3));
    HexExactly(At(t, i), a);
    HexExactly(At(t, i + 1), b);
    HexExactly(At(t, i + 2), c);
    HexExactly(At(t, i + 3), d);
    PlacesOf(a, b, c, d);
  }

  // ---- The escapes of RFC 8259 section 7 -------------------------------------------------------

  /** The two-character escapes that print_string_ptr writes. */
  lemma ShortEscapes()
    ensures Escape('\"' as int) == Ascii("\\\"") && Escape('\\' as int) == Ascii("\\\\")
    ensures Escape(8) == Ascii("\\b") && Escape(12) == Ascii("\\f") && Escape(10) == Ascii("\\n")
    ensures Escape(13) == Ascii("\\r") && Escape(9) == Ascii("\\t")
  {
  }

  /** Other control characters get six characters, and all others stand for themselves. */
  lemma OtherEscapes(c: Byte)
    requires c != 8 && c != 9 && c != 10 && c != 12 && c != 13 && c != '\"' as int && c != '\\' as int
    ensures c >= 32 ==> Escape(c) == [c]
    ensures c < 32 ==>
      Escape(c) == Ascii("\\u00") + [LOWER_DIGITS[c / 16] as int, LOWER_DIGITS[c % 16] as int]
  {
    if c < 32 {
      HexExactly(0, 0);
      HexExactly(0, c / 16);
      HexExactly(0, c % 16);
      assert c / 16 / 16 == 0 && c / 16 / 16 / 16 == 0 && c / 16 % 16 == c / 16;
      hide HexDigit, HexValue, IsHex;
    }
  }

  /** What parse_string makes of the character behind a backslash, unless it is a u. */
  lemma UnescapesExactly(t: Text, i: nat)
    requires At(t, i) != 'u' as int
    ensures Unescape1(t, i).1 == i + 1 && |Unescape1(t, i).0| == 1
    ensures var c, r := At(t, i), Unescape1(t, i).0[0];
      && (c == 'b' as int ==> r == 8) && (c == 'f' as int ==> r == 12) && (c == 'n' as int ==> r == 10)
      && (c == 'r' as int ==> r == 13) && (c == 't' as int ==> r == 9)
      && (c != 'b' as int && c != 'f' as int && c != 'n' as int && c != 'r' as int && c != 't' as int ==> r == c)
  {
  }

  // ---- Parsing undoes printing ---------------------------------------------------------------

  lemma HexDigitValue(n: int)
    requires 0 <= n < 16
    ensures HexValue(HexDigit(n)) == n
  {
  }

  lemma Hex4Value(t: Text, i: nat, n: int)
    requires 0 <= n < 0x10000 && Has(t, i, Hex4(n))
    ensures ParseHex4(t, i) == n
  {
    var h := Hex4(n);
    HasAt(t, i, h, 0);
    HasAt(t, i, h, 1);
    HasAt(t, i, h, 2);
    HasAt(t, i, h, 3);
    HexDigitValue(n / 16 / 16 / 16);
    HexDigitValue(n / 16 / 16 % 16);
    HexDigitValue(n / 16 % 16);
    HexDigitValue(n % 16);
    assert HexValue(At(t, i)) == n / 16 / 16 / 16;
    hide HexDigit, HexValue, Has;
  }

  /** One printed character is read back. */
  lemma EscapeReadBack(t: Text, i: nat, c: Byte)
    requires c != 0 && Has(t, i, Escape(c))
    ensures At(t, i) != QUOTE && At(t, i) != 0 && |Escape(c)| > 0
    ensures Unescaped(t, i) == ([c] + Unescaped(t, i + |Escape(c)|).0, Unescaped(t, i + |Escape(c)|).1)
  {
    HasAt(t, i, Escape(c), 0);
    if c <= 31 || c == QUOTE || c == BACKSLASH {
      EscapeUndone(t, i, c);
      hide Has, Escape, Unescape1;
    }
  }

  /** An escape sequence is turned into its character. */
  lemma EscapeUndone(t: Text, i: nat, c: Byte)
    requires c != 0 && Has(t, i, Escape(c)) && (c <= 31 || c == QUOTE || c == BACKSLASH)
    ensures At(t, i) == BACKSLASH && Unescape1(t, i + 1) == ([c], i + |Escape(c)|)
  {
    hide Has, Hex4, ParseHex4;
    HasAt(t, i, Escape(c), 0);
    HasAt(t, i, Escape(c), 1);
    if Letter(c) == 0 {
      HasSplit(t, i, [BACKSLASH, LOWER_U], Hex4(c));
      Hex4Value(t, i + 2, c);
    }
  }

  /** parse_string inverts print_string_ptr on every byte string without zeros. */
  lemma {:induction false} ReadBackFrom(t: Text, i: nat, s: Text)
    requires NoZero(s) && Has(t, i, Escaped(s) + [QUOTE])
    ensures Unescaped(t, i) == (s, i + |Escaped(s)| + 1)
    decreases |s|
  {
    hide Escape, Has, Unescape1;
    if s == [] {
      assert Escaped(s) + [QUOTE] == [QUOTE];
      HasAt(t, i, [QUOTE], 0);
    } else {
      var e, rest := Escape(s[0]), Escaped(s[1..]);
      assert Escaped(s) + [QUOTE] == e + (rest + [QUOTE]);
      HasSplit(t, i, e, rest + [QUOTE]);
      EscapeReadBack(t, i, s[0]);
      ReadBackFrom(t, i + |e|, s[1..]);
      assert s == [s[0]] + s[1..];
    }
  }

  lemma ReadBack(t: Text, i: nat, s: Text)
    requires NoZero(s) && Has(t, i, Literal(s))
    ensures ParseString(t, i) == Some((s, i + |Literal(s)|))
  {
    assert Literal(s) == [QUOTE] + (Escaped(s) + [QUOTE]);
    HasSplit(t, i, [QUOTE], Escaped(s) + [QUOTE]);
    HasAt(t, i, [QUOTE], 0);
    ReadBackFrom(t, i + 1, s);
  }

  // ---- UTF-8 (RFC 3629 section 3) ------------------------------------------------------------

  /** A Unicode scalar value other than zero, which a C string cannot hold. */
  predicate Scalar(cp: int) {
    0 < cp < 0x110000 && !(0xD800 <= cp <= 0xDFFF)
  }

  predicate Trail(b: Byte) { 0x80 <= b <= 0xBF }

  /** The bits a byte carries above its mark. */
  function Bits(b: Byte, mark: int): int { b - mark }

  /** Decoding by the table of RFC 3629 section 3, for a whole sequence of bytes. */
  function Decode(b: Text): Option<int> {
    if |b| == 1 && b[0] < 0x80 then Some(Bits(b[0], 0))
    else if |b| == 2 && 0xC2 <= b[0] <= 0xDF && Trail(b[1]) then
      Some(Bits(b[0], 0xC0) * 64 + Bits(b[1], 0x80))
    else if |b| == 3 && 0xE0 <= b[0] <= 0xEF && Trail(b[1]) && Trail(b[2])
         && (b[0] == 0xE0 ==> b[1] >= 0xA0) && (b[0] == 0xED ==> b[1] <= 0x9F) then
      Some((Bits(b[0], 0xE0) * 64 + Bits(b[1], 0x80)) * 64 + Bits(b[2], 0x80))
    else if |b| == 4 && 0xF0 <= b[0] <= 0xF4 && Trail(b[1]) && Trail(b[2]) && Trail(b[3])
         && (b[0] == 0xF0 ==> b[1] >= 0x90) && (b[0] == 0xF4 ==> b[1] <= 0x8F) then
      Some(((Bits(b[0], 0xF0) * 64 + Bits(b[1], 0x80)) * 64 + Bits(b[2], 0x80)) * 64 + Bits(b[3], 0x80))
    else None
  }

  lemma Utf8Decodes(cp: int)
    requires Scalar(cp)
    ensures Decode(Utf8(cp)) == Some(cp)
  {
  }

  /** A \uXXXX escape of the 16-bit unit n, with digits in either or mixed case. */
  predicate Unit(t: Text, i: nat, n: int) {
    At(t, i) == '\\' as int && At(t, i + 1) == 'u' as int && FourDigits(t, i + 2, n)
  }

  function HighUnit(cp: int): int { 0xD800 + (cp - 0x10000) / 1024 }

  function LowUnit(cp: int): int { 0xDC00 + (cp - 0x10000) % 1024 }

  /** The escape of a code point: one unit, or a surrogate pair (RFC 8259 section 7). */
  predicate Escapes(t: Text, i: nat, cp: int) {
    if cp < 0x10000 then Unit(t, i, cp) else Unit(t, i, HighUnit(cp)) && Unit(t, i + 6, LowUnit(cp))
  }

  lemma PairJoins(cp: int)
    requires 0x10000 <= cp < 0x110000
    ensures IsHigh(HighUnit(cp)) && IsLow(LowUnit(cp)) && Pair(HighUnit(cp), LowUnit(cp)) == cp
  {
    var q := (cp - 0x10000) / 1024;
    assert HighUnit(cp) % 1024 == q by {
      assert HighUnit(cp) == 54 * 1024 + q && 0 <= q < 1024;
    }
    assert LowUnit(cp) % 1024 == (cp - 0x10000) % 1024 by {
      assert LowUnit(cp) == 55 * 1024 + (cp - 0x10000) % 1024;
    }
  }

  /** parse_string turns the escape of a code point into its UTF-8. */
  lemma EscapeGivesUtf8(t: Text, i: nat, cp: int)
    requires Scalar(cp) && Escapes(t, i, cp)
    ensures var next := if cp < 0x10000 then i + 6 else i + 12;
      && Unescaped(t, i) == (Utf8(cp) + Unescaped(t, next).0, Unescaped(t, next).1)
      && Decode(Utf8(cp)) == Some(cp)
  {
    hide Utf8, Decode, ParseHex4, Pair, FourDigits;
    Utf8Decodes(cp);
    if cp >= 0x10000 {
      PairJoins(cp);
      HexReads(t, i + 2, HighUnit(cp));
      HexReads(t, i + 8, LowUnit(cp));
    } else {
      HexReads(t, i + 2, cp);
    }
  }

  // ---- The length pass bounds the output -----------------------------------------------------

  /** `while (*ptr != quote && *ptr && ++len) if (*ptr++ == backslash) ptr++;` from index i on. */
  function LengthPass(t: Text, i: nat): nat
    decreases |t| - i
  {
    if At(t, i) == QUOTE || At(t, i) == 0 then 0
    else 1 + LengthPass(t, if At(t, i) == BACKSLASH then i + 2 else i + 1)
  }

  /** A byte that neither ends a literal nor starts an escape. */
  predicate Inner(c: Byte) { c != 0 && c != QUOTE && c != BACKSLASH }

  predicate FourInner(t: Text, i: nat) {
    Inner(At(t, i)) && Inner(At(t, i + 1)) && Inner(At(t, i + 2)) && Inner(At(t, i + 3))
  }

  /** From i on every escape of the literal is complete as far as lengths go: there is a byte behind a
      backslash and there are four behind a \u, hexadecimal or not. */
  predicate EscapesWhole(t: Text, i: nat)
    decreases |t| - i
  {
    if At(t, i) == QUOTE || At(t, i) == 0 then true
    else if At(t, i) != BACKSLASH then EscapesWhole(t, i + 1)
    else if At(t, i + 1) != LOWER_U then At(t, i + 1) != 0 && EscapesWhole(t, i + 2)
    else FourInner(t, i + 2) && EscapesWhole(t, i + 6)
  }

  /** The length pass counts five bytes for a \uXXXX. */
  lemma UnitCounts(t: Text, i: nat)
    requires At(t, i) == BACKSLASH && At(t, i + 1) == LOWER_U && FourInner(t, i + 2)
    ensures LengthPass(t, i) == 5 + LengthPass(t, i + 6)
  {
    assert LengthPass(t, i + 2) == 1 + LengthPass(t, i + 3);
    assert LengthPass(t, i + 4) == 1 + LengthPass(t, i + 5);
  }

  lemma {:induction false} LengthPassBounds(t: Text, i: nat)
    requires EscapesWhole(t, i)
    ensures |Unescaped(t, i).0| <= LengthPass(t, i)
    decreases |t| - i
  {
    if At(t, i) == QUOTE || At(t, i) == 0 {
    } else if At(t, i) != BACKSLASH {
      LengthPassBounds(t, i + 1);
    } else if At(t, i + 1) != LOWER_U {
      LengthPassBounds(t, i + 2);
    } else {
      UnicodeBounds(t, i);
    }
  }

  lemma {:induction false} UnicodeBounds(t: Text, i: nat)
    requires EscapesWhole(t, i) && At(t, i) == BACKSLASH && At(t, i + 1) == LOWER_U
    ensures |Unescaped(t, i).0| <= LengthPass(t, i)
    decreases |t| - i, 0
  {
    var next := UnescapeU(t, i + 1).1;
    UnitCounts(t, i);
    if next == i + 6 {
      LengthPassBounds(t, i + 6);
    } else {
      assert At(t, i + 6) == BACKSLASH && At(t, i + 7) == LOWER_U;
      UnitCounts(t, i + 6);
      LengthPassBounds(t, i + 12);
    }
    hide LengthPass, EscapesWhole, FourInner, ParseHex4, UnescapeU;
  }
}
