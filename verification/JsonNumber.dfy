/** Numbers: "%d" printing of int values, and parse_number.

    A parsed number is mantissa * 10^exponent, exactly; the source goes on to round it to a double. */
module JsonNumber {
  import opened CText
  import opened Numerals

  datatype Number = Number(mantissa: int, exponent: int)

  const INT_MAX := 0x7FFF_FFFF
  const INT_MIN := -0x8000_0000

  /** sprintf "%d" */
  function Decimal(n: int): Text {
    if n < 0 then [MINUS] + Digits(-n, 10, false) else Digits(n, 10, false)
  }

  /** A digit or the sign. */
  predicate NumberByte(c: Byte) { c == MINUS || IsDigit(c) }

  lemma DecimalBytes(n: int)
    ensures Decimal(n) != [] && forall k | 0 <= k < |Decimal(n)| :: NumberByte(Decimal(n)[k])
  {
    AllDigits(if n < 0 then -n else n, false);
    hide Digits;
  }

  function Fraction(t: Text, i: nat, n: int): (r: (int, nat))
    ensures r.1 >= i
  {
    if At(t, i) == DOT && IsDigit(At(t, i + 1)) then ReadDigits(t, i + 1, n) else (n, i)
  }

  /** The signed exponent and the index behind it. */
  function Exponent(t: Text, i: nat): (r: (int, nat))
    ensures r.1 >= i
  {
    if At(t, i) == 101 || At(t, i) == 69 then
      if At(t, i + 1) == PLUS then ReadDigits(t, i + 2, 0)
      else if At(t, i + 1) == MINUS then var (e, end) := ReadDigits(t, i + 2, 0); (-e, end)
      else ReadDigits(t, i + 1, 0)
    else (0, i)
  }

  /** parse_number */
  function ParseNumber(t: Text, i: nat): (r: (Number, nat))
    ensures r.1 >= i
    ensures At(t, i) == MINUS || IsDigit(At(t, i)) ==> r.1 > i
  {
    var a := if At(t, i) == MINUS then i + 1 else i;
    var b := if At(t, a) == ZERO then a + 1 else a;
    var (n, c) := if ZERO < At(t, b) <= NINE then ReadDigits(t, b, 0) else (0, b);
    var (m, d) := Fraction(t, c, n);
    var (e, end) := Exponent(t, d);
    (Number(if At(t, i) == MINUS then -m else m, (if d == c then 0 else c + 1 - d) + e), end)
  }

  // ---- Parsing undoes printing ---------------------------------------------------------------

  /** A byte that cannot go on with a number. */
  predicate Stops(c: Byte) {
    !IsDigit(c) && c != DOT && c != 101 && c != 69
  }

  lemma ReadBackDigits(t: Text, i: nat, n: nat)
    requires Has(t, i, Digits(n, 10, false)) && Stops(At(t, i + |Digits(n, 10, false)|))
    ensures n > 0 ==> ZERO < At(t, i) <= NINE && ReadDigits(t, i, 0) == (n, i + |Digits(n, 10, false)|)
    ensures n == 0 ==> At(t, i) == ZERO && |Digits(n, 10, false)| == 1
    ensures At(t, i) != MINUS
  {
    DigitsLead(n);
    HasAt(t, i, Digits(n, 10, false), 0);
    DigitsDecode(n, 10, false);
    AllDigits(n, false);
    ReadAll(t, i, Digits(n, 10, false));
  }

  lemma NoFraction(t: Text, i: nat, n: int)
    requires Stops(At(t, i))
    ensures Fraction(t, i, n) == (n, i)
  {
    hide ReadDigits;
  }

  lemma NoExponent(t: Text, i: nat)
    requires Stops(At(t, i))
    ensures Exponent(t, i) == (0, i)
  {
    hide ReadDigits;
  }

  /** parse_number on a run of digits from index a to `end`, with or without a minus in front. */
  lemma ParseRun(t: Text, i: nat, a: nat, n: int, end: nat)
    requires a == if At(t, i) == MINUS then i + 1 else i
    requires n >= 0 && if n > 0 then ZERO < At(t, a) <= NINE && ReadDigits(t, a, 0) == (n, end)
             else At(t, a) == ZERO && end == a + 1
    requires Stops(At(t, end))
    ensures ParseNumber(t, i) == (Number(if At(t, i) == MINUS then -n else n, 0), end)
  {
    hide ReadDigits, Fraction, Exponent;
    NoFraction(t, end, n);
    NoExponent(t, end);
  }

  lemma ReadBackNegative(t: Text, i: nat, n: int)
    requires n > 0 && Has(t, i, [MINUS] + Digits(n, 10, false)) && Stops(At(t, i + 1 + |Digits(n, 10, false)|))
    ensures At(t, i) == MINUS && ParseNumber(t, i) == (Number(-n, 0), i + 1 + |Digits(n, 10, false)|)
  {
    hide Digits, Has, ReadDigits, ParseNumber;
    HasSplit(t, i, [MINUS], Digits(n, 10, false));
    HasAt(t, i, [MINUS], 0);
    ReadBackDigits(t, i + 1, n);
    ParseRun(t, i, i + 1, n, i + 1 + |Digits(n, 10, false)|);
  }

  lemma ReadBackPositive(t: Text, i: nat, n: nat)
    requires Has(t, i, Digits(n, 10, false)) && Stops(At(t, i + |Digits(n, 10, false)|))
    ensures IsDigit(At(t, i)) && ParseNumber(t, i) == (Number(n, 0), i + |Digits(n, 10, false)|)
  {
    hide Digits, Has, ReadDigits, ParseNumber;
    ReadBackDigits(t, i, n);
    ParseRun(t, i, i, n, i + |Digits(n, 10, false)|);
  }

  /** parse_number inverts "%d" on every int. */
  lemma ReadBack(t: Text, i: nat, n: int)
    requires Has(t, i, Decimal(n)) && Stops(At(t, i + |Decimal(n)|))
    ensures ParseNumber(t, i) == (Number(n, 0), i + |Decimal(n)|)
    ensures At(t, i) == MINUS || IsDigit(At(t, i))
  {
    hide Digits, Has, ParseNumber;
    if n < 0 {
      ReadBackNegative(t, i, -n);
    } else {
      ReadBackPositive(t, i, n);
    }
  }

  // ---- Numbers by RFC 8259 section 6 ---------------------------------------------------------

  predicate AllDecimal(x: Text) {
    forall k | 0 <= k < |x| :: '0' as int <= x[k] <= '9' as int
  }

  /** The parts of a number: sign, digits in front of the point and behind it, and the exponent. */
  datatype Parts = Parts(minus: bool, whole: Text, fraction: Text, upper: bool, sign: Text, exponent: Text)

  /** A lone zero or digits that do not start with one, and digits in the other parts. */
  predicate WellFormed(p: Parts) {
    && AllDecimal(p.whole) && AllDecimal(p.fraction) && AllDecimal(p.exponent)
    && p.whole != [] && (p.whole[0] == '0' as int ==> |p.whole| == 1)
    && (p.sign == [] || p.sign == ['+' as int] || p.sign == ['-' as int])
  }

  function FractionText(p: Parts): Text { if p.fraction == [] then [] else ['.' as int] + p.fraction }

  function ExponentText(p: Parts): Text {
    if p.exponent == [] then [] else [if p.upper then 'E' as int else 'e' as int] + p.sign + p.exponent
  }

  function Spelling(p: Parts): Text {
    (if p.minus then ['-' as int] else []) + (p.whole + (FractionText(p) + ExponentText(p)))
  }

  /** The number that the parts stand for. */
  function Meaning(p: Parts): Number {
    var m, e := ValueOf(p.whole + p.fraction, 10), ValueOf(p.exponent, 10);
    Number(if p.minus then -m else m, (if p.sign == ['-' as int] then -e else e) - |p.fraction|)
  }

  lemma {:induction false} ReadOn(t: Text, i: nat, x: Text, y: Text)
    requires Has(t, i, y) && AllDecimal(y)
    ensures ReadDigits(t, i, ValueOf(x, 10)) == ReadDigits(t, i + |y|, ValueOf(x + y, 10))
    decreases |y|
  {
    if y == [] {
      assert x + y == x;
    } else {
      var front, c := y[..|y| - 1], y[|y| - 1];
      assert y == front + [c];
      HasSplit(t, i, front, [c]);
      ReadOn(t, i, x, front);
      HasAt(t, i, y, |y| - 1);
      assert (x + y)[..|x + y| - 1] == x + front;
    }
  }

  /** Reading stops behind the digits y. */
  lemma ReadUpTo(t: Text, i: nat, x: Text, y: Text)
    requires Has(t, i, y) && AllDecimal(y) && !IsDigit(At(t, i + |y|))
    ensures ReadDigits(t, i, ValueOf(x, 10)) == (ValueOf(x + y, 10), i + |y|)
  {
    ReadOn(t, i, x, y);
  }

  lemma WholeIs(t: Text, b: nat, w: Text)
    requires Has(t, b, w) && AllDecimal(w) && w != [] && (w[0] == '0' as int ==> |w| == 1)
    requires !IsDigit(At(t, b + |w|))
    ensures var a := if At(t, b) == ZERO then b + 1 else b;
      (if ZERO < At(t, a) <= NINE then ReadDigits(t, a, 0) else (0, a)) == (ValueOf(w, 10), b + |w|)
    ensures IsDigit(At(t, b))
  {
    HasAt(t, b, w, 0);
    if w[0] == '0' as int {
      assert w[..0] == [] && ValueOf(w, 10) == 0;
    } else {
      ReadUpTo(t, b, [], w);
      assert [] + w == w;
    }
  }

  lemma FractionIs(t: Text, c: nat, p: Parts)
    requires WellFormed(p) && Has(t, c, FractionText(p))
    requires var end := At(t, c + |FractionText(p)|); !IsDigit(end) && (p.fraction == [] ==> end != DOT)
    ensures Fraction(t, c, ValueOf(p.whole, 10)) ==
      (ValueOf(p.whole + p.fraction, 10), c + |FractionText(p)|)
  {
    if p.fraction == [] {
      assert p.whole + p.fraction == p.whole;
    } else {
      HasSplit(t, c, ['.' as int], p.fraction);
      HasAt(t, c, ['.' as int], 0);
      HasAt(t, c + 1, p.fraction, 0);
      ReadUpTo(t, c + 1, p.whole, p.fraction);
    }
  }

  lemma ExponentIs(t: Text, d: nat, p: Parts)
    requires WellFormed(p) && Has(t, d, ExponentText(p))
    requires var end := At(t, d + |ExponentText(p)|);
      !IsDigit(end) && (p.exponent == [] ==> end != 'e' as int && end != 'E' as int)
    ensures Exponent(t, d) ==
      (if p.sign == ['-' as int] then -ValueOf(p.exponent, 10) else ValueOf(p.exponent, 10), d + |ExponentText(p)|)
  {
    hide Has, ReadDigits, ValueOf, AllDecimal;
    NoDigits();
    if p.exponent != [] {
      ExponentMark(t, d, p);
      var digits := d + 1 + |p.sign|;
      ReadUpTo(t, digits, [], p.exponent);
      assert [] + p.exponent == p.exponent;
    }
  }

  lemma NoDigits()
    ensures ValueOf([], 10) == 0
  {
  }

  /** The letter, the sign and the first digit of an exponent. */
  lemma ExponentMark(t: Text, d: nat, p: Parts)
    requires WellFormed(p) && p.exponent != [] && Has(t, d, ExponentText(p))
    ensures At(t, d) == 'e' as int || At(t, d) == 'E' as int
    ensures Has(t, d + 1 + |p.sign|, p.exponent) && IsDigit(At(t, d + 1 + |p.sign|))
    ensures p.sign != [] ==> At(t, d + 1) == p.sign[0]
    ensures |ExponentText(p)| == 1 + |p.sign| + |p.exponent|
  {
    hide Has;
    var mark: Text := [if p.upper then 'E' as int else 'e' as int];
    assert ExponentText(p) == mark + (p.sign + p.exponent);
    HasSplit(t, d, mark, p.sign + p.exponent);
    HasSplit(t, d + 1, p.sign, p.exponent);
    HasAt(t, d, mark, 0);
    if p.sign != [] {
      HasAt(t, d + 1, p.sign, 0);
    }
    HasAt(t, d + 1 + |p.sign|, p.exponent, 0);
  }

  /** Every number of RFC 8259, followed by a byte that cannot go on with it, is read as what it stands for. */
  lemma ReadsSpelling(t: Text, i: nat, p: Parts)
    requires WellFormed(p) && Has(t, i, Spelling(p)) && Stops(At(t, i + |Spelling(p)|))
    ensures ParseNumber(t, i) == (Meaning(p), i + |Spelling(p)|)
    ensures At(t, i) == '-' as int || IsDigit(At(t, i))
  {
    hide Has, ReadDigits, Fraction, Exponent, FractionText, ExponentText, ValueOf, AllDecimal;
    var minus: Text := if p.minus then ['-' as int] else [];
    var rest := FractionText(p) + ExponentText(p);
    HasSplit(t, i, minus, p.whole + rest);
    var b := i + |minus|;
    HasSplit(t, b, p.whole, rest);
    var c := b + |p.whole|;
    HasSplit(t, c, FractionText(p), ExponentText(p));
    var d := c + |FractionText(p)|;
    if p.minus { HasAt(t, i, minus, 0); }
    Marks(t, c, p);
    WholeIs(t, b, p.whole);
    FractionIs(t, c, p);
    ExponentIs(t, d, p);
  }

  /** The bytes behind the parts are no digits. */
  lemma Marks(t: Text, c: nat, p: Parts)
    requires WellFormed(p) && Has(t, c, FractionText(p)) && Has(t, c + |FractionText(p)|, ExponentText(p))
    requires Stops(At(t, c + |FractionText(p)| + |ExponentText(p)|))
    ensures !IsDigit(At(t, c)) && !IsDigit(At(t, c + |FractionText(p)|))
    ensures p.fraction == [] ==> At(t, c + |FractionText(p)|) != DOT
    ensures p.fraction != [] ==> |FractionText(p)| == |p.fraction| + 1
    ensures p.fraction == [] ==> FractionText(p) == []
  {
    if p.fraction != [] { HasAt(t, c, FractionText(p), 0); }
    if p.exponent != [] { HasAt(t, c + |FractionText(p)|, ExponentText(p), 0); }
  }
}
