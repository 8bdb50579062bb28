/** The hexadecimal digits as characters. */
module HexDigits {
  import opened CText

  const LOWER_DIGITS: string := "0123456789abcdef"
  const UPPER_DIGITS: string := "0123456789ABCDEF"

  /** The character c is the hexadecimal digit of value v, in lower or upper case. */
  predicate IsHex(c: Byte, v: int) {
    0 <= v < 16 && (c == LOWER_DIGITS[v] as int || c == UPPER_DIGITS[v] as int)
  }

  lemma HexTable(v: int)
    requires 0 <= v < 16
    ensures LOWER_DIGITS[v] as int == if v < 10 then 48 + v else 87 + v
    ensures UPPER_DIGITS[v] as int == if v < 10 then 48 + v else 55 + v
  {
    if v < 8 { HexTableLow(v); } else { HexTableHigh(v); }
  }

  lemma HexTableLow(v: int)
    requires 0 <= v < 8
    ensures LOWER_DIGITS[v] as int == 48 + v == UPPER_DIGITS[v] as int
  {
  }

  lemma HexTableHigh(v: int)
    requires 8 <= v < 16
    ensures LOWER_DIGITS[v] as int == if v < 10 then 48 + v else 87 + v
    ensures UPPER_DIGITS[v] as int == if v < 10 then 48 + v else 55 + v
  {
  }

  /** The digit of value v as a byte. */
  function Table(upper: bool, v: int): (c: Byte)
    requires 0 <= v < 16
  {
    HexTable(v);
    if upper then UPPER_DIGITS[v] as int else LOWER_DIGITS[v] as int
  }

  /** x writes n in base d, most significant digit first, perhaps with zeros in front. */
  predicate Numeral(x: Text, n: nat, d: nat, upper: bool)
    requires 2 <= d <= 16
  {
    && x != [] && x[|x| - 1] == Table(upper, n % d)
    && if |x| == 1 then n < d else Numeral(x[..|x| - 1], n / d, d, upper)
  }

  lemma ZeroDigit(upper: bool)
    ensures Table(upper, 0) == '0' as int
  {
  }

  lemma Below(n: nat, d: nat)
    requires n < d
    ensures n / d == 0 && n % d == n && (n / d) % d == 0
  {
  }

  lemma SingleZero(d: nat, upper: bool)
    requires 2 <= d <= 16
    ensures Numeral(['0' as int], 0, d, upper)
  {
    ZeroDigit(upper);
    Below(0, d);
    hide Table;
  }

  /** More zeros in front change nothing. */
  lemma {:induction false} ZeroInFront(x: Text, n: nat, d: nat, upper: bool)
    requires 2 <= d <= 16 && Numeral(x, n, d, upper)
    ensures Numeral(['0' as int] + x, n, d, upper)
    decreases |x|
  {
    hide Table;
    var y := ['0' as int] + x;
    if |x| == 1 {
      assert y[..|y| - 1] == ['0' as int];
      Below(n, d);
      SingleZero(d, upper);
    } else {
      assert y[..|y| - 1] == ['0' as int] + x[..|x| - 1];
      ZeroInFront(x[..|x| - 1], n / d, d, upper);
    }
  }
}
