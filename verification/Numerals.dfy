/** Numbers in digits: what "%d" and "%x" print, and what a run of decimal digits is read as. */
module Numerals {
  import opened CText
  import opened Modulo

  predicate IsDigit(c: Byte) { ZERO <= c <= NINE }

  function Digit(d: int, large: bool): Byte
    requires 0 <= d < 16
  {
    if d < 10 then ZERO + d else if large then 55 + d else 87 + d
  }

  /** The digits of a number in base d, most significant first. */
  function Digits(n: nat, d: nat, large: bool): (x: Text)
    requires d == 10 || d == 16
    ensures |x| > 0
  {
    if n < d then [Digit(n, large)] else Digits(n / d, d, large) + [Digit(n % d, large)]
  }

  lemma {:induction false} AllDigits(n: nat, large: bool)
    ensures forall k | 0 <= k < |Digits(n, 10, large)| :: IsDigit(Digits(n, 10, large)[k])
  {
    if n >= 10 {
      AllDigits(n / 10, large);
    }
  }

  function DigitValue(c: Byte): int {
    if c <= NINE then c - ZERO else if c < 97 then c - 55 else c - 87
  }

  /** Reading digits in base d. */
  function ValueOf(x: Text, d: nat): int {
    if x == [] then 0 else ValueOf(x[..|x| - 1], d) * d + DigitValue(x[|x| - 1])
  }

  /** The digits of a number are its digits, in base 10 and 16, in either case. */
  lemma {:induction false} DigitsDecode(n: nat, d: nat, large: bool)
    requires d == 10 || d == 16
    ensures ValueOf(Digits(n, d, large), d) == n
  {
    var x := Digits(n, d, large);
    if n < d {
      assert x[..0] == [];
    } else {
      DigitsDecode(n / d, d, large);
      assert x[..|x| - 1] == Digits(n / d, d, large);
    }
  }

  /** No zero in front, except for zero itself. */
  lemma {:induction false} DigitsLead(n: nat)
    ensures n == 0 ==> Digits(n, 10, false) == [ZERO]
    ensures n > 0 ==> Digits(n, 10, false)[0] != ZERO
  {
    if n >= 10 {
      DigitsLead(n / 10);
    }
  }

  lemma {:induction false} DigitsWidth(n: nat, d: nat, large: bool, k: nat)
    requires (d == 10 || d == 16) && k > 0 && n < Tens(k)
    ensures |Digits(n, d, large)| <= k
    decreases k
  {
    if n >= d {
      assert n / d < Tens(k - 1) by {
        if d == 16 {
          assert n / 16 <= n / 10;
        }
      }
      DigitsWidth(n / d, d, large, k - 1);
    }
  }

  /** A 32-bit number has at most ten digits. */
  lemma DigitsFit(n: nat, d: nat, large: bool)
    requires (d == 10 || d == 16) && n < 0x1_0000_0000
    ensures |Digits(n, d, large)| <= 10
  {
    assert Tens(5) == 100000;
    assert Tens(10) == 10_000_000_000;
    DigitsWidth(n, d, large, 10);
  }

  // ---- Reading -----------------------------------------------------------------------------------

  /** Reads decimal digits from index i on; n is what the digits before them were worth. */
  function ReadDigits(t: Text, i: nat, n: int): (r: (int, nat))
    ensures r.1 >= i
    decreases |t| - i
  {
    if IsDigit(At(t, i)) then ReadDigits(t, i + 1, n * 10 + (At(t, i) - ZERO) as int) else (n, i)
  }

  method ScanDigits(t: Text, i: nat, n0: int) returns (n: int, j: nat)
    ensures (n, j) == ReadDigits(t, i, n0)
  {
    n, j := n0, i;
    while IsDigit(At(t, j))
      invariant ReadDigits(t, j, n) == ReadDigits(t, i, n0)
      decreases |t| - j
    {
      n := n * 10 + (At(t, j) - ZERO) as int;
      j := j + 1;
    }
  }

  /** Reading a run of digits gives its value. */
  lemma {:induction false} ReadAll(t: Text, i: nat, x: Text)
    requires Has(t, i, x) && forall k | 0 <= k < |x| :: IsDigit(x[k])
    ensures ReadDigits(t, i, 0) == ReadDigits(t, i + |x|, ValueOf(x, 10))
    decreases |x|
  {
    if x != [] {
      var y := x[..|x| - 1];
      assert x == y + [x[|x| - 1]];
      HasSplit(t, i, y, [x[|x| - 1]]);
      ReadAll(t, i, y);
      HasAt(t, i, x, |x| - 1);
    }
  }
}
