/** pow2gt: the sizes to which the JSON print buffer grows. */
module PowerOfTwo {
  predicate Power(n: nat) {
    n == 1 || (n > 1 && n % 2 == 0 && Power(n / 2))
  }

  /** 2^30, the greatest power of two in an int. */
  const LIMIT := 0x4000_0000

  // ---- 32-bit words as numbers -------------------------------------------------------------

  function Half(b: bv32): bv32 { b >> 1 }

  predicate Odd(b: bv32) { b & 1 == 1 }

  /** Unsigned comparison of words. */
  predicate Less(a: bv32, b: bv32) { a < b }

  function Low(b: bv32): nat { if Odd(b) then 1 else 0 }

  function Double(w: bv32, one: bool): bv32 {
    (w << 1) | (if one then 1 else 0)
  }

  /** The number a word stands for. */
  function Value(b: bv32): nat
    decreases b
  {
    if b == 0 then 0 else
      assert b >> 1 < b;
      2 * Value(Half(b)) + Low(b)
  }

  /** The word that holds n, for n below 2^32. */
  function Word(n: nat): bv32 {
    if n == 0 then 0 else Double(Word(n / 2), n % 2 == 1)
  }

  lemma ValueHalf(b: bv32)
    ensures Value(b) == 2 * Value(Half(b)) + Low(b)
  {
  }

  lemma HalfOrdered(a: bv32, b: bv32)
    requires Less(a, b)
    ensures Less(Half(b), b) && (Less(Half(a), Half(b)) || (Half(a) == Half(b) && !Odd(a) && Odd(b)))
  {
  }

  lemma {:induction false} Ordered(a: bv32, b: bv32)
    requires Less(a, b)
    ensures Value(a) < Value(b)
    decreases b
  {
    hide Value, Half, Odd;
    HalfOrdered(a, b);
    ValueHalf(a);
    ValueHalf(b);
    if Less(Half(a), Half(b)) {
      Ordered(Half(a), Half(b));
    }
  }

  lemma HalfDecides(a: bv32, b: bv32)
    requires Less(Half(a), Half(b))
    ensures Less(a, b)
  {
  }

  lemma OddDecides(a: bv32, b: bv32)
    requires Half(a) == Half(b) && !Odd(a) && Odd(b)
    ensures Less(a, b)
  {
  }

  lemma SameHalves(a: bv32, b: bv32)
    requires Half(a) == Half(b) && Odd(a) == Odd(b)
    ensures a == b
  {
  }

  lemma Shrinks(a: bv32)
    requires a != 0
    ensures Half(a) < a
  {
  }

  lemma ZeroLess(b: bv32)
    requires b != 0
    ensures Less(0, b)
  {
  }

  lemma {:induction false} Compare(a: bv32, b: bv32)
    ensures Less(a, b) || a == b || Less(b, a)
    decreases a
  {
    hide Less, Half, Odd;
    if a == 0 {
      if b != 0 {
        ZeroLess(b);
      }
    } else {
      Shrinks(a);
      Compare(Half(a), Half(b));
      if Less(Half(a), Half(b)) {
        HalfDecides(a, b);
      } else if Less(Half(b), Half(a)) {
        HalfDecides(b, a);
      } else if Odd(a) == Odd(b) {
        SameHalves(a, b);
      } else if Odd(b) {
        OddDecides(a, b);
      } else {
        OddDecides(b, a);
      }
    }
  }

  /** Comparing words is comparing numbers. */
  lemma ValueLess(a: bv32, b: bv32)
    ensures Less(a, b) <==> Value(a) < Value(b)
  {
    hide Value, Less;
    Compare(a, b);
    if Less(a, b) {
      Ordered(a, b);
    } else if Less(b, a) {
      Ordered(b, a);
    }
  }

  lemma FourZeros(b: bv32)
    requires b & 15 == 0
    ensures Value(b) == 16 * Value(b >> 4)
  {
    FourHalves(b);
    hide Value, Half, Odd;
    ValueHalf(b);
    ValueHalf(Half(b));
    ValueHalf(Half(Half(b)));
    ValueHalf(Half(Half(Half(b))));
  }

  lemma FourHalves(b: bv32)
    requires b & 15 == 0
    ensures !Odd(b) && !Odd(Half(b)) && !Odd(Half(Half(b))) && !Odd(Half(Half(Half(b))))
    ensures Half(Half(Half(Half(b)))) == b >> 4
  {
  }

  lemma TopBits()
    ensures Value(0x8000_0000) == 0x8000_0000 && Value(0x4000_0000) == LIMIT
  {
    assert Value(1) == 1;
    ValueHalf(2);
    ValueHalf(4);
    ValueHalf(8);
    hide Value;
    TopBitsFrom(8);
    TopBitsFrom(4);
  }

  lemma TopBitsFrom(b: bv32)
    requires b < 16
    ensures Value(b << 28) == 0x1000_0000 * Value(b)
  {
    FourZeros(b << 4);
    FourZeros(b << 8);
    FourZeros(b << 12);
    FourZeros(b << 16);
    FourZeros(b << 20);
    FourZeros(b << 24);
    FourZeros(b << 28);
    assert (b << 4) >> 4 == b && (b << 8) >> 4 == b << 4 && (b << 12) >> 4 == b << 8 && (b << 16) >> 4 == b << 12;
    assert (b << 20) >> 4 == b << 16 && (b << 24) >> 4 == b << 20 && (b << 28) >> 4 == b << 24;
    hide Value;
  }

  lemma DoubleShape(w: bv32, one: bool)
    requires Less(w, 0x8000_0000)
    ensures Half(Double(w, one)) == w && (Odd(Double(w, one)) <==> one)
  {
  }

  lemma {:induction false} WordValue(n: nat)
    requires n < 0x1_0000_0000
    ensures Value(Word(n)) == n
    decreases n
  {
    if n > 0 {
      var w := Word(n / 2);
      WordValue(n / 2);
      hide Value, Double, Half, Odd, Less;
      TopBits();
      ValueLess(w, 0x8000_0000);
      DoubleShape(w, n % 2 == 1);
      ValueHalf(Double(w, n % 2 == 1));
    }
  }

  // ---- The bit trick -------------------------------------------------------------------------

  /** x |= x >> 1; ... x |= x >> 16 */
  function Smear(x0: bv32): bv32 {
    var a := x0 | (x0 >> 1);
    var b := a | (a >> 2);
    var c := b | (b >> 4);
    var d := c | (c >> 8);
    d | (d >> 16)
  }

  predicate OneBit(p: bv32) { p != 0 && p & (p - 1) == 0 }

  /** x + 1 */
  function Next(x: bv32): bv32 { x + 1 }

  lemma SmearOneBit(x: bv32)
    requires Less(x, 0x4000_0000)
    ensures Less(x, Next(Smear(x))) && !Less(0x4000_0000, Next(Smear(x))) && OneBit(Next(Smear(x)))
  {
  }

  lemma SmearLeast(x: bv32, q: bv32)
    requires Less(x, 0x4000_0000) && OneBit(q) && Less(x, q)
    ensures !Less(q, Next(Smear(x)))
  {
  }

  lemma OneBitHalf(p: bv32)
    requires OneBit(p) && p != 1
    ensures OneBit(Half(p)) && !Odd(p) && Half(p) < p
  {
  }

  lemma OneBitDouble(w: bv32)
    requires OneBit(w) && Less(w, 0x8000_0000)
    ensures OneBit(Double(w, false))
  {
  }

  lemma {:induction false} OneBitPower(p: bv32)
    requires OneBit(p)
    ensures Power(Value(p))
    decreases p
  {
    hide OneBit, Half, Odd, Value;
    if p == 1 {
      ValueOne();
    } else {
      OneBitHalf(p);
      OneBitPower(Half(p));
      PowerPositive(Value(Half(p)));
      ValueHalf(p);
    }
  }

  lemma PowerPositive(n: nat)
    requires Power(n)
    ensures n > 0
  {
  }

  lemma ValueOne()
    ensures Value(1) == 1
  {
  }

  lemma {:induction false} PowerOneBit(q: nat)
    requires Power(q) && q < 0x1_0000_0000
    ensures OneBit(Word(q))
    decreases q
  {
    if q > 1 {
      PowerOneBit(q / 2);
      hide OneBit, Double, Value, Less;
      WordValue(q / 2);
      TopBits();
      ValueLess(Word(q / 2), 0x8000_0000);
      OneBitDouble(Word(q / 2));
    } else {
      assert Word(1) == 1 by {
        assert Word(0) == 0;
      }
    }
  }

  /** For every request an int can double, the new size is the least power of two that is not below it. */
  method Pow2gt(needed: nat) returns (size: nat)
    requires 1 <= needed <= LIMIT
    ensures Power(size) && needed <= size <= LIMIT
    ensures forall q: nat | Power(q) && needed <= q :: size <= q
  {
    var x := Word(needed - 1);
    size := Value(Next(Smear(x)));
    hide Value, Word, Smear, OneBit, Power, Next;
    SizeFits(needed);
    forall q: nat | Power(q) && needed <= q ensures size <= q {
      SizeIsLeast(needed, q);
    }
  }

  lemma SizeFits(needed: nat)
    requires 1 <= needed <= LIMIT
    ensures var size := Value(Next(Smear(Word(needed - 1)))); Power(size) && needed <= size <= LIMIT
  {
    var x := Word(needed - 1);
    var p := Next(Smear(x));
    hide Value, Word, Smear, OneBit, Power, Less, Next;
    WordValue(needed - 1);
    TopBits();
    ValueLess(x, 0x4000_0000);
    SmearOneBit(x);
    ValueLess(x, p);
    ValueLess(0x4000_0000, p);
    OneBitPower(p);
  }

  lemma SizeIsLeast(needed: nat, q: nat)
    requires 1 <= needed <= LIMIT && Power(q) && needed <= q
    ensures Value(Next(Smear(Word(needed - 1)))) <= q
  {
    var x := Word(needed - 1);
    hide Value, Word, Smear, OneBit, Power, Less, Next;
    if q < LIMIT {
      var w := Word(q);
      WordValue(q);
      WordValue(needed - 1);
      PowerOneBit(q);
      TopBits();
      ValueLess(x, 0x4000_0000);
      ValueLess(x, w);
      SmearLeast(x, w);
      ValueLess(w, Next(Smear(x)));
    } else {
      SizeFits(needed);
    }
  }
}
