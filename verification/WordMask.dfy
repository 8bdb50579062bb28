/** Masking a 32-bit word with a power of two minus one. */
module WordMask {
  import opened PowerOfTwo
  import Modulo

  /** x & (a - 1) */
  function LowBits(x: bv32, a: bv32): bv32 { x & (a - 1) }

  /** x & ~(a - 1) */
  function HighBits(x: bv32, a: bv32): bv32 { x & !(a - 1) }

  lemma HalfLow(x: bv32, a: bv32)
    requires OneBit(a) && a != 1
    ensures Half(LowBits(x, a)) == LowBits(Half(x), Half(a)) && (Odd(LowBits(x, a)) <==> Odd(x))
  {
  }

  lemma HalfHigh(x: bv32, a: bv32)
    requires OneBit(a) && a != 1
    ensures Half(HighBits(x, a)) == HighBits(Half(x), Half(a)) && !Odd(HighBits(x, a))
  {
  }

  lemma MaskOne(x: bv32)
    ensures LowBits(x, 1) == 0 && HighBits(x, 1) == x && Value(0) == 0
  {
  }

  lemma DoubleMod(u: nat, v: nat, b: nat)
    requires v > 0 && b <= 1
    ensures (2 * u + b) % (2 * v) == 2 * (u % v) + b
  {
    var q := u / v;
    assert u == v * q + u % v;
    assert (2 * v) * q == 2 * (v * q);
    Modulo.Unique(2 * u + b, 2 * v, q, 2 * (u % v) + b);
  }

  /** The low bits are the remainder, the high bits the rest. */
  lemma {:induction false} MaskIsRemainder(x: bv32, a: bv32)
    requires OneBit(a)
    ensures Value(a) > 0 && Value(LowBits(x, a)) == Value(x) % Value(a)
    ensures Value(HighBits(x, a)) == Value(x) - Value(x) % Value(a)
    decreases a
  {
    hide OneBit, Half, Odd, Value, LowBits, HighBits;
    if a == 1 {
      MaskOne(x);
      ValueOne();
    } else {
      OneBitHalf(a);
      HalfLow(x, a);
      HalfHigh(x, a);
      MaskIsRemainder(Half(x), Half(a));
      ValueHalf(x);
      ValueHalf(a);
      ValueHalf(LowBits(x, a));
      ValueHalf(HighBits(x, a));
      DoubleMod(Value(Half(x)), Value(Half(a)), Low(x));
    }
  }

  /** x & (a - 1) and x & ~(a - 1) on numbers below 2^32. */
  function Mask(x: nat, a: nat): nat { Value(LowBits(Word(x), Word(a))) }

  function Clear(x: nat, a: nat): nat { Value(HighBits(Word(x), Word(a))) }

  lemma MaskMeans(x: nat, a: nat)
    requires Power(a) && x < 0x1_0000_0000 && a < 0x1_0000_0000
    ensures a > 0 && Mask(x, a) == x % a && Clear(x, a) == x - x % a
  {
    hide OneBit, Value, LowBits, HighBits, Word;
    PowerOneBit(a);
    WordValue(x);
    WordValue(a);
    MaskIsRemainder(Word(x), Word(a));
  }

  // ---- Masks that need not be a power of two minus one ---------------------------------------

  function And(x: bv32, m: bv32): bv32 { x & m }

  function Without(x: bv32, m: bv32): bv32 { x & !m }

  function Pred(x: bv32): bv32 { x - 1 }

  lemma HalfAnd(x: bv32, m: bv32)
    ensures Half(And(x, m)) == And(Half(x), Half(m)) && (Odd(And(x, m)) <==> Odd(x) && Odd(m))
    ensures And(0, m) == 0
  {
  }

  lemma HalfWithout(x: bv32, m: bv32)
    ensures Half(Without(x, m)) == Without(Half(x), Half(m)) && (Odd(Without(x, m)) <==> Odd(x) && !Odd(m))
    ensures Without(0, m) == 0
  {
  }

  /** A mask splits a number into two, and takes no more than its own value. */
  lemma {:induction false} MaskSplits(x: bv32, m: bv32)
    ensures Value(And(x, m)) + Value(Without(x, m)) == Value(x) && Value(And(x, m)) <= Value(m)
    decreases x
  {
    hide And, Without, Half, Odd, Value;
    HalfAnd(x, m);
    HalfWithout(x, m);
    if x == 0 {
      ValueZero();
    } else {
      Shrinks(x);
      MaskSplits(Half(x), Half(m));
      ValueHalf(x);
      ValueHalf(m);
      ValueHalf(And(x, m));
      ValueHalf(Without(x, m));
    }
  }

  lemma ValueZero()
    ensures Value(0) == 0
  {
  }

  lemma HalfPred(x: bv32)
    requires x != 0
    ensures Odd(x) ==> Half(Pred(x)) == Half(x) && !Odd(Pred(x))
    ensures !Odd(x) ==> Half(x) != 0 && Half(Pred(x)) == Pred(Half(x)) && Odd(Pred(x))
  {
  }

  lemma {:induction false} ValuePred(x: bv32)
    requires x != 0
    ensures Value(Pred(x)) == Value(x) - 1
    decreases x
  {
    hide Pred, Half, Odd, Value;
    HalfPred(x);
    Shrinks(x);
    ValueHalf(x);
    ValueHalf(Pred(x));
    if !Odd(x) {
      ValuePred(Half(x));
    }
  }

  /** Different words stand for different numbers. */
  lemma SameValue(x: bv32, y: bv32)
    requires Value(x) == Value(y)
    ensures x == y
  {
    hide Value, Less;
    Compare(x, y);
    ValueLess(x, y);
    ValueLess(y, x);
  }

  lemma WordOfValue(x: bv32)
    ensures Value(x) < 0x1_0000_0000 && Word(Value(x)) == x
  {
    hide Pred, Value, Word, Less;
    BelowTop(x);
    WordValue(Value(x));
    SameValue(Word(Value(x)), x);
  }

  lemma BelowTop(x: bv32)
    ensures Value(x) < 0x1_0000_0000
  {
    hide Value, Less, Half, Odd;
    ValueHalf(x);
    TopBits();
    HalfBelow(x);
    ValueLess(Half(x), 0x8000_0000);
  }

  lemma HalfBelow(x: bv32)
    ensures Less(Half(x), 0x8000_0000)
  {
  }

  lemma WordFour()
    ensures Word(4) == 4
  {
    assert Value(4) == 4 by {
      ValueHalf(4);
      ValueHalf(2);
      ValueOne();
    }
    hide Pred, Value, Word;
    WordOfValue(4);
  }

  /** The lowest two bits tell the multiples of four. */
  lemma Quad(n: nat)
    requires n < 0x1_0000_0000
    ensures n % 4 == 0 <==> And(Word(n), 3) == 0
  {
    hide Pred, Value, Word;
    WordFour();
    assert Power(4) by { assert Power(2) by { assert Power(1); } }
    MaskMeans(n, 4);
    ValueZero();
    if n % 4 == 0 {
      SameValue(LowBits(Word(n), 4), 0);
    }
  }

  lemma PredQuad(a: bv32)
    requires And(a, 3) == 0
    ensures And(Pred(a), 3) == 3
  {
  }

  lemma WithoutQuad(y: bv32, m: bv32)
    requires And(m, 3) == 3
    ensures And(Without(y, m), 3) == 0
  {
  }

  lemma WithoutTwice(y: bv32, m: bv32)
    ensures And(Without(y, m), m) == 0
  {
  }

  /** Clearing the bits of m in x + m goes up from an x that has one of them. */
  lemma RaisesWord(x: nat, y: bv32, m: bv32)
    requires x < 0x1_0000_0000 && Value(y) == x + Value(m) && And(m, 3) == 3 && x % 4 == 0
    requires And(Word(x), m) != 0
    ensures x + 4 <= Value(Without(y, m)) <= x + Value(m) && Value(Without(y, m)) % 4 == 0
  {
    hide Pred, Value, Word, And, Without;
    var up := Without(y, m);
    MaskSplits(y, m);
    WordOfValue(up);
    Quad(Value(up));
    WithoutQuad(y, m);
    if Value(up) == x {
      WithoutTwice(y, m);
    }
  }

  /** Adding a - 1 and clearing the bits of a - 1, as for an alignment, whether a is a power of two or not. */
  lemma ClearRaises(x: nat, a: nat)
    requires 0 < a < 0x1_0000_0000 && a % 4 == 0 && x % 4 == 0 && x + a <= 0x1_0000_0000 && Mask(x, a) != 0
    ensures x + 4 <= Clear(x + (a - 1), a) < x + a && Clear(x + (a - 1), a) % 4 == 0
  {
    hide Pred, Value, Word, And, Without, Mask, Clear;
    WordValue(x + (a - 1));
    PredValue(a);
    Quad(a);
    PredQuad(Word(a));
    AsClear(x + (a - 1), a);
    AsMask(x, a);
    ValueZero();
    RaisesWord(x, Word(x + (a - 1)), Pred(Word(a)));
  }

  lemma AsClear(x: nat, a: nat)
    ensures Clear(x, a) == Value(Without(Word(x), Pred(Word(a))))
  {
    hide Pred, Value, Word, Without, HighBits, And, LowBits;
    SameBits(Word(x), Word(a));
  }

  lemma AsMask(x: nat, a: nat)
    ensures Mask(x, a) == Value(And(Word(x), Pred(Word(a))))
  {
    hide Pred, Value, Word, Without, HighBits, And, LowBits;
    SameBits(Word(x), Word(a));
  }

  lemma SameBits(x: bv32, a: bv32)
    ensures HighBits(x, a) == Without(x, Pred(a)) && LowBits(x, a) == And(x, Pred(a))
  {
  }

  lemma PredValue(a: nat)
    requires 0 < a < 0x1_0000_0000
    ensures Word(a) != 0 && Value(Pred(Word(a))) == a - 1
  {
    hide Pred, Value, Word;
    WordValue(a);
    ValueZero();
    ValuePred(Word(a));
  }

  lemma WithoutKeepsQuad(a: bv32, m: bv32)
    requires And(a, 3) == 0
    ensures And(Without(a, m), 3) == 0
  {
  }

  lemma WithoutLess(a: bv32, m: bv32)
    requires And(a, m) != 0
    ensures Less(Without(a, m), a)
  {
  }

  lemma SomeBit(a: bv32)
    requires a != 0
    ensures Without(a, Pred(a)) != 0
    ensures And(a, Pred(a)) == 0 ==> OneBit(a)
  {
  }

  /** The lowest bit of a word. */
  lemma LowestBit(a: bv32)
    requires a != 0 && !OneBit(a) && And(a, 3) == 0
    ensures var p := Without(a, Pred(a)); p != 0 && And(p, Pred(a)) == 0 && Less(p, a) && And(p, 3) == 0
  {
    hide OneBit, And, Without, Pred, Less;
    SomeBit(a);
    WithoutTwice(a, Pred(a));
    WithoutLess(a, Pred(a));
    WithoutKeepsQuad(a, Pred(a));
  }

  /** When a is no power of two, some number below a has no bit in common with a - 1. */
  lemma UnevenMask(a: nat) returns (p: nat)
    requires 0 < a < 0x1_0000_0000 && a % 4 == 0 && !Power(a)
    ensures 0 < p < a && p % 4 == 0 && Mask(p, a) == 0
  {
    var w := Word(a);
    hide Pred, Value, Word, And, Without, OneBit, Power, Less;
    WordValue(a);
    PredValue(a);
    Quad(a);
    if OneBit(w) {
      OneBitPower(w);
    }
    LowestBit(w);
    var bit := Without(w, Pred(w));
    p := Value(bit);
    WordOfValue(bit);
    ValueLess(bit, w);
    ValueZero();
    if p == 0 {
      SameValue(bit, 0);
    }
    Quad(p);
    AsMask(p, a);
  }

  /** With a mask of all ones, a = 0, everything is kept or cleared. */
  lemma MaskByZero(x: nat)
    requires x < 0x1_0000_0000
    ensures Mask(x, 0) == x && Clear(x, 0) == 0
  {
    hide Value, LowBits, HighBits;
    WordValue(x);
    AllOnes(Word(x));
    ValueZero();
  }

  lemma AllOnes(x: bv32)
    ensures LowBits(x, 0) == x && HighBits(x, 0) == 0
  {
  }
}
