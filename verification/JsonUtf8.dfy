/** The bit operations of parse_hex4 and of the UTF-8 switch in parse_string, on 32-bit words. */
module JsonUtf8 {
  import opened CText
  import opened JsonString
  import opened PowerOfTwo
  import opened WordMask

  // ---- Words that share no bit ------------------------------------------------------------------

  function Or(x: bv32, y: bv32): bv32 { x | y }

  lemma OrParts(x: bv32, y: bv32)
    requires And(x, y) == 0
    ensures And(Or(x, y), x) == x && WordMask.Without(Or(x, y), x) == y
  {
  }

  lemma OrAdds(x: bv32, y: bv32)
    requires And(x, y) == 0
    ensures Value(Or(x, y)) == Value(x) + Value(y)
  {
    hide Value, And, Or, WordMask.Without;
    OrParts(x, y);
    MaskSplits(Or(x, y), x);
  }

  // ---- Shifts -----------------------------------------------------------------------------------

  function Left4(x: bv32): bv32 { x << 4 }

  function Right6(x: bv32): bv32 { x >> 6 }

  function Right4(x: bv32): bv32 { x >> 4 }

  lemma Left4Back(x: bv32)
    requires Less(x, 0x1000_0000)
    ensures And(Left4(x), 15) == 0 && Right4(Left4(x)) == x
  {
  }

  lemma Right4Means(x: bv32)
    requires And(x, 15) == 0
    ensures Value(x) == 16 * Value(Right4(x))
  {
    hide Value;
    FourZeros(x);
  }

  lemma Left4Means(x: bv32)
    requires Less(x, 0x1000_0000)
    ensures Value(Left4(x)) == 16 * Value(x) && And(Left4(x), 15) == 0
  {
    hide Value, Left4, Right4, And, Less;
    Left4Back(x);
    Right4Means(Left4(x));
  }

  lemma SixHalves(x: bv32)
    ensures Right6(x) == Half(Half(Half(Half(Half(Half(x))))))
  {
  }

  lemma Right6Means(x: bv32)
    ensures Value(Right6(x)) == Value(x) / 64
  {
    hide Value, Half, Odd, Right6;
    SixHalves(x);
    ValueHalf(x);
    ValueHalf(Half(x));
    ValueHalf(Half(Half(x)));
    ValueHalf(Half(Half(Half(x))));
    ValueHalf(Half(Half(Half(Half(x)))));
    ValueHalf(Half(Half(Half(Half(Half(x))))));
  }

  // ---- parse_hex4 -------------------------------------------------------------------------------

  function Plus(x: bv32, y: bv32): bv32 { x + y }

  lemma NibbleFree(h: bv32, d: bv32)
    requires And(h, 15) == 0 && Less(d, 16)
    ensures Plus(h, d) == Or(h, d) && And(h, d) == 0
  {
    assert h + d == Or(h, d) && And(h, d) == 0;
  }

  /** h += d, for a digit d and an h whose lowest four bits are clear. */
  lemma AddNibble(h: bv32, d: nat)
    requires And(h, 15) == 0 && d < 16
    ensures Value(Plus(h, Word(d))) == Value(h) + d
  {
    hide Value, Plus, Or, And, Less, Word;
    Constants();
    WordValue(d);
    ValueLess(Word(d), 16);
    NibbleFree(h, Word(d));
    OrAdds(h, Word(d));
  }

  /** The numbers that the code compares with. */
  lemma Constants()
    ensures Value(0) == 0 && Value(16) == 16 && Value(64) == 64 && Value(0x80) == 0x80 && Value(0xC0) == 0xC0
    ensures Value(0xE0) == 0xE0 && Value(0xF0) == 0xF0
  {
  }

  /** What one line of parse_hex4 adds to h. */
  method AddDigit(h: bv32, c: Byte) returns (ok: bool, r: bv32)
    requires And(h, 15) == 0
    ensures ok <==> HexValue(c) >= 0
    ensures ok ==> Value(r) == Value(h) + HexValue(c)
  {
    hide Value, Plus, And, Word;
    ok, r := true, h;
    if ZERO <= c <= NINE {
      AddNibble(h, c - ZERO);
      r := Plus(h, Word(c - ZERO));
    } else if 65 <= c <= 70 {
      AddNibble(h, 10 + c - 65);
      r := Plus(h, Word(10 + c - 65));
    } else if 97 <= c <= 102 {
      AddNibble(h, 10 + c - 97);
      r := Plus(h, Word(10 + c - 97));
    } else {
      ok := false;
    }
  }

  /** h <<= 4, and the next digit. */
  method NextDigit(h: bv32, c: Byte) returns (ok: bool, r: bv32)
    requires Value(h) < 0x1000
    ensures ok <==> HexValue(c) >= 0
    ensures ok ==> Value(r) == 16 * Value(h) + HexValue(c)
  {
    hide Value, And, Less, Left4;
    Constants();
    Small(h);
    Left4Means(h);
    ok, r := AddDigit(Left4(h), c);
  }

  lemma Small(h: bv32)
    requires Value(h) < 0x1000
    ensures Less(h, 0x1000_0000)
  {
    hide Value, Less;
    ValueOne();
    TopBitsFrom(1);
    assert 1 as bv32 << 28 == 0x1000_0000;
    ValueLess(h, 0x1000_0000);
  }

  method ParseHex(t: Text, i: nat) returns (h: bv32)
    ensures Value(h) == ParseHex4(t, i)
  {
    hide Value, HexValue;
    Constants();
    var ok;
    ok, h := AddDigit(0, At(t, i));
    if !ok { return 0; }
    ok, h := NextDigit(h, At(t, i + 1));
    if !ok { return 0; }
    ok, h := NextDigit(h, At(t, i + 2));
    if !ok { return 0; }
    ok, h := NextDigit(h, At(t, i + 3));
    if !ok { return 0; }
  }

  // ---- The numbers of surrogates ------------------------------------------------------------------

  lemma Append(x: bv32, d: bv32)
    requires Less(x, 0x1000_0000) && Less(d, 16)
    ensures Value(Plus(Left4(x), d)) == 16 * Value(x) + Value(d)
  {
    hide Value, Plus, Or, And, Less, Left4;
    Left4Means(x);
    NibbleFree(Left4(x), d);
    OrAdds(Left4(x), d);
  }

  lemma Bytes()
    ensures Value(15) == 15 && Value(0xD8) == 0xD8 && Value(0xDB) == 0xDB && Value(0xDC) == 0xDC && Value(0xDF) == 0xDF
  {
  }

  lemma Digits()
    ensures Left4(0x80) == 0x800 && Left4(0x800) == 0x8000
    ensures Left4(0xD8) == 0xD80 && Left4(0xD80) == 0xD800 && Left4(0xDC) == 0xDC0 && Left4(0xDC0) == 0xDC00
    ensures Plus(Left4(0xDB), 15) == 0xDBF && Plus(Left4(0xDBF), 15) == 0xDBFF
    ensures Plus(Left4(0xDF), 15) == 0xDFF && Plus(Left4(0xDFF), 15) == 0xDFFF
    ensures Left4(0x10) == 0x100 && Left4(0x100) == 0x1000 && Left4(0x1000) == 0x1_0000
  {
  }

  lemma Limits()
    ensures Value(0x800) == 0x800 && Value(0x1_0000) == 0x1_0000
    ensures Value(0xD800) == 0xD800 && Value(0xDBFF) == 0xDBFF && Value(0xDC00) == 0xDC00 && Value(0xDFFF) == 0xDFFF
  {
    Digits();
    Constants();
    Bytes();
    hide Value, Left4, Plus;
    Left4Means(0x80);
    Left4Means(0x10);
    Left4Means(0x100);
    Left4Means(0x1000);
    Left4Means(0xD8);
    Left4Means(0xD80);
    Left4Means(0xDC);
    Left4Means(0xDC0);
    Append(0xDB, 15);
    Append(0xDBF, 15);
    Append(0xDF, 15);
    Append(0xDFF, 15);
  }

  // ---- UTF-8 ----------------------------------------------------------------------------------------

  /** What an assignment to a char keeps of a word. */
  function LowByte(w: bv32): (b: Byte) {
    ByteBound(w);
    Value(And(w, 0xFF))
  }

  lemma ByteBound(w: bv32)
    ensures Value(And(w, 0xFF)) < 256
  {
    assert Value(0xFF) == 255;
    hide Value, And;
    MaskSplits(w, 0xFF);
  }

  lemma LowByteOf(w: bv32)
    requires Value(w) < 256
    ensures LowByte(w) == Value(w)
  {
    assert Value(0x100) == 256 by { Constants(); Digits(); Left4Means(0x10); }
    hide Value, And;
    ValueLess(w, 0x100);
    AllKept(w);
  }

  lemma AllKept(w: bv32)
    requires Less(w, 0x100)
    ensures And(w, 0xFF) == w
  {
  }

  /** ((uc | 0x80) & 0xBF) */
  function TailByte(uc: bv32): bv32 { And(Or(uc, 0x80), 0xBF) }

  lemma TailShape(uc: bv32)
    ensures TailByte(uc) == Or(LowBits(uc, 64), 0x80) && And(LowBits(uc, 64), 0x80) == 0 && OneBit(64)
  {
  }

  lemma TailMeans(uc: bv32)
    ensures LowByte(TailByte(uc)) == 0x80 + Value(uc) % 64
  {
    TailShape(uc);
    Constants();
    hide Value, And, Or, TailByte, LowBits, OneBit, LowByte;
    MaskIsRemainder(uc, 64);
    OrAdds(LowBits(uc, 64), 0x80);
    LowByteOf(TailByte(uc));
  }

  /** firstByteMark */
  function FirstByteMark(len: nat): bv32
    requires 1 <= len <= 4
  {
    if len == 1 then 0x00 else if len == 2 then 0xC0 else if len == 3 then 0xE0 else 0xF0
  }

  lemma HeadFree(uc: bv32)
    ensures And(uc, 0) == 0
    ensures Less(uc, 32) ==> And(uc, 0xC0) == 0
    ensures Less(uc, 16) ==> And(uc, 0xE0) == 0
    ensures Less(uc, 8) ==> And(uc, 0xF0) == 0
  {
  }

  /** The bound on what is left of uc for the first of len bytes. */
  function HeadBound(len: nat): nat
    requires 1 <= len <= 4
  {
    if len == 1 then 0x80 else if len == 2 then 32 else if len == 3 then 16 else 8
  }

  lemma HeadMeans(uc: bv32, len: nat)
    requires 1 <= len <= 4 && Value(uc) < HeadBound(len)
    ensures LowByte(Or(uc, FirstByteMark(len))) == Value(FirstByteMark(len)) + Value(uc)
    ensures Value(FirstByteMark(len)) ==
      if len == 1 then 0 else if len == 2 then 0xC0 else if len == 3 then 0xE0 else 0xF0
  {
    Constants();
    Heads();
    hide Value, And, Or, LowByte, Less;
    HeadFree(uc);
    ValueLess(uc, 32);
    ValueLess(uc, 16);
    ValueLess(uc, 8);
    OrAdds(uc, FirstByteMark(len));
    LowByteOf(Or(uc, FirstByteMark(len)));
  }

  lemma Heads()
    ensures Value(8) == 8 && Value(32) == 32
  {
  }

  // ---- Adding 0x10000 -----------------------------------------------------------------------------------

  function Right16(x: bv32): bv32 { x >> 16 }

  lemma Right16Shape(x: bv32)
    ensures Right16(x) == Right4(Right4(Right4(Right4(x))))
    ensures Right4(x) == Half(Half(Half(Half(x))))
  {
  }

  lemma Right4Means4(x: bv32)
    ensures Value(Right4(x)) == Value(x) / 16
  {
    hide Value, Half, Odd, Right4;
    Right16Shape(x);
    ValueHalf(x);
    ValueHalf(Half(x));
    ValueHalf(Half(Half(x)));
    ValueHalf(Half(Half(Half(x))));
  }

  lemma Right16Means(x: bv32)
    ensures Value(Right16(x)) == Value(x) / 0x1_0000
  {
    hide Value, Half, Right4, Right16;
    Right16Shape(x);
    Right4Means4(x);
    Right4Means4(Right4(x));
    Right4Means4(Right4(Right4(x)));
    Right4Means4(Right4(Right4(Right4(x))));
  }

  /** 0x10000 + x */
  function AboveBmp(x: bv32): bv32 { 0x1_0000 + x }

  lemma AboveBmpHigh(x: bv32)
    requires Less(x, 0x10_0000)
    ensures Right16(AboveBmp(x)) == Right16(x) + 1 && Less(Right16(x), 16)
  {
  }

  lemma AboveBmpLow(x: bv32)
    ensures LowBits(AboveBmp(x), 0x1_0000) == LowBits(x, 0x1_0000) && OneBit(0x1_0000)
  {
  }

  lemma PredOf(x: bv32)
    requires Less(x, 16)
    ensures Pred(x + 1) == x && x + 1 != 0
  {
  }

  lemma AboveBmpMeans(x: bv32)
    requires Less(x, 0x10_0000)
    ensures Value(AboveBmp(x)) == Value(x) + 0x1_0000
  {
    Limits();
    hide Value, LowBits, OneBit, Less, Right16, AboveBmp, Pred;
    AboveBmpHigh(x);
    AboveBmpLow(x);
    PredOf(Right16(x));
    ValuePred(Right16(AboveBmp(x)));
    Right16Means(x);
    Right16Means(AboveBmp(x));
    MaskIsRemainder(x, 0x1_0000);
    MaskIsRemainder(AboveBmp(x), 0x1_0000);
  }

  // ---- Surrogate pairs --------------------------------------------------------------------------------

  function Left10(x: bv32): bv32 { x << 10 }

  function Left2(x: bv32): bv32 { x << 2 }

  lemma Left2Shape(x: bv32)
    requires Less(x, 0x4000_0000)
    ensures Half(Half(Left2(x))) == x && !Odd(Left2(x)) && !Odd(Half(Left2(x)))
  {
  }

  lemma Left10Shape(x: bv32)
    requires Less(x, 0x400)
    ensures Left10(x) == Left2(Left4(Left4(x))) && Less(x, 0x1000_0000) && Less(Left4(x), 0x1000_0000)
    ensures Less(Left4(Left4(x)), 0x4000_0000) && Less(Left10(x), 0x10_0000)
  {
  }

  lemma Left10Means(x: bv32)
    requires Less(x, 0x400)
    ensures Value(Left10(x)) == 1024 * Value(x)
  {
    hide Value, Left10, Left4, Left2, Half, Odd, Less;
    Left10Shape(x);
    Left4Means(x);
    Left4Means(Left4(x));
    Left2Shape(Left4(Left4(x)));
    ValueHalf(Left10(x));
    ValueHalf(Half(Left10(x)));
  }

  /** 0x10000 + (((uc & 0x3FF) << 10) | (uc2 & 0x3FF)) */
  function PairWord(uc: bv32, uc2: bv32): bv32 {
    AboveBmp(Or(Left10(And(uc, 0x3FF)), And(uc2, 0x3FF)))
  }

  lemma PairShape(uc: bv32, uc2: bv32)
    ensures And(uc, 0x3FF) == LowBits(uc, 0x400) && OneBit(0x400) && Less(And(uc, 0x3FF), 0x400)
    ensures And(Left10(And(uc, 0x3FF)), And(uc2, 0x3FF)) == 0
    ensures Less(Or(Left10(And(uc, 0x3FF)), And(uc2, 0x3FF)), 0x10_0000)
  {
  }

  lemma PairMeans(uc: bv32, uc2: bv32)
    requires IsHigh(Value(uc)) && IsLow(Value(uc2))
    ensures Value(PairWord(uc, uc2)) == Pair(Value(uc), Value(uc2))
  {
    Limits();
    Kibi();
    hide Value, And, Or, Left10, AboveBmp, LowBits, OneBit, Less;
    PairShape(uc, uc2);
    PairShape(uc2, uc2);
    MaskIsRemainder(uc, 0x400);
    MaskIsRemainder(uc2, 0x400);
    Left10Means(And(uc, 0x3FF));
    OrAdds(Left10(And(uc, 0x3FF)), And(uc2, 0x3FF));
    AboveBmpMeans(Or(Left10(And(uc, 0x3FF)), And(uc2, 0x3FF)));
  }

  lemma Kibi()
    ensures Value(0x400) == 0x400
  {
    Constants();
    assert Left4(0x40) == 0x400;
    hide Value, Left4;
    Left4Means(0x40);
  }

  // ---- The code ---------------------------------------------------------------------------------------

  /** The switch that writes the len bytes of a character from the last to the first, and the steps around
      it. */
  method StoreUtf8(uc: bv32, out: array<Byte>, p: nat) returns (q: nat)
    requires Value(uc) < 0x11_0000 && p + |Utf8(Value(uc))| <= out.Length
    modifies out
    ensures q == p + |Utf8(Value(uc))| && out[p..q] == Utf8(Value(uc))
    ensures forall k | 0 <= k < out.Length && !(p <= k < q) :: out[k] == old(out[k])
  {
    hide Value, LowByte, TailByte, Right6, Or, FirstByteMark, Less, Utf8;
    Utf8Length(Value(uc));
    Limits();
    Constants();
    ValueLess(uc, 0x80);
    ValueLess(uc, 0x800);
    ValueLess(uc, 0x1_0000);
    var len := 4;
    if Less(uc, 0x80) {
      len := 1;
    } else if Less(uc, 0x800) {
      len := 2;
    } else if Less(uc, 0x1_0000) {
      len := 3;
    }
    var w, ptr2 := uc, p + len;
    if len >= 4 {
      w, ptr2 := StoreTail(w, out, ptr2);
    }
    if len >= 3 {
      w, ptr2 := StoreTail(w, out, ptr2);
    }
    if len >= 2 {
      w, ptr2 := StoreTail(w, out, ptr2);
    }
    HeadMeans(w, len);
    ptr2 := ptr2 - 1;
    out[ptr2] := LowByte(Or(w, FirstByteMark(len)));
    q := ptr2 + len;
    Utf8Bytes(Value(uc), out[p..q]);
  }

  /** The number of bytes of a character. */
  lemma Utf8Length(v: nat)
    requires v < 0x11_0000
    ensures |Utf8(v)| == if v < 0x80 then 1 else if v < 0x800 then 2 else if v < 0x1_0000 then 3 else 4
  {
  }

  /** The bytes of a character, counted from its last one. */
  lemma Utf8Bytes(v: nat, b: Text)
    requires v < 0x11_0000 && |b| == |Utf8(v)|
    requires var n := |b|;
      && (n > 1 ==> b[n - 1] == 0x80 + v % 64)
      && (n > 2 ==> b[n - 2] == 0x80 + v / 64 % 64)
      && (n > 3 ==> b[n - 3] == 0x80 + v / 64 / 64 % 64)
      && b[0] == if n == 1 then v else if n == 2 then 0xC0 + v / 64 else if n == 3 then 0xE0 + v / 64 / 64
                 else 0xF0 + v / 64 / 64 / 64
    ensures b == Utf8(v)
  {
  }

  /** One case of the switch: a byte in front, and six bits less. */
  method StoreTail(uc: bv32, out: array<Byte>, p: nat) returns (w: bv32, q: nat)
    requires 0 < p <= out.Length
    modifies out
    ensures q == p - 1 && Value(w) == Value(uc) / 64 && out[q] == 0x80 + Value(uc) % 64
    ensures forall k | 0 <= k < out.Length && k != q :: out[k] == old(out[k])
  {
    hide Value, LowByte, TailByte, Right6;
    TailMeans(uc);
    Right6Means(uc);
    q := p - 1;
    out[q] := LowByte(TailByte(uc));
    w := Right6(uc);
  }

  /** The tests for low and high surrogates, and for no character at all. */
  predicate LowWord(uc: bv32) { !Less(uc, 0xDC00) && !Less(0xDFFF, uc) }

  predicate HighWord(uc: bv32) { !Less(uc, 0xD800) && !Less(0xDBFF, uc) }

  lemma WordTests(uc: bv32)
    ensures LowWord(uc) <==> IsLow(Value(uc))
    ensures HighWord(uc) <==> IsHigh(Value(uc))
    ensures uc == 0 <==> Value(uc) == 0
  {
    Limits();
    NotZero(uc);
    ValueZero();
    hide Value, Less;
    ValueLess(uc, 0xDC00);
    ValueLess(0xDFFF, uc);
    ValueLess(uc, 0xD800);
    ValueLess(0xDBFF, uc);
  }

  lemma NotZero(a: bv32)
    ensures a != 0 ==> Value(a) > 0
  {
  }

  /** The case of \u in parse_string; i is the index of the u. */
  method CopyUnicode(t: Text, i: nat, out: array<Byte>, len: nat) returns (next: nat, end: nat)
    requires len + |UnescapeU(t, i).0| <= out.Length
    modifies out
    ensures next == len + |UnescapeU(t, i).0| && end == UnescapeU(t, i).1
    ensures out[len..next] == UnescapeU(t, i).0
    ensures forall k | 0 <= k < out.Length && !(len <= k < next) :: out[k] == old(out[k])
  {
    hide Value, LowWord, HighWord, ParseHex4, Utf8, PairWord, Pair;
    next := len;
    var uc := ParseHex(t, i + 1);
    WordTests(uc);
    if LowWord(uc) || uc == 0 {
      end := i + 5;
    } else if HighWord(uc) {
      if At(t, i + 5) != BACKSLASH || At(t, i + 6) != LOWER_U {
        end := i + 5;
      } else {
        var uc2 := ParseHex(t, i + 7);
        WordTests(uc2);
        end := i + 11;
        if LowWord(uc2) {
          PairMeans(uc, uc2);
          next := StoreUtf8(PairWord(uc, uc2), out, len);
        }
      }
    } else {
      next := StoreUtf8(uc, out, len);
      end := i + 5;
    }
  }
}
