/** C strings: bytes up to a terminating zero. */
module CText {
  type Byte = b: int | 0 <= b < 256
  type Text = seq<Byte>

  const TAB: Byte := 9
  const NEWLINE: Byte := 10
  const RETURN: Byte := 13
  const SPACE: Byte := 32
  const QUOTE: Byte := 34
  const PLUS: Byte := 43
  const COMMA: Byte := 44
  const MINUS: Byte := 45
  const DOT: Byte := 46
  const SLASH: Byte := 47
  const STAR: Byte := 42
  const ZERO: Byte := 48
  const NINE: Byte := 57
  const COLON: Byte := 58
  const BACKSLASH: Byte := 92
  const OPEN_LIST: Byte := 91
  const CLOSE_LIST: Byte := 93
  const OPEN_OBJECT: Byte := 123
  const CLOSE_OBJECT: Byte := 125
  const LOWER_U: Byte := 117

  ghost predicate NoZero(t: Text) {
    forall i | 0 <= i < |t| :: t[i] != 0
  }

  /** What reading the string at an index yields; the terminator follows the last byte. */
  function At(t: Text, i: int): Byte {
    if 0 <= i < |t| then t[i] else 0
  }

  predicate IsAscii(s: string) {
    forall k | 0 <= k < |s| :: s[k] as int < 128
  }

  /** The bytes of a string of ASCII characters. */
  function Ascii(s: string): (x: Text)
    requires IsAscii(s)
    ensures |x| == |s| && forall k | 0 <= k < |s| :: x[k] == s[k] as int
  {
    seq(|s|, k requires 0 <= k < |s| => s[k] as int)
  }

  /** The string reads x from index i on. */
  predicate Has(t: Text, i: nat, x: Text) {
    i + |x| <= |t| && t[i..i + |x|] == x
  }

  lemma HasWhole(t: Text)
    ensures Has(t, 0, t)
  {
    assert t[0..|t|] == t;
  }

  lemma HasSplit(t: Text, i: nat, x: Text, y: Text)
    ensures Has(t, i, x + y) <==> Has(t, i, x) && Has(t, i + |x|, y)
  {
    if i + |x| + |y| <= |t| {
      var a, b := t[i..i + |x|], t[i + |x|..i + |x| + |y|];
      assert t[i..i + |x + y|] == a + b;
      if a + b == x + y {
        assert a == (a + b)[..|x|] && b == (a + b)[|x|..] && x == (x + y)[..|x|] && y == (x + y)[|x|..];
      }
    }
  }

  lemma HasAt(t: Text, i: nat, x: Text, k: nat)
    requires Has(t, i, x) && k < |x|
    ensures At(t, i + k) == x[k]
  {
    assert t[i..i + |x|][k] == t[i + k];
  }

  /** Jump whitespace and cr/lf: every byte up to 32. */
  function Skip(t: Text, i: nat): (j: nat)
    ensures i <= j && (i <= |t| ==> j <= |t|)
    decreases |t| - i
  {
    if i < |t| && t[i] != 0 && t[i] <= SPACE then Skip(t, i + 1) else i
  }

  lemma SkipStops(t: Text, i: nat)
    requires At(t, i) == 0 || At(t, i) > SPACE
    ensures Skip(t, i) == i
  {
  }

  /** Whitespace between i and j is skipped. */
  lemma {:induction false} SkipOver(t: Text, i: nat, j: nat)
    requires i <= j <= |t| && forall k | i <= k < j :: 0 < t[k] <= SPACE
    ensures Skip(t, i) == Skip(t, j)
    decreases j - i
  {
    if i < j {
      SkipOver(t, i + 1, j);
    }
  }
}
