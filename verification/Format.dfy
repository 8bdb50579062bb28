/** What rt_vsnprintf prints, without regard to the buffer (32-bit, no special prefixes, no long long). */
module Format {
  import opened CText
  import opened Numerals

  /** One variable argument; what it is read as depends on the conversion. */
  datatype Arg = Int(n: int) | Str(s: Text)

  datatype Flags = Flags(zeropad: bool, sign: bool, plus: bool, space: bool, left: bool, large: bool)

  const PERCENT: Byte := 37
  const TWO32 := 0x1_0000_0000

  // ---- Arguments -----------------------------------------------------------------------------

  /** va_arg for an int or a pointer; reading what is not there is undefined in C, and 0 here. */
  function NextInt(args: seq<Arg>): int {
    if args != [] && args[0].Int? then args[0].n else 0
  }

  /** va_arg for a string, with the text for a null pointer. */
  function NextStr(args: seq<Arg>): Text {
    if args != [] && args[0].Str? then args[0].s else [40, 78, 85, 76, 76, 41]
  }

  function Rest(args: seq<Arg>): seq<Arg> {
    if args == [] then [] else args[1..]
  }

  /** The value a two's complement word of `size` values stands for. */
  function Signed(n: int, size: int): int
    requires size > 0
  {
    var u := n % size;
    if u < size / 2 then u else u - size
  }

  // ---- print_number --------------------------------------------------------------------------

  function Fill(n: int, c: Byte): (x: Text)
    ensures |x| == (if n > 0 then n else 0) && forall k | 0 <= k < |x| :: x[k] == c
  {
    if n <= 0 then [] else [c] + Fill(n - 1, c)
  }

  /** divide knows base 10 and 16 only; base 8 is divided by 16, too. */
  function Divisor(base: nat): nat { if base == 10 then 10 else 16 }

  function SignText(num: int, f: Flags): Text {
    if !f.sign then [] else if num < 0 then [MINUS] else if f.plus then [PLUS] else if f.space then [SPACE] else []
  }

  /** The magnitude that the digit loop sees. */
  function Magnitude(num: int, f: Flags): (n: nat)
    ensures n < TWO32
  {
    (if f.sign && num < 0 then -num else num) % TWO32
  }

  function Max(a: int, b: int): int { if a > b then a else b }

  /** Blanks, unless zeros or nothing go in front. */
  function Lead(f: Flags, pad: int): Text { if !f.zeropad && !f.left then Fill(pad, SPACE) else [] }

  function Zeros(f: Flags, pad: int): Text { if f.zeropad && !f.left then Fill(pad, ZERO) else [] }

  function Trail(f: Flags, pad: int): Text { if f.left then Fill(pad, SPACE) else [] }

  /** With precision 0 the digits are left out. */
  function Body(precision: int, digits: Text): Text { if precision != 0 then digits else [] }

  function Assemble(a: Text, b: Text, c: Text, d: Text, e: Text, f: Text): Text { a + b + c + d + e + f }

  /** How much of the width the digits, zeros and sign leave. */
  function Pad(digits: Text, sign: Text, width: int, precision: int): int {
    width - Max(|digits|, precision) - |sign|
  }

  /** The text of a number: blanks, sign, zeros up to the width, zeros up to the precision, digits, blanks. */
  function NumberText(num: int, base: nat, width: int, precision: int, f: Flags): Text {
    var digits := Digits(Magnitude(num, f), Divisor(base), f.large);
    var sign := SignText(num, f);
    var pad := Pad(digits, sign, width, precision);
    Assemble(Lead(f, pad), sign, Zeros(f, pad), Fill(precision - |digits|, ZERO), Body(precision, digits),
             Trail(f, pad))
  }

  // ---- What a printed number means -----------------------------------------------------------

  /** Without flags, width and precision a number is its sign and the digits of its magnitude. */
  lemma PlainNumber(num: int, base: nat, f: Flags)
    requires (base == 10 || base == 16) && !f.left && !f.zeropad && !f.plus && !f.space
    ensures NumberText(num, base, -1, -1, f) ==
      (if f.sign && num < 0 then [MINUS] else []) + Digits(Magnitude(num, f), base, f.large)
    ensures ValueOf(Digits(Magnitude(num, f), base, f.large), base) == Magnitude(num, f)
  {
    DigitsDecode(Magnitude(num, f), base, f.large);
  }

  /** A number takes the field width or what it needs, whichever is more; with precision 0 it is
      shorter by the digits that are left out. */
  lemma NumberLength(num: int, base: nat, width: int, precision: int, f: Flags)
    ensures var digits := Digits(Magnitude(num, f), Divisor(base), f.large);
      var full := Max(width, Max(|digits|, precision) + |SignText(num, f)|);
      |NumberText(num, base, width, precision, f)| == if precision != 0 then full else full - |digits|
  {
    hide Digits, Magnitude;
  }

  // ---- Reading it back -------------------------------------------------------------------------

  /** The value of a digit in base d, in either case, or -1. */
  function DigitIn(c: Byte, d: nat): int {
    if ZERO <= c <= NINE then c - ZERO
    else if d == 16 && 65 <= c <= 70 then c - 55
    else if d == 16 && 97 <= c <= 102 then c - 87
    else -1
  }

  /** Reads digits in base d as far as they go; n is what those before were worth. */
  function ReadNumber(x: Text, n: int, d: nat): int {
    if x == [] || DigitIn(x[0], d) < 0 then n else ReadNumber(x[1..], n * d + DigitIn(x[0], d), d)
  }

  function Strip(x: Text): Text {
    if x != [] && x[0] == SPACE then Strip(x[1..]) else x
  }

  /** What a reader makes of a number: blanks, a sign, digits. */
  function Read(x: Text, d: nat): int {
    var y := Strip(x);
    if y != [] && y[0] == MINUS then -ReadNumber(y[1..], 0, d)
    else if y != [] && y[0] == PLUS then ReadNumber(y[1..], 0, d)
    else ReadNumber(y, 0, d)
  }

  lemma {:induction false} ReadRun(x: Text, y: Text, d: nat)
    requires AllIn(x, d)
    ensures ReadNumber(x + y, 0, d) == ReadNumber(y, ValueOf(x, d), d)
    decreases |x|
  {
    if x == [] {
      assert x + y == y;
    } else {
      var front, c := x[..|x| - 1], x[|x| - 1];
      assert x + y == front + ([c] + y);
      assert ([c] + y)[1..] == y;
      ReadRun(front, [c] + y, d);
    }
  }

  lemma {:induction false} ReadZeros(k: int, y: Text, d: nat)
    ensures ReadNumber(Fill(k, ZERO) + y, 0, d) == ReadNumber(y, 0, d)
    decreases k
  {
    if k <= 0 {
      assert Fill(k, ZERO) + y == y;
    } else {
      assert (Fill(k, ZERO) + y)[1..] == Fill(k - 1, ZERO) + y;
      ReadZeros(k - 1, y, d);
    }
  }

  lemma {:induction false} StripBlanks(k: int, y: Text)
    ensures Strip(Fill(k, SPACE) + y) == Strip(y)
    decreases k
  {
    if k <= 0 {
      assert Fill(k, SPACE) + y == y;
    } else {
      assert (Fill(k, SPACE) + y)[1..] == Fill(k - 1, SPACE) + y;
      StripBlanks(k - 1, y);
    }
  }

  ghost predicate AllIn(x: Text, d: nat) {
    forall k | 0 <= k < |x| :: DigitIn(x[k], d) >= 0 && DigitIn(x[k], d) == DigitValue(x[k])
  }

  lemma {:induction false} DigitsRead(n: nat, d: nat, large: bool)
    requires d == 10 || d == 16
    ensures AllIn(Digits(n, d, large), d)
  {
    if n < d {
      OneDigit(n, d, large);
    } else {
      DigitsRead(n / d, d, large);
      OneDigit(n % d, d, large);
      hide DigitIn, DigitValue, Digit;
    }
  }

  lemma OneDigit(v: nat, d: nat, large: bool)
    requires (d == 10 || d == 16) && v < d
    ensures DigitIn(Digit(v, large), d) == DigitValue(Digit(v, large)) == v
  {
  }

  /** The part behind the sign. */
  function Core(digits: Text, pad: int, precision: int, f: Flags): Text {
    Zeros(f, pad) + (Fill(precision - |digits|, ZERO) + (Body(precision, digits) + Trail(f, pad)))
  }

  /** The zeros do not count, and reading stops at the blanks. */
  lemma CoreReads(n: nat, d: nat, pad: int, precision: int, f: Flags)
    requires d == 10 || d == 16
    ensures ReadNumber(Core(Digits(n, d, f.large), pad, precision, f), 0, d) == if precision != 0 then n else 0
  {
    var digits := Digits(n, d, f.large);
    var tail := Body(precision, digits) + Trail(f, pad);
    ReadZeros(precision - |digits|, tail, d);
    var zeros := Fill(precision - |digits|, ZERO) + tail;
    assert Core(digits, pad, precision, f) == Zeros(f, pad) + zeros;
    if f.zeropad && !f.left {
      ReadZeros(pad, zeros, d);
    } else {
      assert [] + zeros == zeros;
    }
    DigitsRead(n, d, f.large);
    DigitsDecode(n, d, f.large);
    if precision != 0 {
      ReadRun(digits, Trail(f, pad), d);
    } else {
      assert [] + Trail(f, pad) == Trail(f, pad);
    }
  }

  /** Behind the sign there are digits, or nothing but blanks. */
  lemma CoreShape(digits: Text, d: nat, pad: int, precision: int, f: Flags)
    requires digits != [] && DigitIn(digits[0], d) >= 0
    ensures var x := Core(digits, pad, precision, f); x == [] || DigitIn(x[0], d) >= 0 || x == Fill(pad, SPACE)
  {
    var zeros, more := Zeros(f, pad), Fill(precision - |digits|, ZERO);
    var x := Core(digits, pad, precision, f);
    if zeros != [] {
      assert x[0] == zeros[0];
    } else if more != [] {
      assert x[0] == more[0];
    } else if precision != 0 {
      assert x[0] == digits[0];
    } else {
      assert x == Trail(f, pad);
    }
  }

  /** Without a sign in front the reader starts there. */
  lemma CoreUnsigned(digits: Text, d: nat, pad: int, precision: int, f: Flags)
    requires digits != [] && DigitIn(digits[0], d) >= 0
    ensures Read(Core(digits, pad, precision, f), d) == ReadNumber(Core(digits, pad, precision, f), 0, d)
  {
    var x := Core(digits, pad, precision, f);
    CoreShape(digits, d, pad, precision, f);
    hide Core;
    if x == Fill(pad, SPACE) {
      StripBlanks(pad, []);
      assert x + [] == x;
    }
  }

  /** The number that was printed. */
  function Printed(num: int, f: Flags): int {
    var m: int := Magnitude(num, f);
    if f.sign && num < 0 then -m else m
  }

  /** Whatever the flags, the width and the precision are, the text of a number is read as that number,
      except that with precision 0 every number is read as 0. */
  lemma ReadsBack(num: int, base: nat, width: int, precision: int, f: Flags)
    ensures Read(NumberText(num, base, width, precision, f), Divisor(base)) ==
      if precision != 0 then Printed(num, f) else 0
  {
    hide Core, Read, ReadNumber, NumberText, Digits, Pad, Magnitude, Lead, Strip, DigitIn;
    var n, d := Magnitude(num, f), Divisor(base);
    var digits, sign := Digits(n, d, f.large), SignText(num, f);
    var pad := Pad(digits, sign, width, precision);
    var x := Core(digits, pad, precision, f);
    CoreReads(n, d, pad, precision, f);
    DigitsRead(n, d, f.large);
    CoreUnsigned(digits, d, pad, precision, f);
    Regroup(num, base, width, precision, f);
    LeadGoes(f, pad, sign + x, d);
    SignRead(sign, x, d);
  }

  lemma Regroup(num: int, base: nat, width: int, precision: int, f: Flags)
    ensures var digits := Digits(Magnitude(num, f), Divisor(base), f.large);
      var sign := SignText(num, f);
      var pad := Pad(digits, sign, width, precision);
      NumberText(num, base, width, precision, f) == Lead(f, pad) + (sign + Core(digits, pad, precision, f))
  {
    hide Digits, Pad, Magnitude, Lead, SignText;
  }

  lemma LeadGoes(f: Flags, pad: int, y: Text, d: nat)
    ensures Read(Lead(f, pad) + y, d) == Read(y, d)
  {
    hide ReadNumber;
    if !f.zeropad && !f.left {
      StripBlanks(pad, y);
    } else {
      assert [] + y == y;
    }
  }

  /** What a sign does to what is behind it. */
  lemma SignRead(sign: Text, x: Text, d: nat)
    requires sign == [] || sign == [MINUS] || sign == [PLUS] || sign == [SPACE]
    ensures Read(sign + x, d) ==
      if sign == [MINUS] then -ReadNumber(x, 0, d) else if sign == [PLUS] then ReadNumber(x, 0, d) else Read(x, d)
  {
    if sign == [] {
      assert sign + x == x;
    } else {
      assert (sign + x)[1..] == x;
    }
  }

  /** It is read as itself exactly when the precision is not 0 or the number is. */
  lemma ReadsBackExactly(num: int, base: nat, width: int, precision: int, f: Flags)
    ensures Read(NumberText(num, base, width, precision, f), Divisor(base)) == Printed(num, f)
       <==> precision != 0 || Printed(num, f) == 0
    ensures f.sign && -TWO32 < num < TWO32 ==> Printed(num, f) == num
  {
    ReadsBack(num, base, width, precision, f);
    hide Read, NumberText;
  }

  // ---- Directives ----------------------------------------------------------------------------

  /** The flag characters from index i on. */
  function ReadFlags(fmt: Text, i: nat, f: Flags): (r: (Flags, nat))
    ensures r.1 >= i
    decreases |fmt| - i
  {
    var c := At(fmt, i);
    if c == MINUS then ReadFlags(fmt, i + 1, f.(left := true))
    else if c == PLUS then ReadFlags(fmt, i + 1, f.(plus := true))
    else if c == SPACE then ReadFlags(fmt, i + 1, f.(space := true))
    else if c == 35 then ReadFlags(fmt, i + 1, f)
    else if c == ZERO then ReadFlags(fmt, i + 1, f.(zeropad := true))
    else (f, i)
  }

  /** The state of reading one directive. */
  datatype Spec = Spec(f: Flags, width: int, precision: int, qualifier: Byte, i: nat, args: seq<Arg>)

  function ReadWidth(fmt: Text, s: Spec): (r: Spec)
    ensures r.i >= s.i
  {
    if IsDigit(At(fmt, s.i)) then var (w, j) := ReadDigits(fmt, s.i, 0); s.(width := w, i := j)
    else if At(fmt, s.i) == STAR then
      var w := NextInt(s.args);
      s.(width := if w < 0 then -w else w, f := if w < 0 then s.f.(left := true) else s.f, i := s.i + 1,
         args := Rest(s.args))
    else s
  }

  function ReadPrecision(fmt: Text, s: Spec): (r: Spec)
    ensures r.i >= s.i
  {
    if At(fmt, s.i) != DOT then s
    else if IsDigit(At(fmt, s.i + 1)) then var (p, j) := ReadDigits(fmt, s.i + 1, 0); s.(precision := Max(p, 0), i := j)
    else if At(fmt, s.i + 1) == STAR then
      s.(precision := Max(NextInt(s.args), 0), i := s.i + 2, args := Rest(s.args))
    else s.(precision := 0, i := s.i + 1)
  }

  function ReadQualifier(fmt: Text, s: Spec): (r: Spec)
    ensures r.i >= s.i
  {
    var c := At(fmt, s.i);
    if c == 104 || c == 108 then s.(qualifier := c, i := s.i + 1) else s
  }

  /** Everything between '%' and the conversion character. */
  function ReadSpec(fmt: Text, i: nat, args: seq<Arg>): (r: Spec)
    ensures r.i >= i
  {
    var (f, j) := ReadFlags(fmt, i, Flags(false, false, false, false, false, false));
    ReadQualifier(fmt, ReadPrecision(fmt, ReadWidth(fmt, Spec(f, -1, -1, 0, j, args))))
  }

  // ---- Conversions ---------------------------------------------------------------------------

  function CharText(s: Spec): Text {
    (if s.f.left then [] else Fill(s.width - 1, SPACE))
    + [NextInt(s.args) % 256]
    + (if s.f.left then Fill(s.width - 1, SPACE) else [])
  }

  function StringText(s: Spec): Text {
    var whole := NextStr(s.args);
    var x := if 0 < s.precision < |whole| then whole[..s.precision] else whole;
    (if s.f.left then [] else Fill(s.width - |x|, SPACE))
    + x
    + (if s.f.left then Fill(s.width - |x|, SPACE) else [])
  }

  /** The value handed to print_number. */
  function NumberArg(s: Spec, signed: bool): int {
    var n := NextInt(s.args);
    if s.qualifier == 104 then (if signed then Signed(n, 0x1_0000) else n % 0x1_0000)
    else Signed(n, TWO32)
  }

  predicate IsNumber(c: Byte) {
    c == 111 || c == 88 || c == 120 || c == 100 || c == 105 || c == 117
  }

  predicate IsSigned(c: Byte) { c == 100 || c == 105 }

  function Base(c: Byte): nat {
    if c == 111 then 8 else if c == 88 || c == 120 then 16 else 10
  }

  /** The text of the conversion at index s.i, the arguments left, and the index behind it. */
  function Convert(fmt: Text, s: Spec): (r: (Text, seq<Arg>, nat))
    ensures r.2 >= s.i && (s.i < |fmt| && fmt[s.i] != 0 ==> r.2 > s.i)
  {
    var c := At(fmt, s.i);
    if c == 99 then (CharText(s), Rest(s.args), s.i + 1)
    else if c == 115 then (StringText(s), Rest(s.args), s.i + 1)
    else if c == 112 then
      var t := if s.width == -1 then s.(width := 8, f := s.f.(zeropad := true)) else s;
      (NumberText(Signed(NextInt(s.args), TWO32), 16, t.width, t.precision, t.f), Rest(s.args), s.i + 1)
    else if c == PERCENT then ([PERCENT], s.args, s.i + 1)
    else if IsNumber(c) then
      var f := s.f.(large := s.f.large || c == 88, sign := IsSigned(c));
      (NumberText(NumberArg(s, IsSigned(c)), Base(c), s.width, s.precision, f), Rest(s.args), s.i + 1)
    else if c != 0 then ([PERCENT, c], s.args, s.i + 1)
    else ([PERCENT], s.args, s.i)
  }

  /** The whole output from index i of the format on. */
  function Output(fmt: Text, i: nat, args: seq<Arg>): Text
    decreases |fmt| - i
  {
    if At(fmt, i) == 0 then []
    else if At(fmt, i) != PERCENT then [At(fmt, i)] + Output(fmt, i + 1, args)
    else
      var (x, rest, next) := Convert(fmt, ReadSpec(fmt, i + 1, args));
      x + Output(fmt, next, rest)
  }
}
