/** What rt_vsnprintf prints for a directive as it stands in the format text, for each conversion. */
module FormatDirectives {
  import opened CText
  import opened Numerals
  import opened HexDigits
  import opened Format

  // ---- Directives as they are written ------------------------------------------------------------

  /** A width or a precision: none, digits in the text, or the next argument. */
  datatype Amount = Absent | Written(digits: string) | Argument

  /** The parts of a directive between '%' and its conversion character, in order. */
  datatype Directive = Directive(flags: string, width: Amount, precision: Amount, qualifier: string, conv: char)

  predicate AllDecimal(s: string) {
    forall k | 0 <= k < |s| :: '0' <= s[k] <= '9'
  }

  predicate IsFlag(c: char) { c == '-' || c == '+' || c == ' ' || c == '#' || c == '0' }

  predicate IsConversion(c: char) {
    c == 'c' || c == 's' || c == 'd' || c == 'i' || c == 'u' || c == 'x' || c == 'X' || c == 'o' || c == 'p' || c == '%'
  }

  /** A character that ends a directive, known as a conversion or not. */
  predicate Ends(c: char, qualifier: string) {
    && 0 < c as int < 128 && !IsFlag(c) && !('0' <= c <= '9') && c != '*' && c != '.'
    && (qualifier == "" ==> c != 'h' && c != 'l')
  }

  /** A width does not start with 0, which is a flag; a precision may have no digits. */
  predicate WellFormed(d: Directive) {
    && (forall k | 0 <= k < |d.flags| :: IsFlag(d.flags[k]))
    && (d.width.Written? ==> AllDecimal(d.width.digits) && d.width.digits != "" && d.width.digits[0] != '0')
    && (d.precision.Written? ==> AllDecimal(d.precision.digits))
    && (d.qualifier == "" || d.qualifier == "h" || d.qualifier == "l")
    && Ends(d.conv, d.qualifier)
  }

  function WidthText(d: Directive): Text
    requires WellFormed(d)
  {
    match d.width
    case Absent => []
    case Written(digits) => Ascii(digits)
    case Argument => Ascii("*")
  }

  function PrecisionText(d: Directive): Text
    requires WellFormed(d)
  {
    match d.precision
    case Absent => []
    case Written(digits) => Ascii(".") + Ascii(digits)
    case Argument => Ascii(".*")
  }

  function EndText(d: Directive): Text
    requires WellFormed(d)
  {
    Ascii(d.qualifier) + [d.conv as int]
  }

  /** The directive as it stands in the format. */
  function Spelled(d: Directive): Text
    requires WellFormed(d)
  {
    Ascii("%") + (Ascii(d.flags) + (WidthText(d) + (PrecisionText(d) + EndText(d))))
  }

  // ---- What it asks for ----------------------------------------------------------------------------

  /** The arguments left when those for width, and for precision, have been taken. */
  function AfterWidth(d: Directive, args: seq<Arg>): seq<Arg> {
    if d.width.Argument? then Rest(args) else args
  }

  function Left(d: Directive, args: seq<Arg>): seq<Arg> {
    if d.precision.Argument? then Rest(AfterWidth(d, args)) else AfterWidth(d, args)
  }

  /** The decimal value of a string of digits. */
  function Amounts(digits: string): int
    requires IsAscii(digits)
  {
    ValueOf(Ascii(digits), 10)
  }

  /** A negative width argument means its size, and to the left. */
  function WidthOf(d: Directive, args: seq<Arg>): int
    requires WellFormed(d)
  {
    match d.width
    case Absent => -1
    case Written(digits) => Amounts(digits)
    case Argument => if NextInt(args) < 0 then -NextInt(args) else NextInt(args)
  }

  predicate ToLeft(d: Directive, args: seq<Arg>) {
    '-' in d.flags || (d.width.Argument? && NextInt(args) < 0)
  }

  function PrecisionOf(d: Directive, args: seq<Arg>): int
    requires WellFormed(d)
  {
    match d.precision
    case Absent => -1
    case Written(digits) => Amounts(digits)
    case Argument => if NextInt(AfterWidth(d, args)) < 0 then 0 else NextInt(AfterWidth(d, args))
  }

  function FlagsOf(d: Directive, args: seq<Arg>): Flags {
    Flags('0' in d.flags, false, '+' in d.flags, ' ' in d.flags, ToLeft(d, args), false)
  }

  // ---- Reading it ------------------------------------------------------------------------------------

  /** The flags after some more flag characters. */
  function Flagged(f: Flags, s: string): Flags {
    Flags(f.zeropad || '0' in s, f.sign, f.plus || '+' in s, f.space || ' ' in s, f.left || '-' in s, f.large)
  }

  lemma FlaggedMore(f: Flags, c: char, s: string)
    ensures Flagged(f, [c] + s) == Flagged(Flagged(f, [c]), s)
  {
  }

  lemma {:induction false} FlagsRead(fmt: Text, i: nat, s: string, f: Flags)
    requires IsAscii(s) && (forall k | 0 <= k < |s| :: IsFlag(s[k])) && Has(fmt, i, Ascii(s))
    requires var c := At(fmt, i + |s|); c != MINUS && c != PLUS && c != SPACE && c != 35 && c != ZERO
    ensures ReadFlags(fmt, i, f) == (Flagged(f, s), i + |s|)
    decreases |s|
  {
    hide Has, ReadFlags, Flagged;
    if s == "" {
      NoFlag(fmt, i, f);
    } else {
      FlagHead(fmt, i, s);
      FlaggedMore(f, s[0], s[1..]);
      OneFlag(fmt, i, f, s[0]);
      FlagsRead(fmt, i + 1, s[1..], Flagged(f, [s[0]]));
      assert s == [s[0]] + s[1..];
    }
  }

  lemma NoFlag(fmt: Text, i: nat, f: Flags)
    requires var c := At(fmt, i); c != MINUS && c != PLUS && c != SPACE && c != 35 && c != ZERO
    ensures ReadFlags(fmt, i, f) == (Flagged(f, ""), i)
  {
  }

  lemma FlagHead(fmt: Text, i: nat, s: string)
    requires IsAscii(s) && s != "" && Has(fmt, i, Ascii(s))
    ensures At(fmt, i) == s[0] as int && IsAscii(s[1..]) && Has(fmt, i + 1, Ascii(s[1..]))
  {
    assert Ascii(s) == [s[0] as int] + Ascii(s[1..]);
    HasSplit(fmt, i, [s[0] as int], Ascii(s[1..]));
    HasAt(fmt, i, [s[0] as int], 0);
    hide Has;
  }

  lemma OneFlag(fmt: Text, i: nat, f: Flags, c: char)
    requires IsFlag(c) && At(fmt, i) == c as int
    ensures ReadFlags(fmt, i, f) == ReadFlags(fmt, i + 1, Flagged(f, [c]))
  {
    assert Flagged(f, [c]) ==
      f.(zeropad := f.zeropad || c == '0', plus := f.plus || c == '+', space := f.space || c == ' ',
         left := f.left || c == '-');
  }

  /** A run of digits that ends in the text is read as its decimal value. */
  lemma DigitsRead(fmt: Text, i: nat, s: string)
    requires AllDecimal(s) && Has(fmt, i, Ascii(s)) && !IsDigit(At(fmt, i + |s|))
    ensures ReadDigits(fmt, i, 0) == (Amounts(s), i + |s|)
  {
    ReadAll(fmt, i, Ascii(s));
  }

  /** What a directive cannot go on with behind its width and behind its precision. */
  lemma EndStops(d: Directive)
    requires WellFormed(d)
    ensures var e := EndText(d)[0];
      !IsDigit(e) && e != STAR && e != DOT && e != MINUS && e != PLUS && e != SPACE && e != 35
    ensures d.qualifier == "" ==> EndText(d)[0] == d.conv as int
  {
  }

  lemma WidthRead(fmt: Text, s: Spec, d: Directive)
    requires WellFormed(d) && Has(fmt, s.i, WidthText(d)) && s.width == -1
    requires var e := At(fmt, s.i + |WidthText(d)|); !IsDigit(e) && (d.width.Absent? ==> e != STAR)
    ensures ReadWidth(fmt, s) ==
      s.(width := WidthOf(d, s.args), args := AfterWidth(d, s.args), i := s.i + |WidthText(d)|,
         f := s.f.(left := s.f.left || (d.width.Argument? && NextInt(s.args) < 0)))
  {
    match d.width
    case Absent =>
    case Written(digits) =>
      HasAt(fmt, s.i, Ascii(digits), 0);
      DigitsRead(fmt, s.i, digits);
      hide ReadDigits, Has;
    case Argument =>
      HasAt(fmt, s.i, Ascii("*"), 0);
      hide Has;
  }

  lemma PrecisionRead(fmt: Text, s: Spec, d: Directive, args: seq<Arg>)
    requires WellFormed(d) && Has(fmt, s.i, PrecisionText(d)) && s.precision == -1
    requires var e := At(fmt, s.i + |PrecisionText(d)|); !IsDigit(e) && e != STAR && (d.precision.Absent? ==> e != DOT)
    requires s.args == AfterWidth(d, args)
    ensures ReadPrecision(fmt, s) ==
      s.(precision := PrecisionOf(d, args), args := Left(d, args), i := s.i + |PrecisionText(d)|)
  {
    match d.precision
    case Absent =>
    case Written(digits) =>
      HasSplit(fmt, s.i, Ascii("."), Ascii(digits));
      HasAt(fmt, s.i, Ascii("."), 0);
      DigitsRead(fmt, s.i + 1, digits);
      AmountsNotNegative(digits);
      if digits != "" { HasAt(fmt, s.i + 1, Ascii(digits), 0); }
      hide ReadDigits, Has;
    case Argument =>
      HasAt(fmt, s.i, Ascii(".*"), 0);
      HasAt(fmt, s.i, Ascii(".*"), 1);
      hide Has;
  }

  lemma AmountsNotNegative(digits: string)
    requires AllDecimal(digits)
    ensures Amounts(digits) >= 0 && (digits == "" ==> Amounts(digits) == 0)
  {
    ValueNotNegative(Ascii(digits));
  }

  lemma {:induction false} ValueNotNegative(x: Text)
    requires forall k | 0 <= k < |x| :: IsDigit(x[k])
    ensures ValueOf(x, 10) >= 0
  {
    if x != [] {
      ValueNotNegative(x[..|x| - 1]);
    }
  }

  /** Where the parts of the directive are. */
  lemma Parts(fmt: Text, i: nat, d: Directive)
    requires WellFormed(d) && Has(fmt, i, Spelled(d))
    ensures At(fmt, i) == PERCENT && Has(fmt, i + 1, Ascii(d.flags))
    ensures var w := i + 1 + |d.flags|;
      && Has(fmt, w, WidthText(d))
      && Has(fmt, w + |WidthText(d)|, PrecisionText(d))
      && Has(fmt, w + |WidthText(d)| + |PrecisionText(d)|, EndText(d))
      && |Spelled(d)| == 1 + |d.flags| + |WidthText(d)| + |PrecisionText(d)| + |EndText(d)|
  {
    hide WidthText, PrecisionText, EndText, Has, Ascii;
    FiveParts(fmt, i, Ascii("%"), Ascii(d.flags), WidthText(d), PrecisionText(d), EndText(d));
    HasAt(fmt, i, Ascii("%"), 0);
  }

  lemma FiveParts(fmt: Text, i: nat, a: Text, b: Text, c: Text, d: Text, e: Text)
    requires Has(fmt, i, a + (b + (c + (d + e))))
    ensures Has(fmt, i, a) && Has(fmt, i + |a|, b) && Has(fmt, i + |a| + |b|, c)
    ensures Has(fmt, i + |a| + |b| + |c|, d) && Has(fmt, i + |a| + |b| + |c| + |d|, e)
  {
    hide Has;
    HasSplit(fmt, i, a, b + (c + (d + e)));
    HasSplit(fmt, i + |a|, b, c + (d + e));
    HasSplit(fmt, i + |a| + |b|, c, d + e);
    HasSplit(fmt, i + |a| + |b| + |c|, d, e);
  }

  /** The first byte of the parts from the width on, and from the precision on. */
  lemma Stops(fmt: Text, w: nat, d: Directive)
    requires WellFormed(d) && Has(fmt, w, WidthText(d)) && Has(fmt, w + |WidthText(d)|, PrecisionText(d))
    requires Has(fmt, w + |WidthText(d)| + |PrecisionText(d)|, EndText(d))
    ensures var e := At(fmt, w + |WidthText(d)| + |PrecisionText(d)|);
      !IsDigit(e) && e != STAR && e != DOT
    ensures var e := At(fmt, w + |WidthText(d)|);
      !IsDigit(e) && e != STAR && (d.precision.Absent? ==> e != DOT)
    ensures var e := At(fmt, w); e != MINUS && e != PLUS && e != SPACE && e != 35 && e != ZERO
  {
    EndStops(d);
    HasAt(fmt, w + |WidthText(d)| + |PrecisionText(d)|, EndText(d), 0);
    if !d.precision.Absent? {
      HasAt(fmt, w + |WidthText(d)|, PrecisionText(d), 0);
    }
    if !d.width.Absent? {
      HasAt(fmt, w, WidthText(d), 0);
    }
    hide Has, EndText;
  }

  /** The qualifier as rt_vsnprintf keeps it. */
  function QualifierOf(d: Directive): Byte {
    if d.qualifier == "h" then 'h' as int else if d.qualifier == "l" then 'l' as int else 0
  }

  lemma QualifierRead(fmt: Text, s: Spec, d: Directive)
    requires WellFormed(d) && Has(fmt, s.i, EndText(d)) && s.qualifier == 0
    ensures ReadQualifier(fmt, s) == s.(qualifier := QualifierOf(d), i := s.i + |d.qualifier|)
    ensures At(fmt, s.i + |d.qualifier|) == d.conv as int && |EndText(d)| == |d.qualifier| + 1
  {
    HasAt(fmt, s.i, EndText(d), 0);
    HasAt(fmt, s.i, EndText(d), |d.qualifier|);
    hide Has;
  }

  /** Everything between '%' and the conversion character is read as it is written. */
  lemma SpecRead(fmt: Text, i: nat, args: seq<Arg>, d: Directive)
    requires WellFormed(d) && Has(fmt, i, Spelled(d))
    ensures At(fmt, i) == PERCENT
    ensures var s := ReadSpec(fmt, i + 1, args);
      && s == Spec(FlagsOf(d, args), WidthOf(d, args), PrecisionOf(d, args), QualifierOf(d), i + |Spelled(d)| - 1,
                   Left(d, args))
      && At(fmt, s.i) == d.conv as int
  {
    hide Has, Spelled, WidthText, PrecisionText, EndText, WidthOf, PrecisionOf, ReadFlags, ReadWidth, ReadPrecision,
         ReadQualifier, Ends, Flagged;
    Parts(fmt, i, d);
    var none := Flags(false, false, false, false, false, false);
    var w := i + 1 + |d.flags|;
    Stops(fmt, w, d);
    FlagsRead(fmt, i + 1, d.flags, none);
    FlagsAre(d, args);
    var s0 := Spec(Flagged(none, d.flags), -1, -1, 0, w, args);
    WidthRead(fmt, s0, d);
    var s1 := ReadWidth(fmt, s0);
    PrecisionRead(fmt, s1, d, args);
    QualifierRead(fmt, ReadPrecision(fmt, s1), d);
  }

  lemma FlagsAre(d: Directive, args: seq<Arg>)
    ensures var f := Flagged(Flags(false, false, false, false, false, false), d.flags);
      FlagsOf(d, args) == f.(left := f.left || (d.width.Argument? && NextInt(args) < 0))
  {
  }

  // ---- Numbers ---------------------------------------------------------------------------------------

  lemma {:induction false} DigitsAre(n: nat, d: nat, large: bool)
    requires d == 10 || d == 16
    ensures Numeral(Digits(n, d, large), n, d, large)
    ensures if n == 0 then Digits(n, d, large) == ['0' as int] else Digits(n, d, large)[0] != '0' as int
  {
    HexTable(n % d);
    if n < d {
      Below(n, d);
    } else {
      hide Table, Digit;
      DigitsAre(n / d, d, large);
      var x := Digits(n, d, large);
      assert x[..|x| - 1] == Digits(n / d, d, large);
      DigitIs(n % d, large);
    }
  }

  lemma DigitIs(v: nat, large: bool)
    requires v < 16
    ensures Digit(v, large) == Table(large, v)
  {
    HexTable(v);
  }

  lemma {:induction false} ZerosInFront(k: int, x: Text, n: nat, d: nat, large: bool)
    requires (d == 10 || d == 16) && Numeral(x, n, d, large)
    ensures Numeral(Fill(k, ZERO) + x, n, d, large)
    decreases k
  {
    if k <= 0 {
      assert Fill(k, ZERO) + x == x;
    } else {
      ZerosInFront(k - 1, x, n, d, large);
      ZeroInFront(Fill(k - 1, ZERO) + x, n, d, large);
      assert ['0' as int] + (Fill(k - 1, ZERO) + x) == Fill(k, ZERO) + x;
    }
  }

  predicate IsDecimal(c: char) { c == 'd' || c == 'i' || c == 'u' }

  predicate IsHexadecimal(c: char) { c == 'x' || c == 'X' }

  function BaseOf(c: char): nat { if IsHexadecimal(c) then 16 else 10 }

  /** The argument as the conversion and the qualifier take it: 32 bits, or 16 with h, and with a sign for d
      and i. */
  function ValueIn(d: Directive, n: int): int {
    var size := if d.qualifier == "h" then 0x1_0000 else 0x1_0000_0000;
    var u := n % size;
    if (d.conv == 'd' || d.conv == 'i') && u >= size / 2 then u - size else u
  }

  function SignOf(d: Directive, v: int): Text {
    if d.conv != 'd' && d.conv != 'i' then []
    else if v < 0 then ['-' as int]
    else if '+' in d.flags then ['+' as int]
    else if ' ' in d.flags then [' ' as int]
    else []
  }

  /** The digits of a number of size n: at least as many as the precision, with no more zeros in front than
      that takes. */
  ghost predicate DigitsFor(x: Text, n: nat, c: char, precision: int) {
    && Numeral(x, n, BaseOf(c), c == 'X')
    && |x| >= precision && (|x| == 1 || |x| == precision || x[0] != '0' as int)
  }

  /** Sign and digits in a field: blanks behind them when they are to the left, zeros between them or blanks
      in front otherwise. */
  function InField(sign: Text, digits: Text, gap: int, left: bool, zero: bool): Text {
    if left then sign + digits + Fill(gap, ' ' as int)
    else if zero then sign + Fill(gap, '0' as int) + digits
    else Fill(gap, ' ' as int) + sign + digits
  }

  /** What the directive prints for an argument of value v whose digits are x; the digits count for the width
      even when precision 0 leaves them out. */
  function NumberField(d: Directive, args: seq<Arg>, v: int, x: Text): Text
    requires WellFormed(d)
  {
    var sign := SignOf(d, v);
    InField(sign, if PrecisionOf(d, args) == 0 then [] else x, WidthOf(d, args) - |sign| - |x|, ToLeft(d, args),
            '0' in d.flags)
  }

  /** The six parts of a printed number are sign and digits in a field. */
  lemma PartsInField(sign: Text, zeros: Text, body: Text, pad: int, f: Flags)
    ensures Assemble(Lead(f, pad), sign, Zeros(f, pad), zeros, body, Format.Trail(f, pad)) ==
      InField(sign, zeros + body, pad, f.left, f.zeropad)
  {
    hide Fill;
    var none: Text := [];
    if f.left {
      assert none + sign + none + zeros + body == sign + (zeros + body);
    } else if f.zeropad {
      assert none + sign + Fill(pad, ZERO) + zeros + body + none == sign + Fill(pad, ZERO) + (zeros + body);
    } else {
      assert Fill(pad, SPACE) + sign + none + zeros + body + none == Fill(pad, SPACE) + sign + (zeros + body);
    }
  }

  /** print_number lays out sign and digits in this way. */
  lemma TextIsField(num: int, base: nat, width: int, precision: int, f: Flags)
    ensures var digits := Digits(Magnitude(num, f), Divisor(base), f.large);
      var x := Fill(precision - |digits|, ZERO) + digits;
      var sign := SignText(num, f);
      NumberText(num, base, width, precision, f) ==
      InField(sign, if precision == 0 then [] else x, width - |sign| - |x|, f.left, f.zeropad)
  {
    hide Digits, Magnitude, SignText, InField, Assemble, Lead, Zeros, Format.Trail, Fill;
    var digits := Digits(Magnitude(num, f), Divisor(base), f.large);
    var sign := SignText(num, f);
    var zeros := Fill(precision - |digits|, ZERO);
    PartsInField(sign, zeros, Body(precision, digits), Pad(digits, sign, width, precision), f);
    if precision == 0 {
      assert zeros + [] == [];
    }
  }

  /** The digits that print_number writes are those of the number. */
  lemma DigitsAreFor(n: nat, c: char, precision: int)
    requires IsDecimal(c) || IsHexadecimal(c)
    ensures var digits := Digits(n, BaseOf(c), c == 'X');
      DigitsFor(Fill(precision - |digits|, ZERO) + digits, n, c, precision)
  {
    var d := BaseOf(c);
    var digits := Digits(n, d, c == 'X');
    DigitsAre(n, d, c == 'X');
    ZerosInFront(precision - |digits|, digits, n, d, c == 'X');
    hide Numeral, Digits;
  }

  predicate SignedConversion(c: char) { c == 'd' || c == 'i' }

  /** The flags that print_number gets. */
  function NumberFlags(d: Directive, args: seq<Arg>): Flags {
    FlagsOf(d, args).(sign := SignedConversion(d.conv), large := d.conv == 'X')
  }

  lemma NumberConverted(fmt: Text, s: Spec, d: Directive, args: seq<Arg>)
    requires At(fmt, s.i) == d.conv as int && s.f == FlagsOf(d, args)
    requires IsDecimal(d.conv) || IsHexadecimal(d.conv)
    ensures Convert(fmt, s) ==
      (NumberText(NumberArg(s, SignedConversion(d.conv)), BaseOf(d.conv), s.width, s.precision, NumberFlags(d, args)),
       Rest(s.args), s.i + 1)
  {
    hide NumberText, NumberArg;
  }

  /** The number it gets has the value, the size and the sign of the argument. */
  lemma ArgumentIs(s: Spec, d: Directive, args: seq<Arg>, n: int)
    requires s.args != [] && s.args[0] == Int(n) && s.qualifier == QualifierOf(d)
    requires d.qualifier == "" || d.qualifier == "h" || d.qualifier == "l"
    ensures var num, f, v := NumberArg(s, SignedConversion(d.conv)), NumberFlags(d, args), ValueIn(d, n);
      && SignText(num, f) == SignOf(d, v) && Magnitude(num, f) == Size(v) && Printed(num, f) == v
  {
    assert d.qualifier == "l" ==> QualifierOf(d) == 'l' as int != 104;
  }

  function Size(v: int): nat { if v < 0 then -v else v }

  /** %d, %i, %u, %x and %X: the output is the number of the argument in a field, and then that of the rest. */
  lemma NumberPrinted(fmt: Text, i: nat, args: seq<Arg>, d: Directive, n: int) returns (x: Text)
    requires WellFormed(d) && Has(fmt, i, Spelled(d)) && (IsDecimal(d.conv) || IsHexadecimal(d.conv))
    requires Left(d, args) != [] && Left(d, args)[0] == Int(n)
    ensures var v := ValueIn(d, n);
      && DigitsFor(x, Size(v), d.conv, PrecisionOf(d, args))
      && Output(fmt, i, args) ==
         NumberField(d, args, v, x) + Output(fmt, i + |Spelled(d)|, Left(d, args)[1..])
      && Read(NumberField(d, args, v, x), BaseOf(d.conv)) == if PrecisionOf(d, args) == 0 then 0 else v
  {
    hide Has, Spelled, ReadSpec, Convert, NumberText, InField, NumberArg, Digits, Magnitude, SignText, SignOf, Printed,
         WidthOf, PrecisionOf, ToLeft, ValueIn, DigitsFor, Read, Ends, Fill, FlagsOf;
    SpecRead(fmt, i, args, d);
    var s := ReadSpec(fmt, i + 1, args);
    NumberConverted(fmt, s, d, args);
    ArgumentIs(s, d, args, n);
    var num, f := NumberArg(s, SignedConversion(d.conv)), NumberFlags(d, args);
    FlagsPass(d, args);
    TextIsField(num, BaseOf(d.conv), s.width, s.precision, f);
    ReadsBack(num, BaseOf(d.conv), s.width, s.precision, f);
    DigitsAreFor(Magnitude(num, f), d.conv, s.precision);
    var digits := Digits(Magnitude(num, f), BaseOf(d.conv), f.large);
    x := Fill(s.precision - |digits|, ZERO) + digits;
  }

  lemma FlagsPass(d: Directive, args: seq<Arg>)
    ensures var f := NumberFlags(d, args);
      f.left == ToLeft(d, args) && f.zeropad == ('0' in d.flags) && f.large == (d.conv == 'X')
  {
  }

  /** divide makes no difference between base 8 and base 16. */
  lemma EightAsSixteen(num: int, width: int, precision: int, f: Flags)
    ensures NumberText(num, 8, width, precision, f) == NumberText(num, 16, width, precision, f)
  {
    hide Digits, Assemble, Fill;
  }

  lemma UnsignedPrinted(num: int, width: int, precision: int, f: Flags) returns (x: Text)
    requires !f.sign && !f.large
    ensures DigitsFor(x, num % 0x1_0000_0000, 'x', precision)
    ensures NumberText(num, 16, width, precision, f) ==
      InField([], if precision == 0 then [] else x, width - |x|, f.left, f.zeropad)
  {
    hide NumberText, InField, Digits, Fill, DigitsFor;
    TextIsField(num, 16, width, precision, f);
    DigitsAreFor(num % 0x1_0000_0000, 'x', precision);
    var digits := Digits(num % 0x1_0000_0000, 16, false);
    x := Fill(precision - |digits|, ZERO) + digits;
  }

  lemma PointerConverted(fmt: Text, s: Spec, d: Directive, args: seq<Arg>, n: int)
    requires At(fmt, s.i) == 'p' as int && s.f == FlagsOf(d, args) && s.args != [] && s.args[0] == Int(n)
    ensures Convert(fmt, s) ==
      (NumberText(Signed(n, TWO32), 16, if s.width == -1 then 8 else s.width, s.precision,
                  if s.width == -1 then s.f.(zeropad := true) else s.f), Rest(s.args), s.i + 1)
  {
    hide NumberText, FlagsOf;
  }

  /** %p: the address in lower-case hexadecimal digits, eight of them unless a width is given. */
  lemma PointerPrinted(fmt: Text, i: nat, args: seq<Arg>, d: Directive, n: int) returns (x: Text)
    requires WellFormed(d) && Has(fmt, i, Spelled(d)) && d.conv == 'p'
    requires Left(d, args) != [] && Left(d, args)[0] == Int(n)
    ensures DigitsFor(x, n % 0x1_0000_0000, 'x', PrecisionOf(d, args))
    ensures var width := if d.width.Absent? then 8 else WidthOf(d, args);
      Output(fmt, i, args) ==
      InField([], if PrecisionOf(d, args) == 0 then [] else x, width - |x|, ToLeft(d, args),
              '0' in d.flags || d.width.Absent?)
      + Output(fmt, i + |Spelled(d)|, Left(d, args)[1..])
  {
    hide Has, Spelled, ReadSpec, Convert, NumberText, InField, Digits, WidthOf, PrecisionOf, ToLeft, DigitsFor,
         Ends, Signed, Fill;
    SpecRead(fmt, i, args, d);
    WidthNotNegative(d, args);
    var s := ReadSpec(fmt, i + 1, args);
    PointerConverted(fmt, s, d, args, n);
    x := UnsignedPrinted(Signed(n, TWO32), if s.width == -1 then 8 else s.width, s.precision,
                         if s.width == -1 then s.f.(zeropad := true) else s.f);
    WordOf(n);
  }

  lemma WordOf(n: int)
    ensures Signed(n, TWO32) % 0x1_0000_0000 == n % 0x1_0000_0000
  {
  }

  lemma WidthNotNegative(d: Directive, args: seq<Arg>)
    requires WellFormed(d)
    ensures WidthOf(d, args) == -1 <==> d.width.Absent?
  {
    if d.width.Written? {
      AmountsNotNegative(d.width.digits);
    }
  }

  lemma OctalConverted(fmt: Text, s: Spec, d: Directive, args: seq<Arg>)
    requires At(fmt, s.i) == 'o' as int && s.f == FlagsOf(d, args)
    ensures Convert(fmt, s) ==
      (NumberText(NumberArg(s, false), 8, s.width, s.precision, s.f), Rest(s.args), s.i + 1)
  {
    hide NumberText, NumberArg;
  }

  /** %o prints the hexadecimal digits of the argument. */
  lemma OctalPrinted(fmt: Text, i: nat, args: seq<Arg>, d: Directive, n: int) returns (x: Text)
    requires WellFormed(d) && Has(fmt, i, Spelled(d)) && d.conv == 'o'
    requires Left(d, args) != [] && Left(d, args)[0] == Int(n)
    ensures ValueIn(d, n) >= 0 && DigitsFor(x, ValueIn(d, n), 'x', PrecisionOf(d, args))
    ensures Output(fmt, i, args) ==
      InField([], if PrecisionOf(d, args) == 0 then [] else x, WidthOf(d, args) - |x|, ToLeft(d, args), '0' in d.flags)
      + Output(fmt, i + |Spelled(d)|, Left(d, args)[1..])
  {
    hide Has, Spelled, ReadSpec, Convert, NumberText, InField, Digits, WidthOf, PrecisionOf, ToLeft, DigitsFor,
         Ends, NumberArg, Fill, ValueIn;
    SpecRead(fmt, i, args, d);
    var s := ReadSpec(fmt, i + 1, args);
    OctalConverted(fmt, s, d, args);
    OctalArgument(s, d, args, n);
    var num := NumberArg(s, false);
    EightAsSixteen(num, s.width, s.precision, s.f);
    x := UnsignedPrinted(num, s.width, s.precision, s.f);
  }

  lemma OctalArgument(s: Spec, d: Directive, args: seq<Arg>, n: int)
    requires s.args != [] && s.args[0] == Int(n) && s.qualifier == QualifierOf(d) && d.conv == 'o'
    requires d.qualifier == "" || d.qualifier == "h" || d.qualifier == "l"
    ensures NumberArg(s, false) % 0x1_0000_0000 == ValueIn(d, n)
  {
  }

  // ---- Octal -----------------------------------------------------------------------------------------

  /** The hexadecimal digits that %o prints are the octal ones exactly for numbers below eight. */
  lemma OctalExactly(n: nat)
    ensures Numeral(Digits(n, 16, false), n, 8, false) <==> n < 8
  {
    DigitsAre(n, 16, false);
    var x := Digits(n, 16, false);
    if n < 8 {
    } else if Numeral(x, n, 8, false) {
      TwoBases(x, n, n);
    }
  }

  /** Digits that write m in base 16 and n in base 8 write no more in base 8, and less from 8 on. */
  lemma {:induction false} TwoBases(x: Text, m: nat, n: nat)
    requires Numeral(x, m, 16, false) && Numeral(x, n, 8, false)
    ensures n <= m && (|x| > 1 && n >= 8 ==> n < m)
    ensures |x| == 1 ==> n < 8
  {
    HexTable(m % 16);
    HexTable(n % 8);
    if |x| > 1 {
      TwoBases(x[..|x| - 1], m / 16, n / 8);
    }
  }

  // ---- Characters, strings and text ------------------------------------------------------------------

  /** %c: the low byte of the argument, in a field of the width. */
  lemma CharPrinted(fmt: Text, i: nat, args: seq<Arg>, d: Directive, n: int)
    requires WellFormed(d) && Has(fmt, i, Spelled(d)) && d.conv == 'c'
    requires Left(d, args) != [] && Left(d, args)[0] == Int(n)
    ensures var gap := Fill(WidthOf(d, args) - 1, ' ' as int);
      Output(fmt, i, args) ==
      (if ToLeft(d, args) then [n % 256] + gap else gap + [n % 256])
      + Output(fmt, i + |Spelled(d)|, Left(d, args)[1..])
  {
    hide Has, Spelled, ReadSpec, WidthOf, PrecisionOf, ToLeft, Ends, Fill;
    SpecRead(fmt, i, args, d);
    var gap := Fill(WidthOf(d, args) - 1, SPACE);
    assert [] + [n % 256] + gap == [n % 256] + gap;
    assert gap + [n % 256] + [] == gap + [n % 256];
  }

  lemma StringField(s: Spec)
    ensures var whole := NextStr(s.args);
      var x := if 0 < s.precision < |whole| then whole[..s.precision] else whole;
      var gap := Fill(s.width - |x|, ' ' as int);
      StringText(s) == if s.f.left then x + gap else gap + x
  {
    var whole := NextStr(s.args);
    var x := if 0 < s.precision < |whole| then whole[..s.precision] else whole;
    var gap := Fill(s.width - |x|, SPACE);
    hide Fill, NextStr;
    assert [] + x + gap == x + gap && gap + x + [] == gap + x;
  }

  /** The bytes of a string argument; a null pointer stands for a text of its own. */
  function StringOf(a: Arg): Text {
    match a case Str(s) => s case Int(n) => Ascii("(NULL)")
  }

  /** %s: the bytes of the argument, cut at a positive precision, in a field of the width. */
  lemma StringPrinted(fmt: Text, i: nat, args: seq<Arg>, d: Directive)
    requires WellFormed(d) && Has(fmt, i, Spelled(d)) && d.conv == 's' && Left(d, args) != []
    ensures var whole, p := StringOf(Left(d, args)[0]), PrecisionOf(d, args);
      var x := if 0 < p < |whole| then whole[..p] else whole;
      var gap := Fill(WidthOf(d, args) - |x|, ' ' as int);
      Output(fmt, i, args) ==
      (if ToLeft(d, args) then x + gap else gap + x) + Output(fmt, i + |Spelled(d)|, Left(d, args)[1..])
  {
    hide Has, Spelled, ReadSpec, WidthOf, PrecisionOf, ToLeft, Ends, Fill, StringText;
    SpecRead(fmt, i, args, d);
    assert Ascii("(NULL)") == [40, 78, 85, 76, 76, 41];
    StringField(ReadSpec(fmt, i + 1, args));
  }

  /** %%: a percent sign, and no argument is taken for it. */
  lemma PercentPrinted(fmt: Text, i: nat, args: seq<Arg>, d: Directive)
    requires WellFormed(d) && Has(fmt, i, Spelled(d)) && d.conv == '%'
    ensures Output(fmt, i, args) == ['%' as int] + Output(fmt, i + |Spelled(d)|, Left(d, args))
  {
    hide Has, Spelled, ReadSpec, WidthOf, PrecisionOf, ToLeft, Ends;
    SpecRead(fmt, i, args, d);
  }

  /** Any other character is printed behind a percent sign, and no argument is taken for it. */
  lemma UnknownPrinted(fmt: Text, i: nat, args: seq<Arg>, d: Directive)
    requires WellFormed(d) && Has(fmt, i, Spelled(d)) && !IsConversion(d.conv)
    ensures Output(fmt, i, args) == ['%' as int, d.conv as int] + Output(fmt, i + |Spelled(d)|, Left(d, args))
  {
    hide Has, Spelled, ReadSpec, WidthOf, PrecisionOf, ToLeft;
    SpecRead(fmt, i, args, d);
  }

  /** Text without percent signs is copied. */
  lemma {:induction false} TextCopied(fmt: Text, i: nat, args: seq<Arg>, x: Text)
    requires Has(fmt, i, x) && forall k | 0 <= k < |x| :: x[k] != 0 && x[k] != '%' as int
    ensures Output(fmt, i, args) == x + Output(fmt, i + |x|, args)
    decreases |x|
  {
    hide Has, Output;
    if x == [] {
      assert [] + Output(fmt, i, args) == Output(fmt, i, args);
    } else {
      assert x == [x[0]] + x[1..];
      HasSplit(fmt, i, [x[0]], x[1..]);
      HasAt(fmt, i, [x[0]], 0);
      OneCopied(fmt, i, args);
      TextCopied(fmt, i + 1, args, x[1..]);
      assert [x[0]] + (x[1..] + Output(fmt, i + |x|, args)) == x + Output(fmt, i + |x|, args);
    }
  }

  lemma OneCopied(fmt: Text, i: nat, args: seq<Arg>)
    requires At(fmt, i) != 0 && At(fmt, i) != '%' as int
    ensures Output(fmt, i, args) == [At(fmt, i)] + Output(fmt, i + 1, args)
  {
  }

  /** At the end of the format the output ends. */
  lemma EndPrinted(fmt: Text, args: seq<Arg>)
    ensures Output(fmt, |fmt|, args) == []
  {
  }
}
