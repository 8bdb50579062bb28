/** Texts whose string literals have complete escapes: parse_string stays inside such texts, the parser
    meets no other literal in them, and every print is one. */
module JsonLexed {
  import opened CText
  import opened JsonString
  import JsonNumber
  import Numerals
  import opened JsonTree
  import Trip = JsonRoundTrip

  /** Outside of literals, from index i on: every literal that begins there has complete escapes. */
  predicate Lexed(t: Text, i: nat)
    decreases |t| - i
  {
    if At(t, i) == 0 then true
    else if At(t, i) == QUOTE then InLiteral(t, i + 1)
    else Lexed(t, i + 1)
  }

  /** Inside of a literal: a backslash is followed by a byte, and a \u by four inner bytes. */
  predicate InLiteral(t: Text, i: nat)
    decreases |t| - i
  {
    if At(t, i) == 0 then true
    else if At(t, i) == QUOTE then Lexed(t, i + 1)
    else if At(t, i) != BACKSLASH then InLiteral(t, i + 1)
    else if At(t, i + 1) != LOWER_U then At(t, i + 1) != 0 && InLiteral(t, i + 2)
    else FourInner(t, i + 2) && InLiteral(t, i + 6)
  }

  // ---- Reading literals ------------------------------------------------------------------------

  lemma {:induction false} LiteralComplete(t: Text, i: nat)
    requires InLiteral(t, i)
    ensures EscapesWhole(t, i)
    decreases |t| - i
  {
    hide FourInner;
    if At(t, i) != 0 && At(t, i) != QUOTE {
      if At(t, i) != BACKSLASH {
        LiteralComplete(t, i + 1);
      } else if At(t, i + 1) != LOWER_U {
        LiteralComplete(t, i + 2);
      } else {
        LiteralComplete(t, i + 6);
      }
    }
  }

  /** An escape ends inside the literal. */
  lemma EscapeInside(t: Text, i: nat)
    requires InLiteral(t, i) && At(t, i) == BACKSLASH
    ensures InLiteral(t, Unescape1(t, i + 1).1)
  {
    hide ParseHex4, Utf8, Pair;
    if At(t, i + 1) == LOWER_U && UnescapeU(t, i + 1).1 != i + 6 {
      assert At(t, i + 6) == BACKSLASH && At(t, i + 7) == LOWER_U && InLiteral(t, i + 6);
    }
  }

  lemma {:induction false} LiteralEnds(t: Text, i: nat)
    requires InLiteral(t, i)
    ensures Lexed(t, Unescaped(t, i).1)
    decreases |t| - i
  {
    hide Unescape1, FourInner;
    if At(t, i) != 0 && At(t, i) != QUOTE {
      if At(t, i) != BACKSLASH {
        LiteralEnds(t, i + 1);
      } else {
        EscapeInside(t, i);
        LiteralEnds(t, Unescape1(t, i + 1).1);
      }
    }
  }

  lemma StringLexed(t: Text, i: nat)
    requires Lexed(t, i)
    ensures At(t, i) == QUOTE ==> EscapesWhole(t, i + 1)
    ensures ParseString(t, i).Some? ==> Lexed(t, ParseString(t, i).value.1)
  {
    hide Unescaped;
    if At(t, i) == QUOTE {
      LiteralComplete(t, i + 1);
      LiteralEnds(t, i + 1);
    }
  }

  // ---- Passing over other bytes ------------------------------------------------------------------

  predicate Plain(c: Byte) { c != 0 && c != QUOTE }

  lemma {:induction false} PassOver(t: Text, i: nat, j: nat)
    requires i <= j && forall k | i <= k < j :: Plain(At(t, k))
    ensures Lexed(t, i) == Lexed(t, j)
    decreases j - i
  {
    if i < j {
      PassOver(t, i + 1, j);
    }
  }

  lemma HasPlain(t: Text, i: nat, x: Text)
    requires Has(t, i, x) && forall k | 0 <= k < |x| :: Plain(x[k])
    ensures Lexed(t, i) == Lexed(t, i + |x|)
  {
    forall k | i <= k < i + |x| ensures Plain(At(t, k)) {
      HasAt(t, i, x, k - i);
    }
    PassOver(t, i, i + |x|);
  }

  lemma {:induction false} SkipLexed(t: Text, i: nat)
    ensures Lexed(t, Skip(t, i)) == Lexed(t, i)
    decreases |t| - i
  {
    if i < |t| && t[i] != 0 && t[i] <= SPACE {
      SkipLexed(t, i + 1);
    }
  }

  lemma {:induction false} DigitsLexed(t: Text, i: nat, n: int)
    ensures Lexed(t, Numerals.ReadDigits(t, i, n).1) == Lexed(t, i)
    decreases |t| - i
  {
    if Numerals.IsDigit(At(t, i)) {
      DigitsLexed(t, i + 1, n * 10 + (At(t, i) - ZERO) as int);
    }
  }

  lemma FractionLexed(t: Text, i: nat, n: int)
    ensures Lexed(t, JsonNumber.Fraction(t, i, n).1) == Lexed(t, i)
  {
    hide Numerals.ReadDigits;
    DigitsLexed(t, i + 1, n);
  }

  lemma ExponentLexed(t: Text, i: nat)
    ensures Lexed(t, JsonNumber.Exponent(t, i).1) == Lexed(t, i)
  {
    hide Numerals.ReadDigits;
    DigitsLexed(t, i + 1, 0);
    DigitsLexed(t, i + 2, 0);
  }

  lemma NumberLexed(t: Text, i: nat)
    ensures Lexed(t, JsonNumber.ParseNumber(t, i).1) == Lexed(t, i)
  {
    hide Numerals.ReadDigits, JsonNumber.Fraction, JsonNumber.Exponent;
    var a := if At(t, i) == MINUS then i + 1 else i;
    var b := if At(t, a) == ZERO then a + 1 else a;
    DigitsLexed(t, b, 0);
    var (n, c) := if ZERO < At(t, b) <= NINE then Numerals.ReadDigits(t, b, 0) else (0, b);
    FractionLexed(t, c, n);
    ExponentLexed(t, JsonNumber.Fraction(t, c, n).1);
    assert Lexed(t, b) == Lexed(t, i);
  }

  // ---- Parsing stays outside of literals -----------------------------------------------------------

  lemma ConstantLexed(t: Text, i: nat, x: Text)
    requires Has(t, i, x) && (x == NULL_TEXT || x == FALSE_TEXT || x == TRUE_TEXT)
    ensures Lexed(t, i) == Lexed(t, i + |x|)
  {
    HasPlain(t, i, x);
  }

  lemma {:induction false} ValueLexed(t: Text, i: nat)
    requires Lexed(t, i)
    ensures ParseValue(t, i).Some? ==> Lexed(t, ParseValue(t, i).value.1)
    decreases |t| - i, 1
  {
    hide Has, ParseList, ParseObject, Unescaped, Lexed, JsonNumber.ParseNumber;
    if Has(t, i, NULL_TEXT) {
      ConstantLexed(t, i, NULL_TEXT);
    } else if Has(t, i, FALSE_TEXT) {
      ConstantLexed(t, i, FALSE_TEXT);
    } else if Has(t, i, TRUE_TEXT) {
      ConstantLexed(t, i, TRUE_TEXT);
    } else if At(t, i) == QUOTE {
      StringLexed(t, i);
    } else if At(t, i) == MINUS || Numerals.IsDigit(At(t, i)) {
      NumberLexed(t, i);
    } else if At(t, i) == OPEN_LIST {
      ListLexed(t, i);
    } else if At(t, i) == OPEN_OBJECT {
      ObjectLexed(t, i);
    }
  }

  /** One plain byte. */
  lemma NextLexed(t: Text, i: nat)
    requires Lexed(t, i) && Plain(At(t, i))
    ensures Lexed(t, i + 1)
  {
  }

  lemma {:induction false} ListLexed(t: Text, i: nat)
    requires Lexed(t, i) && At(t, i) == OPEN_LIST
    ensures ParseList(t, i).Some? ==> Lexed(t, ParseList(t, i).value.1)
    decreases |t| - i, 0
  {
    hide Lexed, Skip, ParseItems;
    NextLexed(t, i);
    SkipLexed(t, i + 1);
    var first := Skip(t, i + 1);
    if At(t, first) == CLOSE_LIST {
      NextLexed(t, first);
    } else {
      ItemsLexed(t, first);
      var r := ParseItems(t, first);
      if r.Some? && At(t, r.value.1) == CLOSE_LIST {
        NextLexed(t, r.value.1);
      }
    }
  }

  lemma {:induction false} ItemsLexed(t: Text, i: nat)
    requires Lexed(t, i)
    ensures ParseItems(t, i).Some? ==> Lexed(t, ParseItems(t, i).value.1)
    decreases |t| - i, 2
  {
    assert i > |t| ==> Skip(t, i) == i;
    hide Lexed, Skip, ParseValue;
    SkipLexed(t, i);
    ValueLexed(t, Skip(t, i));
    var r := ParseValue(t, Skip(t, i));
    if r.Some? {
      var next := Skip(t, r.value.1);
      SkipLexed(t, r.value.1);
      if At(t, next) == COMMA {
        NextLexed(t, next);
        ItemsLexed(t, next + 1);
      }
    }
  }

  lemma {:induction false} ObjectLexed(t: Text, i: nat)
    requires Lexed(t, i) && At(t, i) == OPEN_OBJECT
    ensures ParseObject(t, i).Some? ==> Lexed(t, ParseObject(t, i).value.1)
    decreases |t| - i, 0
  {
    hide Lexed, Skip, ParseMembers;
    NextLexed(t, i);
    SkipLexed(t, i + 1);
    var first := Skip(t, i + 1);
    if At(t, first) == CLOSE_OBJECT {
      NextLexed(t, first);
    } else {
      MembersLexed(t, first);
      var r := ParseMembers(t, first);
      if r.Some? && At(t, r.value.1) == CLOSE_OBJECT {
        NextLexed(t, r.value.1);
      }
    }
  }

  /** A name, its colon, and where the value starts. */
  lemma NameLexed(t: Text, i: nat)
    requires Lexed(t, i)
    ensures At(t, Skip(t, i)) == QUOTE ==> EscapesWhole(t, Skip(t, i) + 1)
    ensures var name := ParseString(t, Skip(t, i));
      name.Some? && At(t, Skip(t, name.value.1)) == COLON ==> Lexed(t, Skip(t, Skip(t, name.value.1) + 1))
  {
    hide Lexed, Skip, ParseString;
    SkipLexed(t, i);
    StringLexed(t, Skip(t, i));
    var name := ParseString(t, Skip(t, i));
    if name.Some? && At(t, Skip(t, name.value.1)) == COLON {
      SkipLexed(t, name.value.1);
      NextLexed(t, Skip(t, name.value.1));
      SkipLexed(t, Skip(t, name.value.1) + 1);
    }
  }

  lemma {:induction false} MembersLexed(t: Text, i: nat)
    requires Lexed(t, i)
    ensures ParseMembers(t, i).Some? ==> Lexed(t, ParseMembers(t, i).value.1)
    decreases |t| - i, 2
  {
    hide Lexed, Skip, ParseValue, ParseString;
    NameLexed(t, i);
    var name := ParseString(t, Skip(t, i));
    if name.Some? && At(t, Skip(t, name.value.1)) == COLON {
      var start := Skip(t, Skip(t, name.value.1) + 1);
      MemberStart(t, i);
      ValueLexed(t, start);
      var r := ParseValue(t, start);
      if r.Some? {
        var next := Skip(t, r.value.1);
        SkipLexed(t, r.value.1);
        if At(t, next) == COMMA {
          NextLexed(t, next);
          MembersLexed(t, next + 1);
        }
      }
    }
  }

  /** The value starts behind the name. */
  lemma MemberStart(t: Text, i: nat)
    requires ParseString(t, Skip(t, i)).Some?
    ensures Skip(t, Skip(t, ParseString(t, Skip(t, i)).value.1) + 1) > i
    ensures i < |t|
  {
    hide Unescaped, Skip;
  }

  // ---- Prints are lexed ----------------------------------------------------------------------------

  lemma {:induction false} EscapedLexed(t: Text, i: nat, s: Text)
    requires NoZero(s) && Has(t, i, Escaped(s) + [QUOTE]) && Lexed(t, i + |Escaped(s)| + 1)
    ensures InLiteral(t, i)
    decreases |s|
  {
    hide Escape, Has;
    if s == [] {
      assert Escaped(s) + [QUOTE] == [QUOTE];
      HasAt(t, i, [QUOTE], 0);
    } else {
      var e, rest := Escape(s[0]), Escaped(s[1..]);
      assert Escaped(s) + [QUOTE] == e + (rest + [QUOTE]);
      HasSplit(t, i, e, rest + [QUOTE]);
      EscapedLexed(t, i + |e|, s[1..]);
      EscapeLexed(t, i, s[0]);
    }
  }

  lemma EscapeLexed(t: Text, i: nat, c: Byte)
    requires c != 0 && Has(t, i, Escape(c)) && InLiteral(t, i + |Escape(c)|)
    ensures InLiteral(t, i)
  {
    var e := Escape(c);
    HasAt(t, i, e, 0);
    if c <= 31 || c == QUOTE || c == BACKSLASH {
      HasAt(t, i, e, 1);
      if Letter(c) == 0 {
        HasSplit(t, i, [BACKSLASH, LOWER_U], Hex4(c));
        HexInner(t, i + 2, c);
      }
    }
    hide Has, Hex4, FourInner;
  }

  lemma HexInner(t: Text, i: nat, n: int)
    requires 0 <= n < 0x10000 && Has(t, i, Hex4(n))
    ensures FourInner(t, i)
  {
    hide Has;
    var h := Hex4(n);
    HasAt(t, i, h, 0);
    HasAt(t, i, h, 1);
    HasAt(t, i, h, 2);
    HasAt(t, i, h, 3);
  }

  lemma LiteralLexed(t: Text, i: nat, s: Text)
    requires NoZero(s) && Has(t, i, Literal(s)) && Lexed(t, i + |Literal(s)|)
    ensures Lexed(t, i)
  {
    hide Escaped, Has;
    assert Literal(s) == [QUOTE] + (Escaped(s) + [QUOTE]);
    HasSplit(t, i, [QUOTE], Escaped(s) + [QUOTE]);
    HasAt(t, i, [QUOTE], 0);
    EscapedLexed(t, i + 1, s);
  }

  lemma DecimalLexed(t: Text, i: nat, n: int)
    requires Has(t, i, JsonNumber.Decimal(n))
    ensures Lexed(t, i) == Lexed(t, i + |JsonNumber.Decimal(n)|)
  {
    hide JsonNumber.Decimal, Has;
    JsonNumber.DecimalBytes(n);
    HasPlain(t, i, JsonNumber.Decimal(n));
  }

  lemma {:induction false} PrintLexed(t: Text, i: nat, j: Json, depth: nat, fmt: bool)
    requires Printable(j) && Has(t, i, Print(j, depth, fmt)) && Lexed(t, i + |Print(j, depth, fmt)|)
    ensures Lexed(t, i)
    decreases j, 1
  {
    hide Has, Lexed, Literal, JsonNumber.Decimal;
    match j {
      case Null => ConstantLexed(t, i, NULL_TEXT);
      case False => ConstantLexed(t, i, FALSE_TEXT);
      case True => ConstantLexed(t, i, TRUE_TEXT);
      case Num(n) => DecimalLexed(t, i, n.mantissa);
      case Str(s) => LiteralLexed(t, i, s);
      case List(items) => PrintListLexed(t, i, items, depth, fmt);
      case Object(ms) => PrintObjectLexed(t, i, ms, depth, fmt);
    }
  }

  lemma {:induction false} PrintListLexed(t: Text, i: nat, items: seq<Json>, depth: nat, fmt: bool)
    requires Printable(List(items)) && Has(t, i, Print(List(items), depth, fmt))
    requires Lexed(t, i + |Print(List(items), depth, fmt)|)
    ensures Lexed(t, i)
    decreases List(items), 0
  {
    hide Has, Print, PrintItems, Lexed;
    if items == [] {
      Trip.PrintEmptyList(depth, fmt);
      HasPlain(t, i, [OPEN_LIST] + [CLOSE_LIST]);
    } else {
      var x := PrintItems(items, depth + 1, fmt);
      Trip.PrintList(items, depth, fmt);
      HasSplit(t, i, [OPEN_LIST] + x, [CLOSE_LIST]);
      HasSplit(t, i, [OPEN_LIST], x);
      HasPlain(t, i + 1 + |x|, [CLOSE_LIST]);
      PrintItemsLexed(t, i + 1, items, depth + 1, fmt);
      HasPlain(t, i, [OPEN_LIST]);
    }
  }

  lemma {:induction false} PrintItemsLexed(t: Text, i: nat, items: seq<Json>, depth: nat, fmt: bool)
    requires (forall k | 0 <= k < |items| :: Printable(items[k])) && Has(t, i, PrintItems(items, depth, fmt))
    requires Lexed(t, i + |PrintItems(items, depth, fmt)|)
    ensures Lexed(t, i)
    decreases items
  {
    hide Has, Print, Printable, Comma, PrintItems, Lexed;
    if items == [] {
      Trip.NoItems(depth, fmt);
    } else {
      var p, gap := Print(items[0], depth, fmt), Comma(|items| > 1, fmt);
      Trip.ItemParts(t, i, items, depth, fmt);
      PrintItemsLexed(t, i + |p| + |gap|, items[1..], depth, fmt);
      CommaLexed(t, i + |p|, |items| > 1, fmt);
      PrintLexed(t, i, items[0], depth, fmt);
    }
  }

  lemma CommaLexed(t: Text, i: nat, more: bool, fmt: bool)
    requires Has(t, i, Comma(more, fmt))
    ensures Lexed(t, i) == Lexed(t, i + |Comma(more, fmt)|)
  {
    hide Has, Lexed;
    HasPlain(t, i, Comma(more, fmt));
  }

  lemma {:induction false} PrintObjectLexed(t: Text, i: nat, ms: seq<Member>, depth: nat, fmt: bool)
    requires Printable(Object(ms)) && Has(t, i, Print(Object(ms), depth, fmt))
    requires Lexed(t, i + |Print(Object(ms), depth, fmt)|)
    ensures Lexed(t, i)
    decreases Object(ms), 0
  {
    hide Has, Print, PrintMembers, Lexed, OpenLine, CloseLine;
    if ms == [] {
      Trip.PrintEmptyObject(depth, fmt);
      HasSplit(t, i, OpenLine(fmt), CloseLine(depth - 1, fmt));
      CloseLexed(t, i + |OpenLine(fmt)|, depth - 1, fmt);
    } else {
      var start := i + |OpenLine(fmt)|;
      var end := start + |PrintMembers(ms, depth + 1, fmt)|;
      Trip.ObjectParts(t, i, ms, depth, fmt);
      CloseLexed(t, end, depth, fmt);
      PrintMembersLexed(t, start, ms, depth + 1, fmt);
    }
    OpenLexed(t, i, fmt);
  }

  lemma OpenLexed(t: Text, i: nat, fmt: bool)
    requires Has(t, i, OpenLine(fmt))
    ensures Lexed(t, i) == Lexed(t, i + |OpenLine(fmt)|)
  {
    hide Has, Lexed;
    HasPlain(t, i, OpenLine(fmt));
  }

  lemma TabsLexed(t: Text, i: nat, depth: int, fmt: bool)
    requires Has(t, i, Fmt(fmt, Tabs(depth)))
    ensures Lexed(t, i) == Lexed(t, i + |Fmt(fmt, Tabs(depth))|)
  {
    hide Has, Lexed, Tabs;
    Trip.TabsAreTabs(depth);
    HasPlain(t, i, Fmt(fmt, Tabs(depth)));
  }

  lemma CloseLexed(t: Text, i: nat, depth: int, fmt: bool)
    requires Has(t, i, CloseLine(depth, fmt))
    ensures Lexed(t, i) == Lexed(t, i + |CloseLine(depth, fmt)|)
  {
    hide Has, Lexed, Tabs, Fmt;
    HasSplit(t, i, Fmt(fmt, Tabs(depth)), [CLOSE_OBJECT]);
    TabsLexed(t, i, depth, fmt);
    HasPlain(t, i + |Fmt(fmt, Tabs(depth))|, [CLOSE_OBJECT]);
  }

  lemma ColonLexed(t: Text, i: nat, fmt: bool)
    requires Has(t, i, Colon(fmt))
    ensures Lexed(t, i) == Lexed(t, i + |Colon(fmt)|)
  {
    hide Has, Lexed;
    HasPlain(t, i, Colon(fmt));
  }

  lemma TailLexed(t: Text, i: nat, more: bool, fmt: bool)
    requires Has(t, i, Tail(more, fmt))
    ensures Lexed(t, i) == Lexed(t, i + |Tail(more, fmt)|)
  {
    hide Has, Lexed;
    HasPlain(t, i, Tail(more, fmt));
  }

  lemma {:induction false} PrintMembersLexed(t: Text, i: nat, ms: seq<Member>, depth: nat, fmt: bool)
    requires forall k | 0 <= k < |ms| :: NoZero(ms[k].name) && Printable(ms[k].value)
    requires Has(t, i, PrintMembers(ms, depth, fmt)) && Lexed(t, i + |PrintMembers(ms, depth, fmt)|)
    ensures Lexed(t, i)
    decreases ms
  {
    hide Has, Print, Printable, NoZero, PrintMembers, Lexed, Literal, Tabs, Fmt, Colon, Tail;
    if ms == [] {
      Trip.NoMembers(depth, fmt);
    } else {
      var l := Trip.LayoutOf(ms, depth, fmt);
      Trip.MemberParts(t, i, ms, depth, fmt);
      PrintMembersLexed(t, Trip.ToRest(l, i), ms[1..], depth, fmt);
      TailLexed(t, Trip.ToTail(l, i), |ms| > 1, fmt);
      PrintLexed(t, Trip.ToValue(l, i), ms[0].value, depth, fmt);
      ColonLexed(t, Trip.ToGap(l, i), fmt);
      LiteralLexed(t, Trip.ToName(l, i), ms[0].name);
      TabsLexed(t, i, depth, fmt);
    }
  }

  /** What cJSON_Print and cJSON_PrintUnformatted give is lexed from its first byte on. */
  lemma WholePrintLexed(j: Json, fmt: bool)
    requires Printable(j)
    ensures Lexed(Print(j, 0, fmt), 0)
  {
    hide Print, Printable;
    var t := Print(j, 0, fmt);
    assert t[0..0 + |t|] == t;
    PrintLexed(t, 0, j, 0, fmt);
  }
}
