/** Parsing what was printed, formatted or not, gives the tree back. */
module JsonRoundTrip {
  import opened CText
  import opened Options
  import JsonString
  import JsonNumber
  import opened JsonTree

  /** A value starts with a byte that is not whitespace and closes nothing. */
  lemma FirstByte(j: Json, depth: nat, fmt: bool)
    ensures |Print(j, depth, fmt)| > 0
    ensures var c := Print(j, depth, fmt)[0]; c > SPACE && c != CLOSE_LIST && c != CLOSE_OBJECT
  {
    hide JsonString.Escaped, PrintItems, PrintMembers, Tabs, JsonNumber.Decimal;
    if j.Num? {
      JsonNumber.DecimalBytes(j.number.mantissa);
    }
  }

  lemma FirstOfItems(items: seq<Json>, depth: nat, fmt: bool)
    requires items != []
    ensures |PrintItems(items, depth, fmt)| > 0
    ensures PrintItems(items, depth, fmt)[0] == Print(items[0], depth, fmt)[0]
  {
    FirstByte(items[0], depth, fmt);
    hide Print;
  }

  lemma NotText(t: Text, i: nat, x: Text)
    requires x != [] && At(t, i) != x[0]
    ensures !Has(t, i, x)
  {
    if i + |x| <= |t| {
      assert t[i..i + |x|][0] == t[i];
    }
  }

  // ---- Whitespace ----------------------------------------------------------------------------

  lemma {:induction false} TabsAreTabs(n: int)
    ensures forall k | 0 <= k < |Tabs(n)| :: Tabs(n)[k] == TAB
    decreases n
  {
    if n > 0 {
      TabsAreTabs(n - 1);
    }
  }

  /** A text of whitespace is skipped. */
  lemma SkipText(t: Text, i: nat, x: Text)
    requires Has(t, i, x) && forall k | 0 <= k < |x| :: 0 < x[k] <= SPACE
    ensures Skip(t, i) == Skip(t, i + |x|)
  {
    forall k | i <= k < i + |x| ensures 0 < t[k] <= SPACE {
      HasAt(t, i, x, k - i);
    }
    SkipOver(t, i, i + |x|);
  }

  lemma {:induction false} SkipTwice(t: Text, i: nat)
    ensures Skip(t, Skip(t, i)) == Skip(t, i)
    decreases |t| - i
  {
    if i < |t| && t[i] != 0 && t[i] <= SPACE {
      SkipTwice(t, i + 1);
    }
  }

  /** Whitespace in front of items or members does not matter. */
  lemma ItemsAfterSpace(t: Text, i: nat, j: nat)
    requires Skip(t, i) == Skip(t, j)
    ensures ParseItems(t, i) == ParseItems(t, j)
  {
    hide ParseValue;
  }

  lemma MembersAfterSpace(t: Text, i: nat, j: nat)
    requires Skip(t, i) == Skip(t, j)
    ensures ParseMembers(t, i) == ParseMembers(t, j)
  {
    hide ParseValue, JsonString.ParseString;
  }

  // ---- Leaves --------------------------------------------------------------------------------

  /** No byte below is the first of a constant. */
  lemma NoConstant(t: Text, i: nat)
    requires At(t, i) != 110 && At(t, i) != 102 && At(t, i) != 116
    ensures !Has(t, i, NULL_TEXT) && !Has(t, i, FALSE_TEXT) && !Has(t, i, TRUE_TEXT)
  {
    NotText(t, i, NULL_TEXT);
    NotText(t, i, FALSE_TEXT);
    NotText(t, i, TRUE_TEXT);
  }

  lemma LiteralQuote(t: Text, i: nat, s: Text)
    requires Has(t, i, JsonString.Literal(s))
    ensures At(t, i) == QUOTE && JsonString.ParseString(t, i).Some?
  {
    HasAt(t, i, JsonString.Literal(s), 0);
    hide Has;
  }

  lemma LeafTrip(t: Text, i: nat, j: Json, depth: nat, fmt: bool)
    requires Printable(j) && !j.List? && !j.Object?
    requires Has(t, i, Print(j, depth, fmt)) && JsonNumber.Stops(At(t, i + |Print(j, depth, fmt)|))
    ensures ParseValue(t, i) == Some((j, i + |Print(j, depth, fmt)|))
  {
    hide Has, JsonNumber.ParseNumber, JsonString.ParseString, JsonNumber.Decimal, JsonString.Literal;
    match j {
      case Null =>
      case False =>
        HasAt(t, i, FALSE_TEXT, 0);
        NotText(t, i, NULL_TEXT);
      case True =>
        HasAt(t, i, TRUE_TEXT, 0);
        NotText(t, i, NULL_TEXT);
        NotText(t, i, FALSE_TEXT);
      case Num(n) =>
        JsonNumber.ReadBack(t, i, n.mantissa);
        NoConstant(t, i);
      case Str(s) =>
        JsonString.ReadBack(t, i, s);
        LiteralQuote(t, i, s);
        NoConstant(t, i);
    }
  }

  // ---- Arrays --------------------------------------------------------------------------------

  lemma {:induction false} Trip(t: Text, i: nat, j: Json, depth: nat, fmt: bool)
    requires Printable(j)
    requires Has(t, i, Print(j, depth, fmt)) && JsonNumber.Stops(At(t, i + |Print(j, depth, fmt)|))
    ensures ParseValue(t, i) == Some((j, i + |Print(j, depth, fmt)|))
    decreases j, 1
  {
    match j
    case List(items) => ListTrip(t, i, items, depth, fmt);
    case Object(ms) => ObjectTrip(t, i, ms, depth, fmt);
    case _ => LeafTrip(t, i, j, depth, fmt);
  }

  lemma {:induction false} ListTrip(t: Text, i: nat, items: seq<Json>, depth: nat, fmt: bool)
    requires Printable(List(items)) && Has(t, i, Print(List(items), depth, fmt))
    ensures ParseValue(t, i) == Some((List(items), i + |Print(List(items), depth, fmt)|))
    decreases List(items), 0
  {
    hide Has, Print, PrintItems, ParseItems;
    if items == [] {
      assert Print(List(items), depth, fmt) == [OPEN_LIST] + [CLOSE_LIST] by { PrintEmptyList(depth, fmt); }
      HasSplit(t, i, [OPEN_LIST], [CLOSE_LIST]);
      HasAt(t, i + 1, [CLOSE_LIST], 0);
      SkipStops(t, i + 1);
    } else {
      var x := PrintItems(items, depth + 1, fmt);
      PrintList(items, depth, fmt);
      HasSplit(t, i, [OPEN_LIST] + x, [CLOSE_LIST]);
      HasSplit(t, i, [OPEN_LIST], x);
      HasAt(t, i + 1 + |x|, [CLOSE_LIST], 0);
      FirstOfItems(items, depth + 1, fmt);
      FirstByte(items[0], depth + 1, fmt);
      HasAt(t, i + 1, x, 0);
      SkipStops(t, i + 1);
      ItemsTrip(t, i + 1, items, depth + 1, fmt);
    }
    HasAt(t, i, [OPEN_LIST], 0);
    NoConstant(t, i);
  }

  lemma PrintEmptyList(depth: nat, fmt: bool)
    ensures Print(List([]), depth, fmt) == [OPEN_LIST] + [CLOSE_LIST]
  {
  }

  lemma PrintList(items: seq<Json>, depth: nat, fmt: bool)
    requires items != []
    ensures Print(List(items), depth, fmt) == [OPEN_LIST] + PrintItems(items, depth + 1, fmt) + [CLOSE_LIST]
  {
  }

  lemma OneItem(t: Text, i: nat, item: Json, next: nat)
    requires ParseValue(t, Skip(t, i)) == Some((item, next)) && Skip(t, next) == next && At(t, next) != COMMA
    ensures ParseItems(t, i) == Some(([item], next))
  {
    hide ParseValue;
  }

  lemma MoreItems(t: Text, i: nat, item: Json, next: nat, rest: seq<Json>, last: nat)
    requires ParseValue(t, Skip(t, i)) == Some((item, next)) && Skip(t, next) == next && At(t, next) == COMMA
    requires ParseItems(t, next + 1) == Some((rest, last))
    ensures ParseItems(t, i) == Some(([item] + rest, last))
  {
    hide ParseValue;
  }

  lemma ItemStarts(t: Text, i: nat, j: Json, depth: nat, fmt: bool)
    requires Has(t, i, Print(j, depth, fmt))
    ensures Skip(t, i) == i
  {
    FirstByte(j, depth, fmt);
    HasAt(t, i, Print(j, depth, fmt), 0);
    SkipStops(t, i);
    hide Print, Has;
  }

  /** The comma, and the space behind it in formatted text. */
  lemma CommaGap(t: Text, i: nat, fmt: bool)
    requires Has(t, i, Comma(true, fmt))
    ensures At(t, i) == COMMA && Skip(t, i) == i
    ensures ParseItems(t, i + 1) == ParseItems(t, i + |Comma(true, fmt)|)
  {
    HasSplit(t, i, [COMMA], Fmt(fmt, [SPACE]));
    HasAt(t, i, [COMMA], 0);
    SkipStops(t, i);
    if fmt {
      SkipText(t, i + 1, [SPACE]);
      ItemsAfterSpace(t, i + 1, i + 2);
    }
  }

  /** Where the parts of printed items lie. */
  lemma ItemParts(t: Text, i: nat, items: seq<Json>, depth: nat, fmt: bool)
    requires items != [] && Has(t, i, PrintItems(items, depth, fmt))
    ensures var p, gap := Print(items[0], depth, fmt), Comma(|items| > 1, fmt);
      && Has(t, i, p) && Has(t, i + |p|, gap) && Has(t, i + |p| + |gap|, PrintItems(items[1..], depth, fmt))
      && |PrintItems(items, depth, fmt)| == |p| + |gap| + |PrintItems(items[1..], depth, fmt)|
  {
    hide Has, Print, Comma, PrintItems;
    var p, gap := Print(items[0], depth, fmt), Comma(|items| > 1, fmt);
    ItemsCons(items, depth, fmt);
    HasSplit(t, i, p + gap, PrintItems(items[1..], depth, fmt));
    HasSplit(t, i, p, gap);
  }

  lemma ItemsCons(items: seq<Json>, depth: nat, fmt: bool)
    requires items != []
    ensures PrintItems(items, depth, fmt) ==
      Print(items[0], depth, fmt) + Comma(|items| > 1, fmt) + PrintItems(items[1..], depth, fmt)
  {
    hide Print, Comma;
  }

  lemma NoItems(depth: nat, fmt: bool)
    ensures PrintItems([], depth, fmt) == [] && Comma(false, fmt) == []
  {
  }

  lemma {:induction false} ItemsTrip(t: Text, i: nat, items: seq<Json>, depth: nat, fmt: bool)
    requires items != [] && (forall k | 0 <= k < |items| :: Printable(items[k]))
    requires Has(t, i, PrintItems(items, depth, fmt)) && At(t, i + |PrintItems(items, depth, fmt)|) == CLOSE_LIST
    ensures ParseItems(t, i) == Some((items, i + |PrintItems(items, depth, fmt)|))
    decreases items
  {
    hide Has, Print, PrintItems, ParseItems, Skip, Comma, ParseValue, Printable;
    var next := i + |Print(items[0], depth, fmt)|;
    ItemParts(t, i, items, depth, fmt);
    ItemStarts(t, i, items[0], depth, fmt);
    if |items| == 1 {
      NoItems(depth, fmt);
      assert items == [items[0]] && items[1..] == [];
      SkipStops(t, next);
      Trip(t, i, items[0], depth, fmt);
      OneItem(t, i, items[0], next);
    } else {
      CommaGap(t, next, fmt);
      Trip(t, i, items[0], depth, fmt);
      ItemsTrip(t, next + |Comma(true, fmt)|, items[1..], depth, fmt);
      assert items == [items[0]] + items[1..];
      MoreItems(t, i, items[0], next, items[1..], i + |PrintItems(items, depth, fmt)|);
    }
  }

  // ---- Objects -------------------------------------------------------------------------------

  lemma PrintEmptyObject(depth: nat, fmt: bool)
    ensures Print(Object([]), depth, fmt) == OpenLine(fmt) + CloseLine(depth - 1, fmt)
  {
  }

  lemma {:induction false} TabsLength(n: int)
    ensures |Tabs(n)| == if n > 0 then n else 0
    decreases n
  {
    if n > 0 {
      TabsLength(n - 1);
    }
  }

  /** The closing brace of an empty object stands one tab to the left of where that of any other object at
      the same depth stands, except at depth 0. */
  lemma EmptyObjectIndent(depth: nat)
    ensures Print(Object([]), depth, true) == OpenLine(true) + CloseLine(depth, true) <==> depth == 0
    ensures |Print(Object([]), depth, true)| == 3 + if depth > 0 then depth - 1 else 0
  {
    PrintEmptyObject(depth, true);
    TabsLength(depth);
    TabsLength(depth - 1);
    hide Tabs;
    if depth == 0 {
      assert Tabs(depth) == Tabs(depth - 1);
    }
  }

  lemma PrintObject(ms: seq<Member>, depth: nat, fmt: bool)
    requires ms != []
    ensures Print(Object(ms), depth, fmt) == OpenLine(fmt) + PrintMembers(ms, depth + 1, fmt) + CloseLine(depth, fmt)
  {
  }

  /** Formatting whitespace between i and a byte above it. */
  lemma SkipFmt(t: Text, i: nat, x: Text, fmt: bool)
    requires Has(t, i, Fmt(fmt, x)) && forall k | 0 <= k < |x| :: 0 < x[k] <= SPACE
    ensures Skip(t, i) == Skip(t, i + |Fmt(fmt, x)|)
  {
    if fmt {
      SkipText(t, i, x);
    }
  }

  lemma OpenParts(t: Text, i: nat, fmt: bool)
    requires Has(t, i, OpenLine(fmt))
    ensures At(t, i) == OPEN_OBJECT && Skip(t, i + 1) == Skip(t, i + |OpenLine(fmt)|)
  {
    HasSplit(t, i, [OPEN_OBJECT], Fmt(fmt, [NEWLINE]));
    HasAt(t, i, [OPEN_OBJECT], 0);
    SkipFmt(t, i + 1, [NEWLINE], fmt);
  }

  lemma CloseParts(t: Text, i: nat, depth: int, fmt: bool)
    requires Has(t, i, CloseLine(depth, fmt))
    ensures Skip(t, i) + 1 == i + |CloseLine(depth, fmt)| && At(t, Skip(t, i)) == CLOSE_OBJECT
  {
    var tabs := Fmt(fmt, Tabs(depth));
    HasSplit(t, i, tabs, [CLOSE_OBJECT]);
    HasAt(t, i + |tabs|, [CLOSE_OBJECT], 0);
    TabsAreTabs(depth);
    SkipFmt(t, i, Tabs(depth), fmt);
    SkipStops(t, i + |tabs|);
  }

  lemma EmptyObjectTrip(t: Text, i: nat, depth: nat, fmt: bool)
    requires Has(t, i, Print(Object([]), depth, fmt))
    ensures ParseValue(t, i) == Some((Object([]), i + |Print(Object([]), depth, fmt)|))
  {
    hide Has, Print, OpenLine, CloseLine, Skip, ParseValue, ParseMembers;
    PrintEmptyObject(depth, fmt);
    HasSplit(t, i, OpenLine(fmt), CloseLine(depth - 1, fmt));
    OpenParts(t, i, fmt);
    CloseParts(t, i + |OpenLine(fmt)|, depth - 1, fmt);
    ObjectCase(t, i);
  }

  lemma ObjectShape(t: Text, i: nat, start: nat, ms: seq<Member>, end: nat)
    requires At(t, i) == OPEN_OBJECT && Skip(t, i + 1) == Skip(t, start) && At(t, Skip(t, start)) == QUOTE
    requires ParseMembers(t, start) == Some((ms, end)) && At(t, end) == CLOSE_OBJECT
    ensures ParseValue(t, i) == Some((Object(ms), end + 1))
  {
    hide ParseMembers, Skip, Has, ParseValue;
    SkipTwice(t, start);
    MembersAfterSpace(t, start, Skip(t, start));
    ObjectCase(t, i);
  }

  lemma ObjectCase(t: Text, i: nat)
    requires At(t, i) == OPEN_OBJECT
    ensures ParseValue(t, i) == ParseObject(t, i)
  {
    hide Has, ParseObject, ParseList;
    NoConstant(t, i);
  }

  /** Where the parts of a printed object lie. */
  lemma ObjectParts(t: Text, i: nat, ms: seq<Member>, depth: nat, fmt: bool)
    requires ms != [] && Has(t, i, Print(Object(ms), depth, fmt))
    ensures var start := i + |OpenLine(fmt)|;
      var end := start + |PrintMembers(ms, depth + 1, fmt)|;
      && Has(t, i, OpenLine(fmt)) && Has(t, start, PrintMembers(ms, depth + 1, fmt))
      && Has(t, end, CloseLine(depth, fmt))
      && i + |Print(Object(ms), depth, fmt)| == end + |CloseLine(depth, fmt)|
  {
    hide Has, Print, PrintMembers, OpenLine, CloseLine;
    PrintObject(ms, depth, fmt);
    var x := PrintMembers(ms, depth + 1, fmt);
    HasSplit(t, i, OpenLine(fmt) + x, CloseLine(depth, fmt));
    HasSplit(t, i, OpenLine(fmt), x);
  }

  lemma {:induction false} ObjectTrip(t: Text, i: nat, ms: seq<Member>, depth: nat, fmt: bool)
    requires Printable(Object(ms)) && Has(t, i, Print(Object(ms), depth, fmt))
    ensures ParseValue(t, i) == Some((Object(ms), i + |Print(Object(ms), depth, fmt)|))
    decreases Object(ms), 0
  {
    hide Has, Print, PrintMembers, ParseMembers, ParseValue, Skip, OpenLine, CloseLine;
    if ms == [] {
      EmptyObjectTrip(t, i, depth, fmt);
    } else {
      var start := i + |OpenLine(fmt)|;
      var end := start + |PrintMembers(ms, depth + 1, fmt)|;
      ObjectParts(t, i, ms, depth, fmt);
      OpenParts(t, i, fmt);
      CloseParts(t, end, depth, fmt);
      MembersTrip(t, start, ms, depth + 1, fmt);
      MembersStart(t, start, ms, depth + 1, fmt);
      ObjectShape(t, i, start, ms, Skip(t, end));
    }
  }

  /** The layout of one member in front of the rest. */
  datatype Layout = Layout(tabs: Text, name: Text, gap: Text, value: Text, tail: Text, rest: Text)

  function Whole(l: Layout): Text {
    l.tabs + l.name + l.gap + l.value + l.tail + l.rest
  }

  function LayoutOf(ms: seq<Member>, depth: nat, fmt: bool): Layout
    requires ms != []
  {
    Layout(Fmt(fmt, Tabs(depth)), JsonString.Literal(ms[0].name), Colon(fmt), Print(ms[0].value, depth, fmt),
           Tail(|ms| > 1, fmt), PrintMembers(ms[1..], depth, fmt))
  }

  function ToName(l: Layout, i: nat): nat { i + |l.tabs| }

  function ToGap(l: Layout, i: nat): nat { i + |l.tabs| + |l.name| }

  function ToValue(l: Layout, i: nat): nat { i + |l.tabs| + |l.name| + |l.gap| }

  function ToTail(l: Layout, i: nat): nat { i + |l.tabs| + |l.name| + |l.gap| + |l.value| }

  function ToRest(l: Layout, i: nat): nat { i + |l.tabs| + |l.name| + |l.gap| + |l.value| + |l.tail| }

  lemma Parts(t: Text, i: nat, l: Layout)
    requires Has(t, i, Whole(l))
    ensures Has(t, i, l.tabs) && Has(t, ToName(l, i), l.name) && Has(t, ToGap(l, i), l.gap)
    ensures Has(t, ToValue(l, i), l.value) && Has(t, ToTail(l, i), l.tail) && Has(t, ToRest(l, i), l.rest)
    ensures i + |Whole(l)| == ToRest(l, i) + |l.rest|
  {
    hide Has;
    HasSplit(t, i, l.tabs + l.name + l.gap + l.value + l.tail, l.rest);
    HasSplit(t, i, l.tabs + l.name + l.gap + l.value, l.tail);
    HasSplit(t, i, l.tabs + l.name + l.gap, l.value);
    HasSplit(t, i, l.tabs + l.name, l.gap);
    HasSplit(t, i, l.tabs, l.name);
  }

  lemma MembersLayout(ms: seq<Member>, depth: nat, fmt: bool)
    requires ms != []
    ensures PrintMembers(ms, depth, fmt) == Whole(LayoutOf(ms, depth, fmt))
  {
    hide Print, Tabs, JsonString.Literal, Colon, Tail, Fmt;
  }

  /** Where the parts of printed members lie. */
  lemma MemberParts(t: Text, i: nat, ms: seq<Member>, depth: nat, fmt: bool)
    requires ms != [] && Has(t, i, PrintMembers(ms, depth, fmt))
    ensures var l := LayoutOf(ms, depth, fmt);
      && Has(t, i, Fmt(fmt, Tabs(depth))) && Has(t, ToName(l, i), JsonString.Literal(ms[0].name))
      && Has(t, ToGap(l, i), Colon(fmt)) && Has(t, ToValue(l, i), Print(ms[0].value, depth, fmt))
      && Has(t, ToTail(l, i), Tail(|ms| > 1, fmt)) && Has(t, ToRest(l, i), PrintMembers(ms[1..], depth, fmt))
      && i + |PrintMembers(ms, depth, fmt)| == ToRest(l, i) + |PrintMembers(ms[1..], depth, fmt)|
  {
    MembersLayout(ms, depth, fmt);
    Parts(t, i, LayoutOf(ms, depth, fmt));
    hide Has, Print, PrintMembers, Tabs, JsonString.Literal, Colon, Tail, Fmt, Whole;
  }

  lemma NameStarts(t: Text, i: nat, s: Text)
    requires Has(t, i, JsonString.Literal(s))
    ensures At(t, i) == QUOTE && Skip(t, i) == i
  {
    HasAt(t, i, JsonString.Literal(s), 0);
    SkipStops(t, i);
  }

  /** Members start with a name behind the tabs, never with a closing brace. */
  lemma MembersStart(t: Text, i: nat, ms: seq<Member>, depth: nat, fmt: bool)
    requires ms != [] && Has(t, i, PrintMembers(ms, depth, fmt))
    ensures At(t, Skip(t, i)) == QUOTE && Skip(t, i) == ToName(LayoutOf(ms, depth, fmt), i)
  {
    MemberParts(t, i, ms, depth, fmt);
    TabsAreTabs(depth);
    SkipFmt(t, i, Tabs(depth), fmt);
    NameStarts(t, ToName(LayoutOf(ms, depth, fmt), i), ms[0].name);
    hide Has, PrintMembers, Print, JsonString.Literal, Skip, Colon, Tail;
  }

  /** The colon, the tab behind it in formatted text, and the value. */
  lemma ColonGap(t: Text, i: nat, fmt: bool, j: Json, depth: nat)
    requires Has(t, i, Colon(fmt)) && Has(t, i + |Colon(fmt)|, Print(j, depth, fmt))
    ensures Skip(t, i) == i && At(t, i) == COLON && Skip(t, i + 1) == i + |Colon(fmt)|
  {
    hide Print, Has;
    ItemStarts(t, i + |Colon(fmt)|, j, depth, fmt);
    HasSplit(t, i, [COLON], Fmt(fmt, [TAB]));
    HasAt(t, i, [COLON], 0);
    SkipStops(t, i);
    SkipFmt(t, i + 1, [TAB], fmt);
  }

  /** What follows a value inside an object never goes on with a number. */
  lemma CommaTail(t: Text, i: nat, fmt: bool)
    requires Has(t, i, Tail(true, fmt))
    ensures JsonNumber.Stops(At(t, i)) && At(t, i) == COMMA && Skip(t, i) == i
    ensures ParseMembers(t, i + 1) == ParseMembers(t, i + |Tail(true, fmt)|)
  {
    HasSplit(t, i, [COMMA], Fmt(fmt, [NEWLINE]));
    HasAt(t, i, [COMMA], 0);
    SkipStops(t, i);
    SkipFmt(t, i + 1, [NEWLINE], fmt);
    MembersAfterSpace(t, i + 1, i + |Tail(true, fmt)|);
  }

  lemma LastTail(t: Text, i: nat, fmt: bool)
    requires Has(t, i, Tail(false, fmt)) && At(t, Skip(t, i + |Tail(false, fmt)|)) == CLOSE_OBJECT
    ensures JsonNumber.Stops(At(t, i)) && Skip(t, i) == Skip(t, i + |Tail(false, fmt)|)
  {
    assert Tail(false, fmt) == Fmt(fmt, [NEWLINE]);
    SkipFmt(t, i, [NEWLINE], fmt);
    if fmt {
      HasAt(t, i, [NEWLINE], 0);
    }
  }

  lemma OneMember(t: Text, i: nat, m: Member, colon: nat, value: nat, next: nat)
    requires JsonString.ParseString(t, Skip(t, i)) == Some((m.name, colon)) && Skip(t, colon) == colon
    requires At(t, colon) == COLON && Skip(t, colon + 1) == value && ParseValue(t, value) == Some((m.value, next))
    requires At(t, Skip(t, next)) != COMMA
    ensures ParseMembers(t, i) == Some(([m], Skip(t, next)))
  {
    hide ParseValue, JsonString.ParseString, Skip;
  }

  lemma MoreMembers(t: Text, i: nat, m: Member, colon: nat, value: nat, next: nat, rest: seq<Member>, last: nat)
    requires JsonString.ParseString(t, Skip(t, i)) == Some((m.name, colon)) && Skip(t, colon) == colon
    requires At(t, colon) == COLON && Skip(t, colon + 1) == value && ParseValue(t, value) == Some((m.value, next))
    requires Skip(t, next) == next && At(t, next) == COMMA && ParseMembers(t, next + 1) == Some((rest, last))
    ensures ParseMembers(t, i) == Some(([m] + rest, last))
  {
    hide ParseValue, JsonString.ParseString, Skip;
  }

  lemma NoMembers(depth: nat, fmt: bool)
    ensures PrintMembers([], depth, fmt) == []
  {
  }

  /** What the parser meets in printed members, up to the first value. */
  lemma FirstMember(t: Text, i: nat, ms: seq<Member>, depth: nat, fmt: bool)
    returns (colon: nat, value: nat, next: nat, rest: nat)
    requires ms != [] && NoZero(ms[0].name) && Has(t, i, PrintMembers(ms, depth, fmt))
    ensures JsonString.ParseString(t, Skip(t, i)) == Some((ms[0].name, colon)) && Skip(t, colon) == colon
    ensures At(t, colon) == COLON && Skip(t, colon + 1) == value && Has(t, value, Print(ms[0].value, depth, fmt))
    ensures next == value + |Print(ms[0].value, depth, fmt)| && Has(t, next, Tail(|ms| > 1, fmt))
    ensures rest == next + |Tail(|ms| > 1, fmt)| && Has(t, rest, PrintMembers(ms[1..], depth, fmt))
    ensures rest + |PrintMembers(ms[1..], depth, fmt)| == i + |PrintMembers(ms, depth, fmt)|
  {
    hide Has, Print, PrintMembers, Skip, JsonString.Literal, JsonString.ParseString, Tabs, Fmt, Tail, Colon,
         ParseMembers;
    MemberParts(t, i, ms, depth, fmt);
    MembersStart(t, i, ms, depth, fmt);
    var l := LayoutOf(ms, depth, fmt);
    colon, value, next, rest := ToGap(l, i), ToValue(l, i), ToTail(l, i), ToRest(l, i);
    JsonString.ReadBack(t, ToName(l, i), ms[0].name);
    ColonGap(t, colon, fmt, ms[0].value, depth);
  }

  lemma {:induction false} MembersTrip(t: Text, i: nat, ms: seq<Member>, depth: nat, fmt: bool)
    requires ms != [] && (forall k | 0 <= k < |ms| :: NoZero(ms[k].name) && Printable(ms[k].value))
    requires Has(t, i, PrintMembers(ms, depth, fmt))
    requires At(t, Skip(t, i + |PrintMembers(ms, depth, fmt)|)) == CLOSE_OBJECT
    ensures ParseMembers(t, i) == Some((ms, Skip(t, i + |PrintMembers(ms, depth, fmt)|)))
    decreases ms
  {
    hide Has, Print, PrintMembers, ParseMembers, Skip, JsonString.ParseString, ParseValue, Tail, Printable, NoZero;
    var colon, value, next, rest := FirstMember(t, i, ms, depth, fmt);
    var end := i + |PrintMembers(ms, depth, fmt)|;
    if |ms| > 1 {
      CommaTail(t, next, fmt);
      Trip(t, value, ms[0].value, depth, fmt);
      MembersTrip(t, rest, ms[1..], depth, fmt);
      assert ms == [ms[0]] + ms[1..];
      MoreMembers(t, i, ms[0], colon, value, next, ms[1..], Skip(t, end));
    } else {
      NoMembers(depth, fmt);
      assert ms == [ms[0]] && ms[1..] == [];
      LastTail(t, next, fmt);
      Trip(t, value, ms[0].value, depth, fmt);
      OneMember(t, i, ms[0], colon, value, next);
    }
  }

  // ---- The main theorem ------------------------------------------------------------------------

  /** For every printable tree, parsing its formatted or unformatted print consumes all the text and
      gives an equal tree, whether or not the caller asks for the whole text to be one value. */
  lemma RoundTrip(j: Json, fmt: bool, whole: bool)
    requires Printable(j)
    ensures Parse(Print(j, 0, fmt), whole) == Some((j, |Print(j, 0, fmt)|))
  {
    hide ParseValue, Print, Printable, Has, Skip;
    var t := Print(j, 0, fmt);
    HasWhole(t);
    ItemStarts(t, 0, j, 0, fmt);
    Trip(t, 0, j, 0, fmt);
    SkipStops(t, |t|);
  }

  // ---- A sample ------------------------------------------------------------------------------

  const ONE_TWO: seq<Json> := [Num(JsonNumber.Number(1, 0)), Num(JsonNumber.Number(2, 0))]

  /** {"a":[1,2],"b":{}} */
  const SAMPLE: seq<Member> := [Member([97], List(ONE_TWO)), Member([98], Object([]))]

  lemma SampleLeaves(fmt: bool)
    ensures JsonString.Literal([97]) == Ascii("\"a\"") && JsonString.Literal([98]) == Ascii("\"b\"")
    ensures JsonNumber.Decimal(1) == Ascii("1") && JsonNumber.Decimal(2) == Ascii("2")
    ensures Print(Object([]), 1, fmt) == Ascii(if fmt then "{\n}" else "{}")
  {
    JsonString.EscapedOne(97);
    JsonString.EscapedOne(98);
    PrintEmptyObject(1, fmt);
  }

  lemma SampleItems(fmt: bool)
    ensures var one, two := ONE_TWO[0], ONE_TWO[1];
      PrintItems(ONE_TWO, 2, fmt) == Print(one, 2, fmt) + Comma(true, fmt) + Print(two, 2, fmt)
  {
    hide Print;
    var one, two := ONE_TWO[0], ONE_TWO[1];
    assert ONE_TWO[1..] == [two] && [two][1..] == [];
    assert PrintItems([two], 2, fmt) == Print(two, 2, fmt);
  }

  lemma SampleText(fmt: bool)
    ensures Ascii("[") + (Ascii("1") + Comma(true, fmt) + Ascii("2")) + Ascii("]") ==
      Ascii(if fmt then "[1, 2]" else "[1,2]")
  {
  }

  lemma SampleList(fmt: bool)
    ensures Print(List(ONE_TWO), 1, fmt) == Ascii(if fmt then "[1, 2]" else "[1,2]")
  {
    SampleLeaves(fmt);
    SampleItems(fmt);
    SampleText(fmt);
    PrintList(ONE_TWO, 1, fmt);
    assert Ascii("[") == [OPEN_LIST] && Ascii("]") == [CLOSE_LIST];
    hide JsonNumber.Decimal, PrintItems, Comma, Ascii;
  }

  /** A line of the sample: a member and what is behind it. */
  function SampleLine(m: Member, more: bool, fmt: bool): Text {
    Fmt(fmt, Tabs(1)) + JsonString.Literal(m.name) + Colon(fmt) + Print(m.value, 1, fmt) + Tail(more, fmt)
  }

  /** A line in five parts: indent, name, colon, value, and what is behind it. */
  function FiveParts(indent: string, name: string, colon: string, value: string, end: string): Text
    requires IsAscii(indent) && IsAscii(name) && IsAscii(colon) && IsAscii(value) && IsAscii(end)
  {
    Ascii(indent) + Ascii(name) + Ascii(colon) + Ascii(value) + Ascii(end)
  }

  lemma Punctuation(fmt: bool)
    ensures Fmt(fmt, Tabs(1)) == Ascii(if fmt then "\t" else "") && Colon(fmt) == Ascii(if fmt then ":\t" else ":")
    ensures Tail(true, fmt) == Ascii(if fmt then ",\n" else ",") && Tail(false, fmt) == Ascii(if fmt then "\n" else "")
  {
    assert Tabs(1) == [TAB] by { assert Tabs(0) == []; }
  }

  lemma SampleLines(fmt: bool)
    ensures fmt ==> SampleLine(SAMPLE[0], true, true) == FiveParts("\t", "\"a\"", ":\t", "[1, 2]", ",\n")
    ensures fmt ==> SampleLine(SAMPLE[1], false, true) == FiveParts("\t", "\"b\"", ":\t", "{\n}", "\n")
    ensures !fmt ==> SampleLine(SAMPLE[0], true, false) == FiveParts("", "\"a\"", ":", "[1,2]", ",")
    ensures !fmt ==> SampleLine(SAMPLE[1], false, false) == FiveParts("", "\"b\"", ":", "{}", "")
  {
    hide JsonString.Literal, Print, Fmt, Colon, Tail, Ascii, Tabs;
    SampleLeaves(fmt);
    SampleList(fmt);
    Punctuation(fmt);
  }

  lemma SampleMembers(fmt: bool)
    ensures PrintMembers(SAMPLE, 1, fmt) == SampleLine(SAMPLE[0], true, fmt) + SampleLine(SAMPLE[1], false, fmt)
  {
    hide JsonString.Literal, Print, Fmt, Colon, Tail;
    var b := SAMPLE[1];
    assert SAMPLE[1..] == [b] && [b][1..] == [];
    assert PrintMembers([b], 1, fmt) == SampleLine(b, false, fmt) + PrintMembers([], 1, fmt);
  }

  /** The unformatted print of the sample, character by character. */
  lemma SamplePlain()
    ensures Print(Object(SAMPLE), 0, false) ==
      Ascii("{") + (FiveParts("", "\"a\"", ":", "[1,2]", ",") + FiveParts("", "\"b\"", ":", "{}", "")) + Ascii("}")
  {
    SampleLines(false);
    SampleMembers(false);
    PrintObject(SAMPLE, 0, false);
    Braces();
    hide Print, PrintMembers, SampleLine, FiveParts, Ascii, OpenLine, CloseLine;
  }

  /** And the formatted one, line by line. */
  lemma SampleFormatted()
    ensures Print(Object(SAMPLE), 0, true) ==
      Ascii("{\n")
      + (FiveParts("\t", "\"a\"", ":\t", "[1, 2]", ",\n") + FiveParts("\t", "\"b\"", ":\t", "{\n}", "\n"))
      + Ascii("}")
  {
    SampleLines(true);
    SampleMembers(true);
    PrintObject(SAMPLE, 0, true);
    Braces();
    hide Print, PrintMembers, SampleLine, FiveParts, Ascii, OpenLine, CloseLine;
  }

  lemma Braces()
    ensures OpenLine(false) == Ascii("{") && OpenLine(true) == Ascii("{\n")
    ensures CloseLine(0, false) == Ascii("}") && CloseLine(0, true) == Ascii("}")
  {
  }
}
