/** JSON trees: what cJSON_Print and cJSON_PrintUnformatted write, and what the recursive-descent
    parser makes of a text (RFC 8259). */
module JsonTree {
  import opened CText
  import opened Options
  import JsonString
  import JsonNumber
  import Numerals

  datatype Json =
    | Null | False | True
    | Num(number: JsonNumber.Number)
    | Str(text: Text)
    | List(items: seq<Json>)
    | Object(members: seq<Member>)

  datatype Member = Member(name: Text, value: Json)

  const NULL_TEXT: Text := [110, 117, 108, 108]
  const FALSE_TEXT: Text := [102, 97, 108, 115, 101]
  const TRUE_TEXT: Text := [116, 114, 117, 101]

  /** int-range integers, strings without zeros, members with names. */
  ghost predicate Printable(j: Json) {
    match j
    case Num(n) => n.exponent == 0 && JsonNumber.INT_MIN <= n.mantissa <= JsonNumber.INT_MAX
    case Str(s) => NoZero(s)
    case List(items) => forall i | 0 <= i < |items| :: Printable(items[i])
    case Object(ms) => forall i | 0 <= i < |ms| :: NoZero(ms[i].name) && Printable(ms[i].value)
    case _ => true
  }

  // ---- Printing ------------------------------------------------------------------------------

  function Tabs(n: int): Text
    decreases n
  {
    if n <= 0 then [] else [TAB] + Tabs(n - 1)
  }

  /** x when the output is formatted. */
  function Fmt(fmt: bool, x: Text): Text { if fmt then x else [] }

  function OpenLine(fmt: bool): Text {
    [OPEN_OBJECT] + Fmt(fmt, [NEWLINE])
  }

  function CloseLine(depth: int, fmt: bool): Text {
    Fmt(fmt, Tabs(depth)) + [CLOSE_OBJECT]
  }

  /** Between two items. */
  function Comma(more: bool, fmt: bool): Text {
    if more then [COMMA] + Fmt(fmt, [SPACE]) else []
  }

  /** Between a name and its value. */
  function Colon(fmt: bool): Text {
    [COLON] + Fmt(fmt, [TAB])
  }

  /** Behind a member's value. */
  function Tail(more: bool, fmt: bool): Text {
    (if more then [COMMA] else []) + Fmt(fmt, [NEWLINE])
  }

  function Print(j: Json, depth: nat, fmt: bool): Text
    decreases j
  {
    match j
    case Null => NULL_TEXT
    case False => FALSE_TEXT
    case True => TRUE_TEXT
    case Num(n) => JsonNumber.Decimal(n.mantissa)
    case Str(s) => JsonString.Literal(s)
    case List(items) =>
      if items == [] then [OPEN_LIST, CLOSE_LIST]
      else [OPEN_LIST] + PrintItems(items, depth + 1, fmt) + [CLOSE_LIST]
    case Object(ms) =>
      if ms == [] then OpenLine(fmt) + CloseLine(depth - 1, fmt)
      else OpenLine(fmt) + PrintMembers(ms, depth + 1, fmt) + CloseLine(depth, fmt)
  }

  /** The items, with a comma after each but the last. */
  function PrintItems(items: seq<Json>, depth: nat, fmt: bool): Text
    decreases items
  {
    if items == [] then []
    else Print(items[0], depth, fmt) + Comma(|items| > 1, fmt) + PrintItems(items[1..], depth, fmt)
  }

  function PrintMembers(ms: seq<Member>, depth: nat, fmt: bool): Text
    decreases ms
  {
    if ms == [] then []
    else Fmt(fmt, Tabs(depth)) + JsonString.Literal(ms[0].name) + Colon(fmt) + Print(ms[0].value, depth, fmt)
         + Tail(|ms| > 1, fmt) + PrintMembers(ms[1..], depth, fmt)
  }

  // ---- Parsing -------------------------------------------------------------------------------

  /** parse_value at index i: the tree and the index behind it, or nothing. */
  function ParseValue(t: Text, i: nat): (r: Option<(Json, nat)>)
    ensures r.Some? ==> r.value.1 > i
    decreases |t| - i, 1
  {
    if Has(t, i, NULL_TEXT) then Some((Null, i + 4))
    else if Has(t, i, FALSE_TEXT) then Some((False, i + 5))
    else if Has(t, i, TRUE_TEXT) then Some((True, i + 4))
    else if At(t, i) == QUOTE then
      var (s, end) := JsonString.ParseString(t, i).value;
      Some((Str(s), end))
    else if At(t, i) == MINUS || Numerals.IsDigit(At(t, i)) then
      var (n, end) := JsonNumber.ParseNumber(t, i);
      Some((Num(n), end))
    else if At(t, i) == OPEN_LIST then ParseList(t, i)
    else if At(t, i) == OPEN_OBJECT then ParseObject(t, i)
    else None
  }

  function ParseList(t: Text, i: nat): (r: Option<(Json, nat)>)
    requires At(t, i) == OPEN_LIST
    ensures r.Some? ==> r.value.1 > i
    decreases |t| - i, 0
  {
    var first := Skip(t, i + 1);
    if At(t, first) == CLOSE_LIST then Some((List([]), first + 1))
    else
      match ParseItems(t, first)
      case None => None
      case Some((items, end)) => if At(t, end) == CLOSE_LIST then Some((List(items), end + 1)) else None
  }

  /** One or more values with commas between them; the index of the first byte that is neither. */
  function ParseItems(t: Text, i: nat): (r: Option<(seq<Json>, nat)>)
    ensures r.Some? ==> r.value.1 > i
    decreases |t| - i, 2
  {
    match ParseValue(t, Skip(t, i))
    case None => None
    case Some((item, end)) =>
      var next := Skip(t, end);
      if At(t, next) != COMMA then Some(([item], next))
      else
        match ParseItems(t, next + 1)
        case None => None
        case Some((items, last)) => Some(([item] + items, last))
  }

  function ParseObject(t: Text, i: nat): (r: Option<(Json, nat)>)
    requires At(t, i) == OPEN_OBJECT
    ensures r.Some? ==> r.value.1 > i
    decreases |t| - i, 0
  {
    var first := Skip(t, i + 1);
    if At(t, first) == CLOSE_OBJECT then Some((Object([]), first + 1))
    else
      match ParseMembers(t, first)
      case None => None
      case Some((ms, end)) => if At(t, end) == CLOSE_OBJECT then Some((Object(ms), end + 1)) else None
  }

  function ParseMembers(t: Text, i: nat): (r: Option<(seq<Member>, nat)>)
    ensures r.Some? ==> r.value.1 > i
    decreases |t| - i, 2
  {
    match JsonString.ParseString(t, Skip(t, i))
    case None => None
    case Some((name, afterName)) =>
      var colon := Skip(t, afterName);
      if At(t, colon) != COLON then None
      else
        match ParseValue(t, Skip(t, colon + 1))
        case None => None
        case Some((value, end)) =>
          var next := Skip(t, end);
          if At(t, next) != COMMA then Some(([Member(name, value)], next))
          else
            match ParseMembers(t, next + 1)
            case None => None
            case Some((ms, last)) => Some(([Member(name, value)] + ms, last))
  }

  /** cJSON_ParseWithOpts; without `whole`, text behind the value is left alone. */
  function Parse(t: Text, whole: bool): Option<(Json, nat)> {
    match ParseValue(t, Skip(t, 0))
    case None => None
    case Some((j, end)) =>
      if !whole then Some((j, end))
      else if At(t, Skip(t, end)) != 0 then None
      else Some((j, Skip(t, end)))
  }
}
