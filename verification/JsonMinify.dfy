/** cJSON_Minify: in place, and agreeing with unformatted printing. */
module JsonMinify {
  import opened CText
  import opened Options
  import JsonString
  import JsonNumber
  import opened JsonTree

  // ---- What is left of a text ------------------------------------------------------------------

  predicate IsSpace(c: Byte) {
    c == SPACE || c == TAB || c == RETURN || c == NEWLINE
  }

  /** The index behind the closing quote of a literal, nothing when it is not closed. */
  function LiteralEnd(t: Text, i: nat): (r: Option<nat>)
    ensures r.Some? ==> i < r.value <= |t|
    decreases |t| - i
  {
    if At(t, i) == 0 then None
    else if At(t, i) == QUOTE then Some(i + 1)
    else if At(t, i) != BACKSLASH then LiteralEnd(t, i + 1)
    else if At(t, i + 1) == 0 then None
    else LiteralEnd(t, i + 2)
  }

  /** The end of a line comment: the newline or the end of the text. */
  function LineEnd(t: Text, i: nat): (r: nat)
    ensures r >= i && (i <= |t| ==> r <= |t|)
    decreases |t| - i
  {
    if At(t, i) == 0 || At(t, i) == NEWLINE then i else LineEnd(t, i + 1)
  }

  /** The index behind a multi-line comment, nothing when it is not closed. */
  function CommentEnd(t: Text, i: nat): (r: Option<nat>)
    ensures r.Some? ==> i < r.value <= |t|
    decreases |t| - i
  {
    if At(t, i) == 0 then None
    else if At(t, i) == STAR && At(t, i + 1) == SLASH then Some(i + 2)
    else CommentEnd(t, i + 1)
  }

  function Prepend(x: Text, rest: Option<Text>): Option<Text> {
    match rest
    case None => None
    case Some(y) => Some(x + y)
  }

  /** The text from index i on without whitespace and comments; nothing when a literal or a comment is
      left open, and the source would read behind the end of the text. */
  function Minified(t: Text, i: nat): Option<Text>
    decreases |t| - i
  {
    var c := At(t, i);
    if c == 0 then Some([])
    else if IsSpace(c) then Minified(t, i + 1)
    else if c == SLASH && At(t, i + 1) == SLASH then Minified(t, LineEnd(t, i + 2))
    else if c == SLASH && At(t, i + 1) == STAR then
      match CommentEnd(t, i + 1)
      case None => None
      case Some(end) => Minified(t, end)
    else if c == QUOTE then
      match LiteralEnd(t, i + 1)
      case None => None
      case Some(end) => Prepend(t[i..end], Minified(t, end))
    else Prepend([c], Minified(t, i + 1))
  }

  // ---- When the read cursor stays in the text ---------------------------------------------------

  /** Where the literal loop and the copy behind it leave the cursor: behind the quote, or behind the end. */
  function LiteralStop(t: Text, i: nat): (r: nat)
    ensures r > i || r > |t|
    decreases |t| - i
  {
    if i > |t| then i
    else if At(t, i) == 0 || At(t, i) == QUOTE then i + 1
    else if At(t, i) == BACKSLASH then LiteralStop(t, i + 2)
    else LiteralStop(t, i + 1)
  }

  /** Where the loop for multi-line comments and the step behind it leave the cursor. */
  function CommentStop(t: Text, i: nat): (r: nat)
    ensures r > i
    decreases |t| - i
  {
    if At(t, i) == 0 || (At(t, i) == STAR && At(t, i + 1) == SLASH) then i + 2 else CommentStop(t, i + 1)
  }

  /** Where the read cursor stops: the outer loop ends at the zero behind the text, unless an inner loop
      has carried the cursor past it. */
  function Cursor(t: Text, i: nat): nat
    decreases |t| - i
  {
    var c := At(t, i);
    if c == 0 then i
    else if c == SLASH && At(t, i + 1) == SLASH then Cursor(t, LineEnd(t, i))
    else if c == SLASH && At(t, i + 1) == STAR then Cursor(t, CommentStop(t, i))
    else if c == QUOTE then Cursor(t, LiteralStop(t, i + 1))
    else Cursor(t, i + 1)
  }

  /** What a scan of the text, byte by byte, has seen last. */
  datatype Scan = Code | Slash | Line | Comment | Star | Literal | Escape

  function Next(s: Scan, c: Byte): Scan {
    match s
    case Code => if c == SLASH then Slash else if c == QUOTE then Literal else Code
    case Slash => if c == SLASH then Line else if c == STAR then Star else if c == QUOTE then Literal else Code
    case Line => if c == NEWLINE then Code else Line
    case Comment => if c == STAR then Star else Comment
    case Star => if c == SLASH then Code else if c == STAR then Star else Comment
    case Literal => if c == QUOTE then Code else if c == BACKSLASH then Escape else Literal
    case Escape => Literal
  }

  /** Scanned on from index i in state s, the text ends outside of literals and multi-line comments. */
  predicate ClosedFrom(t: Text, i: nat, s: Scan)
    decreases |t| - i
  {
    if i >= |t| then s == Code || s == Slash || s == Line else ClosedFrom(t, i + 1, Next(s, t[i]))
  }

  /** Every literal and every multi-line comment of the text is closed. */
  predicate Closed(t: Text) { ClosedFrom(t, 0, Code) }

  lemma {:induction false} LiteralScan(t: Text, i: nat)
    requires NoZero(t) && i <= |t|
    ensures LiteralEnd(t, i).Some? <==> LiteralStop(t, i) <= |t|
    ensures LiteralEnd(t, i).Some? ==> LiteralEnd(t, i).value == LiteralStop(t, i)
    ensures ClosedFrom(t, i, Literal) <==> LiteralEnd(t, i).Some? && ClosedFrom(t, LiteralEnd(t, i).value, Code)
    decreases |t| - i
  {
    if i < |t| && t[i] != QUOTE {
      if t[i] == BACKSLASH {
        if i + 1 < |t| {
          LiteralScan(t, i + 2);
        }
      } else {
        LiteralScan(t, i + 1);
      }
    }
  }

  lemma {:induction false} CommentScan(t: Text, i: nat)
    requires NoZero(t) && i <= |t|
    ensures CommentEnd(t, i).Some? <==> CommentStop(t, i) <= |t|
    ensures CommentEnd(t, i).Some? ==> CommentEnd(t, i).value == CommentStop(t, i)
    ensures ClosedFrom(t, i, Comment) <==> CommentEnd(t, i).Some? && ClosedFrom(t, CommentEnd(t, i).value, Code)
    decreases |t| - i
  {
    if i < |t| {
      CommentScan(t, i + 1);
    }
  }

  lemma {:induction false} LineScan(t: Text, i: nat)
    requires NoZero(t) && i <= |t|
    ensures ClosedFrom(t, i, Line) <==> ClosedFrom(t, LineEnd(t, i), Code)
    decreases |t| - i
  {
    if i < |t| && t[i] != NEWLINE {
      LineScan(t, i + 1);
    }
  }

  /** The text is closed exactly when the read cursor of cJSON_Minify stays in it, and then it stops at the
      terminating zero and something is left of the text. */
  lemma {:induction false} ClosedExactly(t: Text, i: nat)
    requires NoZero(t) && i <= |t|
    ensures ClosedFrom(t, i, Code) <==> Cursor(t, i) <= |t|
    ensures ClosedFrom(t, i, Code) ==> Cursor(t, i) == |t|
    ensures ClosedFrom(t, i, Code) <==> Minified(t, i).Some?
    decreases |t| - i
  {
    if i < |t| {
      var two := t[i] == SLASH && i + 1 < |t|;
      if two && t[i + 1] == SLASH {
        LineFrom(t, i);
        LineScan(t, i + 2);
        ClosedExactly(t, LineEnd(t, i + 2));
      } else if two && t[i + 1] == STAR {
        CommentScan(t, i + 1);
        if CommentEnd(t, i + 1).Some? {
          ClosedExactly(t, CommentEnd(t, i + 1).value);
        }
      } else if t[i] == QUOTE {
        LiteralScan(t, i + 1);
        if LiteralEnd(t, i + 1).Some? {
          ClosedExactly(t, LiteralEnd(t, i + 1).value);
        }
      } else {
        ClosedExactly(t, i + 1);
      }
    }
  }

  /** Inputs that carry the cursor out: an opening quote, and a slash with a star. */
  lemma OpenTexts()
    ensures !Closed([QUOTE]) && Cursor([QUOTE], 0) == 2
    ensures !Closed([SLASH, STAR]) && Cursor([SLASH, STAR], 0) == 4
  {
    assert !ClosedFrom([QUOTE], 1, Literal);
    assert LiteralStop([QUOTE], 1) == 2;
    var t := [SLASH, STAR];
    assert !ClosedFrom(t, 2, Star) && ClosedFrom(t, 1, Slash) == ClosedFrom(t, 2, Star);
    assert CommentStop(t, 2) == 4 && CommentStop(t, 1) == 4 && CommentStop(t, 0) == 4;
  }

  // ---- Minifying printed text --------------------------------------------------------------------

  /** Wherever x stands in a text, minifying turns it into y. */
  ghost predicate Becomes(x: Text, y: Text) {
    forall t: Text, i: nat | Has(t, i, x) :: Minified(t, i) == Prepend(y, Minified(t, i + |x|))
  }

  lemma Use(x: Text, y: Text, t: Text, i: nat)
    requires Becomes(x, y) && Has(t, i, x)
    ensures Minified(t, i) == Prepend(y, Minified(t, i + |x|))
  {
  }

  lemma Both(x: Text, y: Text, u: Text, v: Text)
    requires Becomes(x, y) && Becomes(u, v)
    ensures Becomes(x + u, y + v)
  {
    hide Minified;
    forall t: Text, i: nat | Has(t, i, x + u)
      ensures Minified(t, i) == Prepend(y + v, Minified(t, i + |x + u|))
    {
      HasSplit(t, i, x, u);
      Use(x, y, t, i);
      Use(u, v, t, i + |x|);
      var rest := Minified(t, i + |x + u|);
      if rest.Some? {
        assert y + (v + rest.value) == y + v + rest.value;
      }
    }
  }

  lemma Nothing()
    ensures Becomes([], [])
  {
    forall t: Text, i: nat | Has(t, i, [])
      ensures Minified(t, i) == Prepend([], Minified(t, i))
    {
      if Minified(t, i).Some? {
        assert [] + Minified(t, i).value == Minified(t, i).value;
      }
    }
  }

  lemma SpaceGoes(c: Byte)
    requires IsSpace(c)
    ensures Becomes([c], [])
  {
    forall t: Text, i: nat | Has(t, i, [c])
      ensures Minified(t, i) == Prepend([], Minified(t, i + |[c]|))
    {
      HasAt(t, i, [c], 0);
      if Minified(t, i).Some? {
        assert [] + Minified(t, i).value == Minified(t, i).value;
      }
    }
  }

  lemma ByteStays(c: Byte)
    requires c != 0 && !IsSpace(c) && c != SLASH && c != QUOTE
    ensures Becomes([c], [c])
  {
    forall t: Text, i: nat | Has(t, i, [c])
      ensures Minified(t, i) == Prepend([c], Minified(t, i + |[c]|))
    {
      HasAt(t, i, [c], 0);
    }
  }

  predicate Plain(x: Text) {
    forall k | 0 <= k < |x| :: x[k] != 0 && !IsSpace(x[k]) && x[k] != SLASH && x[k] != QUOTE
  }

  lemma {:induction false} PlainStays(x: Text)
    requires Plain(x)
    ensures Becomes(x, x)
    decreases |x|
  {
    hide Becomes;
    if x == [] {
      Nothing();
    } else {
      ByteStays(x[0]);
      PlainStays(x[1..]);
      Both([x[0]], [x[0]], x[1..], x[1..]);
      assert x == [x[0]] + x[1..];
    }
  }

  lemma {:induction false} SpacesGo(x: Text)
    requires forall k | 0 <= k < |x| :: IsSpace(x[k])
    ensures Becomes(x, [])
    decreases |x|
  {
    hide Becomes;
    if x == [] {
      Nothing();
    } else {
      SpaceGoes(x[0]);
      SpacesGo(x[1..]);
      Both([x[0]], [], x[1..], []);
      assert x == [x[0]] + x[1..];
      var none: Text := [];
      assert none + none == none;
    }
  }

  /** The scan of a printed literal ends at its closing quote. */
  lemma {:induction false} PrintedLiteralEnd(t: Text, i: nat, s: Text)
    requires NoZero(s) && Has(t, i, JsonString.Escaped(s) + [QUOTE])
    ensures LiteralEnd(t, i) == Some(i + |JsonString.Escaped(s)| + 1)
    decreases |s|
  {
    hide JsonString.Escape, Has;
    if s == [] {
      assert JsonString.Escaped(s) + [QUOTE] == [QUOTE];
      HasAt(t, i, [QUOTE], 0);
    } else {
      var e, rest := JsonString.Escape(s[0]), JsonString.Escaped(s[1..]);
      assert JsonString.Escaped(s) + [QUOTE] == e + (rest + [QUOTE]);
      HasSplit(t, i, e, rest + [QUOTE]);
      EscapeScanned(t, i, s[0]);
      PrintedLiteralEnd(t, i + |e|, s[1..]);
    }
  }

  lemma EscapeScanned(t: Text, i: nat, c: Byte)
    requires c != 0 && Has(t, i, JsonString.Escape(c))
    ensures LiteralEnd(t, i) == LiteralEnd(t, i + |JsonString.Escape(c)|)
  {
    var e := JsonString.Escape(c);
    HasAt(t, i, e, 0);
    if |e| > 1 {
      HasAt(t, i, e, 1);
    }
    if |e| > 2 {
      HasAt(t, i, e, 2);
      HasAt(t, i, e, 3);
      HasAt(t, i, e, 4);
      HasAt(t, i, e, 5);
      assert LiteralEnd(t, i + 2) == LiteralEnd(t, i + 3) == LiteralEnd(t, i + 4);
      assert LiteralEnd(t, i + 4) == LiteralEnd(t, i + 5) == LiteralEnd(t, i + 6);
    }
    hide Has;
  }

  lemma LiteralStays(s: Text)
    requires NoZero(s)
    ensures Becomes(JsonString.Literal(s), JsonString.Literal(s))
  {
    var x := JsonString.Literal(s);
    forall t: Text, i: nat | Has(t, i, x)
      ensures Minified(t, i) == Prepend(x, Minified(t, i + |x|))
    {
      assert x == [QUOTE] + (JsonString.Escaped(s) + [QUOTE]);
      HasSplit(t, i, [QUOTE], JsonString.Escaped(s) + [QUOTE]);
      HasAt(t, i, [QUOTE], 0);
      PrintedLiteralEnd(t, i + 1, s);
    }
  }

  // ---- What goes and what stays ------------------------------------------------------------------

  lemma {:induction false} LineEndAt(t: Text, i: nat, x: Text)
    requires Has(t, i, x + ['\n' as int]) && forall k | 0 <= k < |x| :: x[k] != 0 && x[k] != '\n' as int
    ensures LineEnd(t, i) == i + |x| && At(t, i + |x|) == NEWLINE
    decreases |x|
  {
    hide Has;
    HasAt(t, i, x + ['\n' as int], 0);
    if x != [] {
      var rest := x[1..] + ['\n' as int];
      assert x + ['\n' as int] == [x[0]] + rest;
      HasSplit(t, i, [x[0]], rest);
      LineEndAt(t, i + 1, x[1..]);
    }
  }

  /** A comment from two slashes to the end of the line goes. */
  lemma LineCommentGoes(x: Text)
    requires forall k | 0 <= k < |x| :: x[k] != 0 && x[k] != '\n' as int
    ensures Becomes(Ascii("//") + (x + ['\n' as int]), [])
  {
    var y := Ascii("//") + (x + ['\n' as int]);
    forall t: Text, i: nat | Has(t, i, y) ensures Minified(t, i) == Prepend([], Minified(t, i + |y|)) {
      HasSplit(t, i, Ascii("//"), x + ['\n' as int]);
      HasAt(t, i, Ascii("//"), 0);
      HasAt(t, i, Ascii("//"), 1);
      LineEndAt(t, i + 2, x);
      hide Has;
      NothingInFront(Minified(t, i + |y|));
    }
  }

  lemma NothingInFront(rest: Option<Text>)
    ensures Prepend([], rest) == rest
  {
    if rest.Some? {
      assert [] + rest.value == rest.value;
    }
  }

  /** The text does not end a comment before its last character. */
  predicate Unended(y: Text) {
    forall k | 0 <= k < |y| - 1 :: y[k] == '*' as int ==> y[k + 1] != '/' as int
  }

  lemma {:induction false} CommentEndAt(t: Text, i: nat, y: Text)
    requires Has(t, i, y + Ascii("*/")) && Unended(y + ['*' as int]) && forall k | 0 <= k < |y| :: y[k] != 0
    ensures CommentEnd(t, i) == Some(i + |y| + 2)
    decreases |y|
  {
    hide Has;
    if y == [] {
      assert y + Ascii("*/") == Ascii("*/");
      HasAt(t, i, Ascii("*/"), 0);
      HasAt(t, i, Ascii("*/"), 1);
    } else {
      var rest := y[1..] + Ascii("*/");
      assert y + Ascii("*/") == [y[0]] + rest;
      HasSplit(t, i, [y[0]], rest);
      HasAt(t, i, [y[0]], 0);
      HasAt(t, i + 1, rest, 0);
      assert (y + ['*' as int])[1..] == y[1..] + ['*' as int];
      var z := y + ['*' as int];
      assert z[0] == y[0] && z[0 + 1] == rest[0];
      assert z[0] == '*' as int ==> z[0 + 1] != '/' as int;
      assert Unended(y[1..] + ['*' as int]) by { UnendedTail(y + ['*' as int]); }
      CommentEndAt(t, i + 1, y[1..]);
    }
  }

  lemma UnendedTail(y: Text)
    requires Unended(y) && |y| > 0
    ensures Unended(y[1..])
  {
    forall k | 0 <= k < |y[1..]| - 1 ensures y[1..][k] == '*' as int ==> y[1..][k + 1] != '/' as int {
      assert y[1..][k] == y[k + 1] && y[1..][k + 1] == y[(k + 1) + 1];
    }
  }

  /** A comment from slash and star to the next star and slash goes; its first star may be that star. */
  lemma BlockCommentGoes(x: Text)
    requires Unended(['*' as int] + x + ['*' as int]) && forall k | 0 <= k < |x| :: x[k] != 0
    ensures Becomes(['/' as int] + (['*' as int] + x + Ascii("*/")), [])
  {
    var y := ['*' as int] + x;
    var z := ['/' as int] + (y + Ascii("*/"));
    forall t: Text, i: nat | Has(t, i, z) ensures Minified(t, i) == Prepend([], Minified(t, i + |z|)) {
      HasSplit(t, i, ['/' as int], y + Ascii("*/"));
      HasAt(t, i, ['/' as int], 0);
      HasAt(t, i + 1, y + Ascii("*/"), 0);
      CommentEndAt(t, i + 1, y);
      hide Has;
      NothingInFront(Minified(t, i + |z|));
    }
  }

  /** What may stand between the quotes of a literal: no quote and no zero, except that any byte but zero may
      follow a backslash. */
  predicate Inside(x: Text)
    decreases |x|
  {
    x == []
    || (x[0] == '\\' as int && |x| > 1 && x[1] != 0 && Inside(x[2..]))
    || (x[0] != '\\' as int && x[0] != '\"' as int && x[0] != 0 && Inside(x[1..]))
  }

  lemma {:induction false} LiteralEndAt(t: Text, i: nat, x: Text)
    requires Inside(x) && Has(t, i, x + ['\"' as int])
    ensures LiteralEnd(t, i) == Some(i + |x| + 1)
    decreases |x|
  {
    hide Has;
    HasAt(t, i, x + ['\"' as int], 0);
    if x != [] {
      var n := if x[0] == '\\' as int then 2 else 1;
      var rest := x[n..] + ['\"' as int];
      assert x + ['\"' as int] == x[..n] + rest;
      HasSplit(t, i, x[..n], rest);
      if n == 2 { HasAt(t, i, x[..n], 1); }
      LiteralEndAt(t, i + n, x[n..]);
    }
  }

  /** Every literal stays as it is, with the white space and the slashes in it. */
  lemma AnyLiteralStays(x: Text)
    requires Inside(x)
    ensures var y := ['\"' as int] + (x + ['\"' as int]); Becomes(y, y)
  {
    var y := ['\"' as int] + (x + ['\"' as int]);
    forall t: Text, i: nat | Has(t, i, y) ensures Minified(t, i) == Prepend(y, Minified(t, i + |y|)) {
      HasSplit(t, i, ['\"' as int], x + ['\"' as int]);
      HasAt(t, i, ['\"' as int], 0);
      LiteralEndAt(t, i + 1, x);
    }
  }

  // ---- The tree --------------------------------------------------------------------------------

  lemma FmtGoes(x: Text)
    requires forall k | 0 <= k < |x| :: IsSpace(x[k])
    ensures Becomes(Fmt(true, x), Fmt(false, x))
  {
    SpacesGo(x);
    hide Becomes;
  }

  lemma {:induction false} TabsAreSpace(n: int)
    ensures forall k | 0 <= k < |Tabs(n)| :: IsSpace(Tabs(n)[k])
    decreases n
  {
    if n > 0 {
      TabsAreSpace(n - 1);
    }
  }

  lemma PunctuationBecomes(depth: int)
    ensures Becomes(OpenLine(true), OpenLine(false)) && Becomes(CloseLine(depth, true), CloseLine(depth, false))
    ensures Becomes(Colon(true), Colon(false))
    ensures forall more :: Becomes(Comma(more, true), Comma(more, false))
    ensures forall more :: Becomes(Tail(more, true), Tail(more, false))
  {
    hide Becomes;
    FmtGoes([NEWLINE]);
    FmtGoes([TAB]);
    FmtGoes([SPACE]);
    TabsAreSpace(depth);
    FmtGoes(Tabs(depth));
    ByteStays(OPEN_OBJECT);
    ByteStays(CLOSE_OBJECT);
    ByteStays(COLON);
    ByteStays(COMMA);
    Nothing();
    hide Fmt, Tabs;
    Both([OPEN_OBJECT], [OPEN_OBJECT], Fmt(true, [NEWLINE]), Fmt(false, [NEWLINE]));
    Both(Fmt(true, Tabs(depth)), Fmt(false, Tabs(depth)), [CLOSE_OBJECT], [CLOSE_OBJECT]);
    Both([COLON], [COLON], Fmt(true, [TAB]), Fmt(false, [TAB]));
    Both([COMMA], [COMMA], Fmt(true, [SPACE]), Fmt(false, [SPACE]));
    Both([COMMA], [COMMA], Fmt(true, [NEWLINE]), Fmt(false, [NEWLINE]));
    Both([], [], Fmt(true, [NEWLINE]), Fmt(false, [NEWLINE]));
  }

  lemma NumberPlain(n: int)
    ensures Plain(JsonNumber.Decimal(n))
  {
    JsonNumber.DecimalBytes(n);
    hide JsonNumber.Decimal;
  }

  lemma {:induction false} PrintBecomes(j: Json, depth: nat)
    requires Printable(j)
    ensures Becomes(Print(j, depth, true), Print(j, depth, false))
    decreases j, 1
  {
    hide Becomes;
    match j
    case Num(n) => NumberPlain(n.mantissa); PlainStays(JsonNumber.Decimal(n.mantissa));
    case Str(s) => LiteralStays(s);
    case List(items) => ListBecomes(items, depth);
    case Object(ms) => ObjectBecomes(ms, depth);
    case _ => PlainStays(Print(j, depth, true));
  }

  lemma {:induction false} ListBecomes(items: seq<Json>, depth: nat)
    requires Printable(List(items))
    ensures Becomes(Print(List(items), depth, true), Print(List(items), depth, false))
    decreases List(items), 0
  {
    hide Becomes, PrintItems;
    if items == [] {
      PlainStays([OPEN_LIST, CLOSE_LIST]);
    } else {
      ItemsBecome(items, depth + 1);
      ByteStays(OPEN_LIST);
      ByteStays(CLOSE_LIST);
      var x, y := PrintItems(items, depth + 1, true), PrintItems(items, depth + 1, false);
      Both([OPEN_LIST], [OPEN_LIST], x, y);
      Both([OPEN_LIST] + x, [OPEN_LIST] + y, [CLOSE_LIST], [CLOSE_LIST]);
    }
  }

  lemma {:induction false} ItemsBecome(items: seq<Json>, depth: nat)
    requires forall k | 0 <= k < |items| :: Printable(items[k])
    ensures Becomes(PrintItems(items, depth, true), PrintItems(items, depth, false))
    decreases items
  {
    hide Becomes, Print, Comma, Printable;
    if items == [] {
      Nothing();
    } else {
      var p, q := Print(items[0], depth, true), Print(items[0], depth, false);
      var c, d := Comma(|items| > 1, true), Comma(|items| > 1, false);
      PrintBecomes(items[0], depth);
      PunctuationBecomes(0);
      ItemsBecome(items[1..], depth);
      Both(p, q, c, d);
      Both(p + c, q + d, PrintItems(items[1..], depth, true), PrintItems(items[1..], depth, false));
    }
  }

  lemma {:induction false} ObjectBecomes(ms: seq<Member>, depth: nat)
    requires Printable(Object(ms))
    ensures Becomes(Print(Object(ms), depth, true), Print(Object(ms), depth, false))
    decreases Object(ms), 0
  {
    hide Becomes, PrintMembers, OpenLine, CloseLine;
    PunctuationBecomes(depth);
    PunctuationBecomes(depth - 1);
    if ms == [] {
      Both(OpenLine(true), OpenLine(false), CloseLine(depth - 1, true), CloseLine(depth - 1, false));
    } else {
      MembersBecome(ms, depth + 1);
      var x, y := PrintMembers(ms, depth + 1, true), PrintMembers(ms, depth + 1, false);
      Both(OpenLine(true), OpenLine(false), x, y);
      Both(OpenLine(true) + x, OpenLine(false) + y, CloseLine(depth, true), CloseLine(depth, false));
    }
  }

  lemma {:induction false} MembersBecome(ms: seq<Member>, depth: nat)
    requires forall k | 0 <= k < |ms| :: NoZero(ms[k].name) && Printable(ms[k].value)
    ensures Becomes(PrintMembers(ms, depth, true), PrintMembers(ms, depth, false))
    decreases ms
  {
    hide Becomes, Print, Colon, Tail, Printable, JsonString.Literal, NoZero, Tabs;
    if ms == [] {
      Nothing();
    } else {
      var n := JsonString.Literal(ms[0].name);
      TabsAreSpace(depth);
      FmtGoes(Tabs(depth));
      LiteralStays(ms[0].name);
      PunctuationBecomes(0);
      PrintBecomes(ms[0].value, depth);
      MembersBecome(ms[1..], depth);
      hide Fmt;
      var a, b := Fmt(true, Tabs(depth)) + n, Fmt(false, Tabs(depth)) + n;
      Both(Fmt(true, Tabs(depth)), Fmt(false, Tabs(depth)), n, n);
      Both(a, b, Colon(true), Colon(false));
      var p, q := Print(ms[0].value, depth, true), Print(ms[0].value, depth, false);
      Both(a + Colon(true), b + Colon(false), p, q);
      var u, v := Tail(|ms| > 1, true), Tail(|ms| > 1, false);
      Both(a + Colon(true) + p, b + Colon(false) + q, u, v);
      Both(a + Colon(true) + p + u, b + Colon(false) + q + v, PrintMembers(ms[1..], depth, true),
           PrintMembers(ms[1..], depth, false));
    }
  }

  /** Minifying a tree's formatted print gives exactly its unformatted print. */
  lemma MinifyCommutes(j: Json)
    requires Printable(j)
    ensures Minified(Print(j, 0, true), 0) == Some(Print(j, 0, false))
  {
    var t, u := Print(j, 0, true), Print(j, 0, false);
    PrintBecomes(j, 0);
    assert t[0..0 + |t|] == t;
    Use(t, u, t, 0);
    assert u + [] == u;
    hide Print, Becomes;
  }

  // ---- In place --------------------------------------------------------------------------------

  /** The part of the memory that has not been read yet is still the original text and its zero. */
  ghost predicate Unread(a: array<Byte>, t: Text, json: nat)
    reads a
  {
    && |t| < a.Length && json <= |t|
    && forall k | json <= k <= |t| :: a[k] == At(t, k)
  }

  /** Copies one byte from the read cursor to the write cursor. */
  method CopyByte(a: array<Byte>, into: nat, json: nat, ghost t: Text)
    requires into <= json < |t| && Unread(a, t, json)
    modifies a
    ensures Unread(a, t, json + 1) && a[..into + 1] == old(a[..into]) + [t[json]]
  {
    a[into] := a[json];
  }

  /** The stretch of the text from `from` to the read cursor has been copied behind `done`. */
  ghost predicate Copied(a: array<Byte>, t: Text, done: Text, from: nat, into: nat, json: nat)
    reads a
  {
    into <= json && Unread(a, t, json) && from <= json && a[..into] == done + t[from..json]
  }

  method CopyOn(a: array<Byte>, into: nat, json: nat, ghost t: Text, ghost done: Text, ghost from: nat)
    requires Copied(a, t, done, from, into, json) && json < |t|
    modifies a
    ensures Copied(a, t, done, from, into + 1, json + 1)
  {
    CopyByte(a, into, json, t);
    assert t[from..json + 1] == t[from..json] + [t[json]];
  }

  method Peek(a: array<Byte>, into: nat, json: nat, ghost t: Text, ghost done: Text, ghost from: nat) returns (c: Byte)
    requires Copied(a, t, done, from, into, json)
    ensures c == At(t, json) && json < a.Length && c == a[json]
  {
    c := a[json];
  }

  /** The inner loop for literals, with both quotes. */
  method CopyLiteral(a: array<Byte>, into0: nat, json0: nat, ghost t: Text) returns (into: nat, json: nat)
    requires into0 <= json0 && Unread(a, t, json0) && At(t, json0) == QUOTE && NoZero(t)
    requires LiteralEnd(t, json0 + 1).Some?
    modifies a
    ensures Some(json) == LiteralEnd(t, json0 + 1) && into0 < into <= json && Unread(a, t, json)
    ensures a[..into] == old(a[..into0]) + t[json0..json]
  {
    ghost var done := a[..into0];
    assert done + t[json0..json0] == done;
    CopyOn(a, into0, json0, t, done, json0);
    into, json := CopyInside(a, into0 + 1, json0 + 1, t, done, json0);
    CopyOn(a, into, json, t, done, json0);
    into, json := into + 1, json + 1;
  }

  method CopyInside(a: array<Byte>, into0: nat, json0: nat, ghost t: Text, ghost done: Text, ghost from: nat)
    returns (into: nat, json: nat)
    requires Copied(a, t, done, from, into0, json0) && NoZero(t) && LiteralEnd(t, json0).Some?
    modifies a
    ensures Copied(a, t, done, from, into, json) && into0 <= into && At(t, json) == QUOTE
    ensures LiteralEnd(t, json) == LiteralEnd(t, json0)
  {
    hide Copied;
    into, json := into0, json0;
    var c := Peek(a, into, json, t, done, from);
    while c != 0 && c != QUOTE
      invariant Copied(a, t, done, from, into, json) && into0 <= into && json <= |t| && c == At(t, json)
      invariant LiteralEnd(t, json) == LiteralEnd(t, json0)
      decreases |t| - json
    {
      if c == BACKSLASH {
        CopyOn(a, into, json, t, done, from);
        into, json := into + 1, json + 1;
      }
      CopyOn(a, into, json, t, done, from);
      into, json := into + 1, json + 1;
      c := Peek(a, into, json, t, done, from);
    }
  }

  /** The two comment loops. */
  method SkipLine(a: array<Byte>, json0: nat, ghost t: Text) returns (json: nat)
    requires Unread(a, t, json0) && NoZero(t)
    ensures json == LineEnd(t, json0)
  {
    json := json0;
    while a[json] != 0 && a[json] != NEWLINE
      invariant json <= |t| && Unread(a, t, json) && LineEnd(t, json) == LineEnd(t, json0)
      decreases |t| - json
    {
      json := json + 1;
    }
  }

  method SkipComment(a: array<Byte>, json0: nat, ghost t: Text) returns (json: nat)
    requires Unread(a, t, json0) && NoZero(t) && CommentEnd(t, json0).Some?
    ensures Some(json) == CommentEnd(t, json0)
  {
    json := json0;
    while a[json] != 0 && !(a[json] == STAR && a[json + 1] == SLASH)
      invariant json <= |t| && Unread(a, t, json) && CommentEnd(t, json) == CommentEnd(t, json0)
      decreases |t| - json
    {
      json := json + 1;
    }
    json := json + 2;
  }

  /** cJSON_Minify: the write cursor never passes the read cursor, so one buffer is enough. */
  method Minify(a: array<Byte>, ghost t: Text) returns (into: nat)
    requires NoZero(t) && |t| < a.Length && a[..|t| + 1] == t + [0] && Closed(t)
    modifies a
    ensures into <= |t| && Minified(t, 0) == Some(a[..into]) && a[into] == 0
  {
    var json := 0;
    into := 0;
    ClosedExactly(t, 0);
    assert forall k | 0 <= k <= |t| :: a[k] == a[..|t| + 1][k];
    assert a[..0] + Minified(t, 0).value == Minified(t, 0).value;
    while a[json] != 0
      invariant into <= json <= |t| && Unread(a, t, json)
      invariant Minified(t, 0) == Prepend(a[..into], Minified(t, json))
      decreases |t| - json
    {
      ghost var done := a[..into];
      if IsSpace(a[json]) {
        json := json + 1;
      } else if a[json] == SLASH && a[json + 1] == SLASH {
        LineFrom(t, json);
        json := SkipLine(a, json, t);
      } else if a[json] == SLASH && a[json + 1] == STAR {
        json := SkipComment(a, json, t);
      } else if a[json] == QUOTE {
        ghost var start := json;
        into, json := CopyLiteral(a, into, json, t);
        Joined(done, t[start..json], Minified(t, json));
      } else {
        CopyByte(a, into, json, t);
        Joined(done, [t[json]], Minified(t, json + 1));
        into, json := into + 1, json + 1;
      }
    }
    assert a[..into] + [] == a[..into];
    a[into] := 0;
  }

  lemma LineFrom(t: Text, i: nat)
    requires At(t, i) == SLASH && At(t, i + 1) == SLASH
    ensures LineEnd(t, i) == LineEnd(t, i + 2)
  {
    assert LineEnd(t, i) == LineEnd(t, i + 1);
  }

  lemma Joined(x: Text, y: Text, rest: Option<Text>)
    ensures Prepend(x, Prepend(y, rest)) == Prepend(x + y, rest)
  {
    if rest.Some? {
      assert x + (y + rest.value) == x + y + rest.value;
    }
  }
}
