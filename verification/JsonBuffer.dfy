/** Printing into a growing buffer: ensure, update, and print_value with a printbuffer. */
module JsonBuffer {
  import opened CText
  import JsonString
  import Code = JsonStringCode
  import JsonNumber
  import Numerals
  import opened JsonTree
  import PowerOfTwo

  /** A text this much shorter than the greatest buffer never makes a size overflow an int. */
  const SLACK := 64

  // ---- printbuffer ---------------------------------------------------------------------------

  class PrintBuffer {
    var buffer: array<Byte>
    var offset: nat

    constructor (prebuffer: nat)
      requires prebuffer > 0
      ensures fresh(buffer) && buffer.Length == prebuffer && Wrote([])
    {
      buffer := new Byte[prebuffer];
      offset := 0;
    }

    /** The buffer holds `done` up to the offset. */
    ghost predicate Wrote(done: Text)
      reads this, buffer
    {
      offset == |done| <= buffer.Length && buffer[..offset] == done
    }

    /** ensure: afterwards the caller may write `needed` bytes behind the offset. */
    method Ensure(needed: nat, ghost done: Text)
      requires Wrote(done) && 0 < needed && |done| + needed <= PowerOfTwo.LIMIT
      modifies this`buffer
      ensures Wrote(done) && offset + needed <= buffer.Length
      ensures if offset + needed <= old(buffer).Length then buffer == old(buffer) else
                fresh(buffer) && PowerOfTwo.Power(buffer.Length)
                && forall q: nat | PowerOfTwo.Power(q) && offset + needed <= q :: buffer.Length <= q
    {
      if offset + needed > buffer.Length {
        var newsize := PowerOfTwo.Pow2gt(offset + needed);
        var newbuffer := new Byte[newsize];
        var from := buffer;
        for k := 0 to from.Length
          modifies newbuffer
          invariant forall j | 0 <= j < k :: newbuffer[j] == from[j]
        {
          newbuffer[k] := from[k];
        }
        assert newbuffer[..offset] == from[..offset];
        buffer := newbuffer;
      }
    }

    /** Stores behind the offset, into memory that Ensure secured. */
    method Store(x: Text, ghost done: Text)
      requires Wrote(done) && offset + |x| <= buffer.Length
      modifies buffer
      ensures Reads(done + x)
    {
      for k := 0 to |x|
        invariant buffer[..offset] == done
        invariant forall j | 0 <= j < k :: buffer[offset + j] == x[j]
      {
        buffer[offset + k] := x[k];
      }
      assert buffer[..offset + |x|] == done + x;
    }

    /** The buffer starts with x. */
    ghost predicate Reads(x: Text)
      reads this, buffer
    {
      |x| <= buffer.Length && buffer[..|x|] == x
    }

    /** update: the offset behind the text that was just printed. */
    method Update(ghost x: Text)
      requires Reads(x + [0]) && NoZero(x) && offset <= |x|
      modifies this`offset
      ensures Wrote(x)
    {
      var end := offset;
      assert forall k | 0 <= k <= |x| :: buffer[k] == buffer[..|x| + 1][k];
      while buffer[end] != 0
        invariant end <= |x|
        decreases |x| - end
      {
        end := end + 1;
      }
      assert buffer[..|x| + 1][..|x|] == buffer[..|x|];
      offset := end;
    }
  }

  // ---- print_value with a printbuffer ------------------------------------------------------------

  /** The loop state inside an array or object: `done` is written and `rest` is still to come. */
  ghost predicate Room(p: PrintBuffer, done: Text, rest: Text)
    reads p, p.buffer
  {
    p.Wrote(done) && NoZero(done) && NoZero(rest) && |done| + |rest| + SLACK <= PowerOfTwo.LIMIT
  }

  /** What a printing function leaves behind: its text and a zero, and an offset that update can start from. */
  ghost predicate Printed(p: PrintBuffer, done: Text, x: Text)
    reads p, p.buffer
  {
    p.Reads(done + x + [0]) && |done| <= p.offset <= |done| + |x|
  }

  /** Leaves of fixed width: ensure, then strcpy or sprintf. */
  method PrintShort(x: Text, width: nat, p: PrintBuffer, ghost done: Text)
    requires Room(p, done, x) && |x| < width <= SLACK
    modifies p, p.buffer
    ensures Printed(p, done, x) && (p.buffer == old(p.buffer) || fresh(p.buffer))
  {
    p.Ensure(width, done);
    p.Store(x + [0], done);
    assert done + (x + [0]) == done + x + [0];
  }

  method PrintString(s: Text, p: PrintBuffer, ghost done: Text)
    requires NoZero(s) && Room(p, done, JsonString.Literal(s))
    modifies p, p.buffer
    ensures Printed(p, done, JsonString.Literal(s)) && (p.buffer == old(p.buffer) || fresh(p.buffer))
  {
    var x := JsonString.Literal(s);
    var flag, len := Code.Measure(s);
    p.Ensure(len + 3, done);
    ghost var before := p.buffer[..];
    Code.Render(s, p.buffer, p.offset, flag, len);
    assert p.buffer[..p.offset] == before[..p.offset];
    assert p.buffer[..p.offset + len + 3] == done + (x + [0]);
    assert done + (x + [0]) == done + x + [0];
  }

  // ---- Widths and zeros --------------------------------------------------------------------------

  /** An int fits the 21 bytes that print_number asks for. */
  lemma NumberWidth(n: int)
    requires JsonNumber.INT_MIN <= n <= JsonNumber.INT_MAX
    ensures |JsonNumber.Decimal(n)| < 21
  {
    Numerals.DigitsFit(if n < 0 then -n else n, 10, false);
    hide Numerals.Digits;
  }

  lemma ZeroFree(x: Text, y: Text)
    ensures NoZero(x + y) <==> NoZero(x) && NoZero(y)
  {
    var z := x + y;
    if NoZero(z) {
      assert forall k | 0 <= k < |x| :: x[k] == z[k];
      assert forall k | 0 <= k < |y| :: y[k] == z[|x| + k];
    }
  }

  lemma {:induction false} TabsZeroFree(n: int)
    ensures NoZero(Tabs(n)) && |Tabs(n)| == (if n < 0 then 0 else n)
    decreases n
  {
    if n > 0 {
      TabsZeroFree(n - 1);
    }
  }

  lemma {:induction false} EscapedZeroFree(s: Text)
    requires NoZero(s)
    ensures NoZero(JsonString.Escaped(s))
  {
    if s != [] {
      EscapedZeroFree(s[1..]);
      ZeroFree(JsonString.Escape(s[0]), JsonString.Escaped(s[1..]));
    }
  }

  lemma LiteralZeroFree(s: Text)
    requires NoZero(s)
    ensures NoZero(JsonString.Literal(s))
  {
    EscapedZeroFree(s);
  }

  lemma NumberZeroFree(n: int)
    ensures NoZero(JsonNumber.Decimal(n))
  {
    JsonNumber.DecimalBytes(n);
    hide JsonNumber.Decimal;
  }

  lemma {:induction false} PrintZeroFree(j: Json, depth: nat, fmt: bool)
    requires Printable(j)
    ensures NoZero(Print(j, depth, fmt))
    decreases j, 1
  {
    match j
    case Num(n) => NumberZeroFree(n.mantissa);
    case Str(s) => LiteralZeroFree(s);
    case List(items) => ListZeroFree(items, depth, fmt);
    case Object(ms) => ObjectZeroFree(ms, depth, fmt);
    case _ =>
  }

  lemma {:induction false} ListZeroFree(items: seq<Json>, depth: nat, fmt: bool)
    requires Printable(List(items))
    ensures NoZero(Print(List(items), depth, fmt))
    decreases List(items), 0
  {
    ItemsZeroFree(items, depth + 1, fmt);
    ZeroFree([OPEN_LIST], PrintItems(items, depth + 1, fmt));
    ZeroFree([OPEN_LIST] + PrintItems(items, depth + 1, fmt), [CLOSE_LIST]);
    hide PrintItems;
  }

  lemma LinesZeroFree(depth: int, fmt: bool)
    ensures NoZero(OpenLine(fmt)) && NoZero(CloseLine(depth, fmt)) && NoZero(Colon(fmt))
    ensures forall more :: NoZero(Tail(more, fmt))
  {
    TabsZeroFree(depth);
  }

  lemma {:induction false} ObjectZeroFree(ms: seq<Member>, depth: nat, fmt: bool)
    requires Printable(Object(ms))
    ensures NoZero(Print(Object(ms), depth, fmt))
    decreases Object(ms), 0
  {
    LinesZeroFree(depth, fmt);
    LinesZeroFree(depth - 1, fmt);
    MembersZeroFree(ms, depth + 1, fmt);
    hide PrintMembers, OpenLine, CloseLine, NoZero;
    ZeroFree(OpenLine(fmt), CloseLine(depth - 1, fmt));
    ZeroFree(OpenLine(fmt), PrintMembers(ms, depth + 1, fmt));
    ZeroFree(OpenLine(fmt) + PrintMembers(ms, depth + 1, fmt), CloseLine(depth, fmt));
  }

  lemma {:induction false} ItemsZeroFree(items: seq<Json>, depth: nat, fmt: bool)
    requires forall k | 0 <= k < |items| :: Printable(items[k])
    ensures NoZero(PrintItems(items, depth, fmt))
    decreases items
  {
    hide Print, Printable;
    if items != [] {
      PrintZeroFree(items[0], depth, fmt);
      ItemsZeroFree(items[1..], depth, fmt);
    }
  }

  lemma {:induction false} MembersZeroFree(ms: seq<Member>, depth: nat, fmt: bool)
    requires forall k | 0 <= k < |ms| :: NoZero(ms[k].name) && Printable(ms[k].value)
    ensures NoZero(PrintMembers(ms, depth, fmt))
    decreases ms
  {
    hide Print, Printable, JsonString.Literal, Tabs;
    if ms != [] {
      TabsZeroFree(depth);
      LiteralZeroFree(ms[0].name);
      PrintZeroFree(ms[0].value, depth, fmt);
      MembersZeroFree(ms[1..], depth, fmt);
    }
  }

  // ---- Arrays and objects ------------------------------------------------------------------------

  /** ensure, store x and perhaps a zero, and advance the offset behind x. */
  method Append(x: Text, zero: bool, p: PrintBuffer, ghost done: Text, ghost rest: Text)
    requires Room(p, done, x + rest) && (|x| > 0 || zero)
    modifies p, p.buffer
    ensures Room(p, done + x, rest) && (p.buffer == old(p.buffer) || fresh(p.buffer))
    ensures done + (x + rest) == done + x + rest
  {
    p.Ensure(if zero then |x| + 1 else |x|, done);
    p.Store(if zero then x + [0] else x, done);
    assert p.buffer[..|done + x|] == done + x by {
      assert done + (x + [0]) == (done + x) + [0];
    }
    p.offset := p.offset + |x|;
    ZeroFree(x, rest);
    ZeroFree(done, x);
  }

  /** print_value of a child, then update. */
  method PrintChild(j: Json, depth: nat, fmt: bool, p: PrintBuffer, ghost done: Text, ghost rest: Text)
    requires Printable(j) && Room(p, done, Print(j, depth, fmt) + rest)
    modifies p, p.buffer
    ensures Room(p, done + Print(j, depth, fmt), rest) && (p.buffer == old(p.buffer) || fresh(p.buffer))
    ensures done + (Print(j, depth, fmt) + rest) == done + Print(j, depth, fmt) + rest
    decreases j, 2
  {
    hide Print, Printable;
    ghost var x := Print(j, depth, fmt);
    ZeroFree(x, rest);
    ZeroFree(done, x);
    PrintValue(j, depth, fmt, p, done);
    p.Update(done + x);
  }

  method PrintValue(j: Json, depth: nat, fmt: bool, p: PrintBuffer, ghost done: Text)
    requires Printable(j) && Room(p, done, Print(j, depth, fmt))
    modifies p, p.buffer
    ensures Printed(p, done, Print(j, depth, fmt)) && (p.buffer == old(p.buffer) || fresh(p.buffer))
    decreases j, 1
  {
    match j {
      case Null => PrintShort(NULL_TEXT, 5, p, done);
      case False => PrintShort(FALSE_TEXT, 6, p, done);
      case True => PrintShort(TRUE_TEXT, 5, p, done);
      case Num(n) =>
        NumberWidth(n.mantissa);
        PrintShort(JsonNumber.Decimal(n.mantissa), if n.mantissa == 0 then 2 else 21, p, done);
      case Str(s) => PrintString(s, p, done);
      case List(items) => PrintList(items, depth, fmt, p, done);
      case Object(ms) => PrintObject(ms, depth, fmt, p, done);
    }
  }

  method PrintList(items: seq<Json>, depth: nat, fmt: bool, p: PrintBuffer, ghost done0: Text)
    requires Printable(List(items)) && Room(p, done0, Print(List(items), depth, fmt))
    modifies p, p.buffer
    ensures Printed(p, done0, Print(List(items), depth, fmt)) && (p.buffer == old(p.buffer) || fresh(p.buffer))
    decreases List(items), 0
  {
    if items == [] {
      PrintShort([OPEN_LIST, CLOSE_LIST], 3, p, done0);
      return;
    }
    ghost var whole := Print(List(items), depth, fmt);
    ghost var rest := PrintItems(items, depth + 1, fmt) + [CLOSE_LIST];
    assert whole == [OPEN_LIST] + rest;
    hide Print, PrintItems, Printable, Comma;
    Append([OPEN_LIST], false, p, done0, rest);
    ghost var done := done0 + [OPEN_LIST];
    for k := 0 to |items|
      invariant Room(p, done, rest) && done + rest == done0 + whole && |done| > |done0|
      invariant rest == PrintItems(items[k..], depth + 1, fmt) + [CLOSE_LIST]
      invariant p.buffer == old(p.buffer) || fresh(p.buffer)
    {
      ghost var x := Print(items[k], depth + 1, fmt);
      ghost var after := Comma(k + 1 < |items|, fmt) + (PrintItems(items[k + 1..], depth + 1, fmt) + [CLOSE_LIST]);
      ItemsUnfold(items, k, depth + 1, fmt);
      assert rest == x + after;
      PrintChild(items[k], depth + 1, fmt, p, done, after);
      done, rest := done + x, after;
      if k + 1 < |items| {
        after := PrintItems(items[k + 1..], depth + 1, fmt) + [CLOSE_LIST];
        CommaSize(fmt);
        Append(Comma(true, fmt), true, p, done, after);
        done, rest := done + Comma(true, fmt), after;
      } else {
        NoComma(fmt);
      }
    }
    NoItems(items, depth + 1, fmt);
    Finish([CLOSE_LIST], 2, p, done);
    assert done + [CLOSE_LIST] == done0 + whole;
  }

  lemma ItemsUnfold(items: seq<Json>, k: nat, depth: nat, fmt: bool)
    requires k < |items|
    ensures PrintItems(items[k..], depth, fmt) + [CLOSE_LIST] ==
      Print(items[k], depth, fmt) + (Comma(k + 1 < |items|, fmt)
                                     + (PrintItems(items[k + 1..], depth, fmt) + [CLOSE_LIST]))
  {
    assert items[k..][1..] == items[k + 1..];
    hide Print, Comma;
  }

  lemma NoItems(items: seq<Json>, depth: nat, fmt: bool)
    ensures PrintItems(items[|items|..], depth, fmt) + [CLOSE_LIST] == [CLOSE_LIST]
  {
    assert items[|items|..] == [];
  }

  lemma CommaSize(fmt: bool)
    ensures |Comma(true, fmt)| > 0
  {
  }

  lemma NoComma(fmt: bool)
    ensures forall x: Text :: Comma(false, fmt) + x == x
  {
  }

  method PrintObject(ms: seq<Member>, depth: nat, fmt: bool, p: PrintBuffer, ghost done0: Text)
    requires Printable(Object(ms)) && Room(p, done0, Print(Object(ms), depth, fmt))
    modifies p, p.buffer
    ensures Printed(p, done0, Print(Object(ms), depth, fmt)) && (p.buffer == old(p.buffer) || fresh(p.buffer))
    decreases Object(ms), 0
  {
    hide Print, Room, Printed;
    if ms == [] {
      PrintEmptyObject(depth, fmt, p, done0);
    } else {
      PrintFullObject(ms, depth, fmt, p, done0);
    }
  }

  lemma ObjectText(ms: seq<Member>, depth: nat, fmt: bool)
    requires ms != []
    ensures Print(Object(ms), depth, fmt) == OpenLine(fmt) + (PrintMembers(ms, depth + 1, fmt) + CloseLine(depth, fmt))
  {
    hide PrintMembers, OpenLine, CloseLine;
  }

  method PrintFullObject(ms: seq<Member>, depth: nat, fmt: bool, p: PrintBuffer, ghost done0: Text)
    requires ms != [] && Printable(Object(ms)) && Room(p, done0, Print(Object(ms), depth, fmt))
    modifies p, p.buffer
    ensures Printed(p, done0, Print(Object(ms), depth, fmt)) && (p.buffer == old(p.buffer) || fresh(p.buffer))
    decreases ms
  {
    hide Print, PrintMembers, OpenLine, CloseLine, Room, NoZero, MemberText;
    ghost var whole := Print(Object(ms), depth, fmt);
    ghost var rest := PrintMembers(ms, depth + 1, fmt) + CloseLine(depth, fmt);
    ObjectText(ms, depth, fmt);
    LineSizes(depth, fmt);
    Append(OpenLine(fmt), true, p, done0, rest);
    ghost var done := done0 + OpenLine(fmt);
    for k := 0 to |ms|
      invariant Room(p, done, rest) && done + rest == done0 + whole && |done| >= |done0|
      invariant rest == PrintMembers(ms[k..], depth + 1, fmt) + CloseLine(depth, fmt)
      invariant p.buffer == old(p.buffer) || fresh(p.buffer)
    {
      ghost var x := MemberText(ms[k], k + 1 < |ms|, depth + 1, fmt);
      ghost var after := PrintMembers(ms[k + 1..], depth + 1, fmt) + CloseLine(depth, fmt);
      MembersUnfold(ms, k, depth + 1, fmt, CloseLine(depth, fmt));
      assert NoZero(ms[k].name) && Printable(ms[k].value);
      PrintMember(ms[k], k + 1 < |ms|, depth + 1, fmt, p, done, after);
      done, rest := done + x, after;
    }
    NoMembers(ms, depth + 1, fmt, CloseLine(depth, fmt));
    Finish(CloseLine(depth, fmt), if fmt then depth + 2 else 2, p, done);
    assert done + CloseLine(depth, fmt) == done0 + whole;
  }

  /** The last part of a text, with its zero, in memory for exactly `needed` bytes; the offset stays. */
  method Finish(x: Text, needed: nat, p: PrintBuffer, ghost done: Text)
    requires Room(p, done, x) && needed == |x| + 1
    modifies p, p.buffer
    ensures p.Reads(done + x + [0]) && p.offset == |done| && (p.buffer == old(p.buffer) || fresh(p.buffer))
  {
    p.Ensure(needed, done);
    p.Store(x + [0], done);
    assert done + (x + [0]) == done + x + [0];
  }

  method PrintEmptyObject(depth: nat, fmt: bool, p: PrintBuffer, ghost done: Text)
    requires Room(p, done, Print(Object([]), depth, fmt))
    modifies p, p.buffer
    ensures Printed(p, done, Print(Object([]), depth, fmt)) && (p.buffer == old(p.buffer) || fresh(p.buffer))
  {
    TabsZeroFree(depth - 1);
    var x := OpenLine(fmt) + CloseLine(depth - 1, fmt);
    p.Ensure(if fmt then depth + 4 else 3, done);
    p.Store(x + [0], done);
    assert done + (x + [0]) == done + x + [0];
  }

  lemma LineSizes(depth: nat, fmt: bool)
    ensures |OpenLine(fmt)| > 0 && |CloseLine(depth, fmt)| + 1 == if fmt then depth + 2 else 2
  {
    TabsZeroFree(depth);
  }

  /** One member as PrintMembers lays it out. */
  function MemberText(m: Member, more: bool, depth: nat, fmt: bool): Text {
    Fmt(fmt, Tabs(depth)) + JsonString.Literal(m.name) + Colon(fmt) + Print(m.value, depth, fmt) + Tail(more, fmt)
  }

  lemma MembersCons(ms: seq<Member>, depth: nat, fmt: bool)
    requires ms != []
    ensures PrintMembers(ms, depth, fmt) == MemberText(ms[0], |ms| > 1, depth, fmt) + PrintMembers(ms[1..], depth, fmt)
  {
    hide Print, Tabs, Fmt, Tail, Colon, JsonString.Literal;
  }

  lemma Assoc(x: Text, y: Text, z: Text)
    ensures x + y + z == x + (y + z)
  {
  }

  lemma MembersUnfold(ms: seq<Member>, k: nat, depth: nat, fmt: bool, close: Text)
    requires k < |ms|
    ensures PrintMembers(ms[k..], depth, fmt) + close ==
      MemberText(ms[k], k + 1 < |ms|, depth, fmt) + (PrintMembers(ms[k + 1..], depth, fmt) + close)
  {
    hide PrintMembers, MemberText;
    assert ms[k..][1..] == ms[k + 1..];
    MembersCons(ms[k..], depth, fmt);
    Assoc(MemberText(ms[k], k + 1 < |ms|, depth, fmt), PrintMembers(ms[k + 1..], depth, fmt), close);
  }

  lemma NoMembers(ms: seq<Member>, depth: nat, fmt: bool, close: Text)
    ensures PrintMembers(ms[|ms|..], depth, fmt) + close == close
  {
    assert ms[|ms|..] == [];
  }

  lemma FiveParts(done: Text, a: Text, b: Text, c: Text, d: Text, e: Text, rest: Text)
    ensures a + b + c + d + e + rest == a + (b + (c + (d + (e + rest))))
    ensures done + (a + b + c + d + e) == done + a + b + c + d + e
    ensures done + (a + b + c + d + e + rest) == done + (a + b + c + d + e) + rest
  {
    Assoc(a, b, c + (d + (e + rest)));
    Assoc(a + b, c, d + (e + rest));
    Assoc(a + b + c, d, e + rest);
    Assoc(a + b + c + d, e, rest);
    Assoc(done, a, b);
    Assoc(done, a + b, c);
    Assoc(done, a + b + c, d);
    Assoc(done, a + b + c + d, e);
    Assoc(done, a + b + c + d + e, rest);
  }

  method PrintMember(m: Member, more: bool, depth: nat, fmt: bool, p: PrintBuffer, ghost done0: Text, ghost rest: Text)
    requires NoZero(m.name) && Printable(m.value) && depth > 0
    requires Room(p, done0, MemberText(m, more, depth, fmt) + rest)
    modifies p, p.buffer
    ensures Room(p, done0 + MemberText(m, more, depth, fmt), rest) && (p.buffer == old(p.buffer) || fresh(p.buffer))
    ensures done0 + (MemberText(m, more, depth, fmt) + rest) == done0 + MemberText(m, more, depth, fmt) + rest
    decreases m, 3
  {
    ghost var tabs, name, value, tail := Fmt(fmt, Tabs(depth)), JsonString.Literal(m.name),
        Print(m.value, depth, fmt), Tail(more, fmt);
    assert |Colon(fmt)| > 0;
    assert MemberText(m, more, depth, fmt) == tabs + name + Colon(fmt) + value + tail;
    hide Print, Printable, Tabs, Tail, Colon, MemberText, JsonString.Literal, Room, Fmt;
    FiveParts(done0, tabs, name, Colon(fmt), value, tail, rest);
    Indent(depth, fmt, p, done0, name + (Colon(fmt) + (value + (tail + rest))));
    PrintName(m.name, p, done0 + tabs, Colon(fmt) + (value + (tail + rest)));
    Append(Colon(fmt), false, p, done0 + tabs + name, value + (tail + rest));
    PrintChild(m.value, depth, fmt, p, done0 + tabs + name + Colon(fmt), tail + rest);
    Append(Tail(more, fmt), true, p, done0 + tabs + name + Colon(fmt) + value, rest);
  }

  /** The tabs in front of a member. */
  method Indent(depth: nat, fmt: bool, p: PrintBuffer, ghost done: Text, ghost rest: Text)
    requires depth > 0 && Room(p, done, Fmt(fmt, Tabs(depth)) + rest)
    modifies p, p.buffer
    ensures Room(p, done + Fmt(fmt, Tabs(depth)), rest) && (p.buffer == old(p.buffer) || fresh(p.buffer))
    ensures done + (Fmt(fmt, Tabs(depth)) + rest) == done + Fmt(fmt, Tabs(depth)) + rest
  {
    TabsZeroFree(depth);
    if fmt {
      Append(Tabs(depth), false, p, done, rest);
    } else {
      assert [] + rest == rest && done + [] == done;
    }
  }

  /** print_string_ptr of a name, then update. */
  method PrintName(s: Text, p: PrintBuffer, ghost done: Text, ghost rest: Text)
    requires NoZero(s) && Room(p, done, JsonString.Literal(s) + rest)
    modifies p, p.buffer
    ensures Room(p, done + JsonString.Literal(s), rest) && (p.buffer == old(p.buffer) || fresh(p.buffer))
    ensures done + (JsonString.Literal(s) + rest) == done + JsonString.Literal(s) + rest
  {
    hide JsonString.Literal;
    ghost var x := JsonString.Literal(s);
    ZeroFree(x, rest);
    ZeroFree(done, x);
    PrintString(s, p, done);
    p.Update(done + x);
  }

  /** cJSON_PrintBuffered: for every tree, format flag and initial size of at least 1, the buffer ends up
      with the text that the exact-size printer returns, and its zero. */
  method PrintBuffered(j: Json, prebuffer: nat, fmt: bool) returns (out: array<Byte>)
    requires Printable(j) && prebuffer > 0 && |Print(j, 0, fmt)| + SLACK <= PowerOfTwo.LIMIT
    ensures |Print(j, 0, fmt)| < out.Length && out[..|Print(j, 0, fmt)| + 1] == Print(j, 0, fmt) + [0]
  {
    hide Print, Printable;
    var p := new PrintBuffer(prebuffer);
    PrintZeroFree(j, 0, fmt);
    ghost var x := Print(j, 0, fmt);
    PrintValue(j, 0, fmt, p, []);
    assert [] + x + [0] == x + [0];
    out := p.buffer;
  }
}
