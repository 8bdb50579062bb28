/** Printing into memory of a precomputed size: print_value without a printbuffer. */
module JsonPlain {
  import opened CText
  import JsonString
  import Code = JsonStringCode
  import JsonNumber
  import opened JsonTree
  import Buffer = JsonBuffer

  /** The memory starts with x and a zero. */
  ghost predicate Holds(a: array<Byte>, x: Text)
    reads a
  {
    |x| < a.Length && a[..|x| + 1] == x + [0] && NoZero(x)
  }

  method Strlen(a: array<Byte>, ghost x: Text) returns (n: nat)
    requires Holds(a, x)
    ensures n == |x| && n < a.Length && a[..n] == x
  {
    n := 0;
    assert forall k | 0 <= k <= |x| :: a[k] == a[..|x| + 1][k];
    while a[n] != 0
      invariant n <= |x|
      decreases |x| - n
    {
      n := n + 1;
    }
    assert a[..|x| + 1][..|x|] == a[..|x|];
  }

  /** strcpy into fresh memory of the given size. */
  method Copy(x: Text, size: nat) returns (out: array<Byte>)
    requires NoZero(x) && |x| < size
    ensures fresh(out) && Holds(out, x)
  {
    out := new Byte[size];
    Write(out, 0, x + [0], []);
    assert [] + (x + [0]) == x + [0];
  }

  /** Stores x behind what is there already. */
  method Write(out: array<Byte>, ptr: nat, x: Text, ghost done: Text)
    requires ptr == |done| && ptr + |x| <= out.Length && out[..ptr] == done
    modifies out
    ensures out[..ptr + |x|] == done + x
  {
    for k := 0 to |x|
      invariant out[..ptr] == done
      invariant forall j | 0 <= j < k :: out[ptr + j] == x[j]
    {
      out[ptr + k] := x[k];
    }
    assert out[..ptr + |x|] == done + x;
  }

  /** Copies the string at `src` behind what is there already; returns the cursor behind it. */
  method CopyString(out: array<Byte>, ptr: nat, src: array<Byte>, ghost x: Text, ghost done: Text) returns (next: nat)
    requires Holds(src, x) && src != out && ptr == |done| && ptr + |x| <= out.Length && out[..ptr] == done
    modifies out
    ensures next == |done + x| && out[..next] == done + x
  {
    var n := Strlen(src, x);
    Write(out, ptr, src[..n], done);
    next := ptr + n;
  }

  // ---- Sizes -----------------------------------------------------------------------------------

  /** What the measuring loops of print_array and print_object add up. */
  function ItemsLen(items: seq<Json>, depth: nat, fmt: bool): nat {
    if items == [] then 0
    else |Print(items[0], depth, fmt)| + 2 + (if fmt then 1 else 0) + ItemsLen(items[1..], depth, fmt)
  }

  function MembersLen(ms: seq<Member>, depth: nat, fmt: bool): nat {
    if ms == [] then 0
    else |Print(ms[0].value, depth, fmt)| + |JsonString.Literal(ms[0].name)| + 2 + (if fmt then 2 + depth else 0)
         + MembersLen(ms[1..], depth, fmt)
  }

  lemma {:induction false} ItemsFit(items: seq<Json>, depth: nat, fmt: bool)
    ensures |PrintItems(items, depth, fmt)| <= ItemsLen(items, depth, fmt)
  {
    hide Print;
    if items != [] {
      ItemsFit(items[1..], depth, fmt);
    }
  }

  lemma {:induction false} MembersFit(ms: seq<Member>, depth: nat, fmt: bool)
    ensures |PrintMembers(ms, depth, fmt)| <= MembersLen(ms, depth, fmt)
  {
    hide Print, JsonString.Literal, Tabs;
    if ms != [] {
      MembersFit(ms[1..], depth, fmt);
      Buffer.TabsZeroFree(depth);
    }
  }

  /** The computed sizes are enough for the text and its zero. */
  lemma ListFits(items: seq<Json>, depth: nat, fmt: bool)
    ensures |Print(List(items), depth, fmt)| + 1 <= 5 + ItemsLen(items, depth + 1, fmt)
  {
    ItemsFit(items, depth + 1, fmt);
    hide PrintItems;
  }

  lemma ObjectFits(ms: seq<Member>, depth: nat, fmt: bool)
    requires ms != []
    ensures |Print(Object(ms), depth, fmt)| + 1 <= 7 + (if fmt then depth + 1 else 0) + MembersLen(ms, depth + 1, fmt)
  {
    MembersFit(ms, depth + 1, fmt);
    Buffer.TabsZeroFree(depth);
    hide PrintMembers, Tabs;
  }

  // ---- print_value -------------------------------------------------------------------------------

  method PrintValue(j: Json, depth: nat, fmt: bool) returns (out: array<Byte>)
    requires Printable(j)
    ensures fresh(out) && Holds(out, Print(j, depth, fmt))
    decreases j, 1
  {
    Buffer.PrintZeroFree(j, depth, fmt);
    match j {
      case Null => out := Copy(NULL_TEXT, 5);
      case False => out := Copy(FALSE_TEXT, 6);
      case True => out := Copy(TRUE_TEXT, 5);
      case Num(n) =>
        Buffer.NumberWidth(n.mantissa);
        out := Copy(JsonNumber.Decimal(n.mantissa), if n.mantissa == 0 then 2 else 21);
      case Str(s) =>
        out := Code.PrintStringPtr(s);
        assert out[..|JsonString.Literal(s)| + 1] == out[..];
      case List(items) => out := PrintList(items, depth, fmt);
      case Object(ms) => out := PrintObject(ms, depth, fmt);
    }
  }

  /** The first loop of print_array: the printed entries and the size of the whole. */
  method PrintEntries(items: seq<Json>, depth: nat, fmt: bool) returns (entries: seq<array<Byte>>, len: nat)
    requires forall k | 0 <= k < |items| :: Printable(items[k])
    ensures |entries| == |items| && len == 5 + ItemsLen(items, depth, fmt)
    ensures forall k | 0 <= k < |items| :: Holds(entries[k], Print(items[k], depth, fmt))
    decreases items
  {
    hide Print, Printable, Holds;
    entries, len := [], 5;
    for k := 0 to |items|
      invariant |entries| == k && len + ItemsLen(items[k..], depth, fmt) == 5 + ItemsLen(items, depth, fmt)
      invariant forall m | 0 <= m < k :: Holds(entries[m], Print(items[m], depth, fmt))
    {
      assert items[k..][1..] == items[k + 1..];
      var ret := PrintValue(items[k], depth, fmt);
      var n := Strlen(ret, Print(items[k], depth, fmt));
      entries := entries + [ret];
      len := len + n + 2 + (if fmt then 1 else 0);
    }
  }

  method PrintList(items: seq<Json>, depth: nat, fmt: bool) returns (out: array<Byte>)
    requires Printable(List(items))
    ensures fresh(out) && Holds(out, Print(List(items), depth, fmt))
    decreases List(items), 0
  {
    hide Print, Holds, PrintItems;
    if items == [] {
      EmptyListText(depth, fmt);
      out := Copy([OPEN_LIST, CLOSE_LIST], 3);
    } else {
      var entries, len := PrintEntries(items, depth + 1, fmt);
      ListFits(items, depth, fmt);
      out := new Byte[len];
      ComposeList(items, depth, fmt, entries, out);
    }
  }

  lemma EmptyListText(depth: nat, fmt: bool)
    ensures Print(List([]), depth, fmt) == [OPEN_LIST, CLOSE_LIST] && NoZero([OPEN_LIST, CLOSE_LIST])
  {
  }

  lemma ListText(items: seq<Json>, depth: nat, fmt: bool)
    requires items != []
    ensures Print(List(items), depth, fmt) == [OPEN_LIST] + (PrintItems(items, depth + 1, fmt) + [CLOSE_LIST])
  {
    hide PrintItems;
  }

  /** The second loop of print_array. */
  method ComposeList(items: seq<Json>, depth: nat, fmt: bool, entries: seq<array<Byte>>, out: array<Byte>)
    requires items != [] && Printable(List(items)) && |entries| == |items| && out !in entries
    requires |Print(List(items), depth, fmt)| < out.Length
    requires forall k | 0 <= k < |items| :: Holds(entries[k], Print(items[k], depth + 1, fmt))
    modifies out
    ensures Holds(out, Print(List(items), depth, fmt))
  {
    hide Print, PrintItems, Comma, Holds;
    ghost var whole := Print(List(items), depth, fmt);
    ghost var rest := PrintItems(items, depth + 1, fmt) + [CLOSE_LIST];
    ListText(items, depth, fmt);
    Write(out, 0, [OPEN_LIST], []);
    var ptr := 1;
    ghost var done: Text := [OPEN_LIST];
    assert [] + [OPEN_LIST] == done;
    for i := 0 to |items|
      invariant ptr == |done| && ptr <= out.Length && out[..ptr] == done && done + rest == whole
      invariant rest == PrintItems(items[i..], depth + 1, fmt) + [CLOSE_LIST]
      invariant forall k | 0 <= k < |items| :: Holds(entries[k], Print(items[k], depth + 1, fmt))
    {
      ghost var x := Print(items[i], depth + 1, fmt);
      ghost var after := PrintItems(items[i + 1..], depth + 1, fmt) + [CLOSE_LIST];
      Buffer.ItemsUnfold(items, i, depth + 1, fmt);
      Buffer.Assoc(done, x, Comma(i + 1 < |items|, fmt) + after);
      Buffer.Assoc(done + x, Comma(i + 1 < |items|, fmt), after);
      assert entries[i] != out;
      ptr := CopyString(out, ptr, entries[i], x, done);
      var comma := Comma(i + 1 < |items|, fmt);
      Write(out, ptr, comma, done + x);
      ptr := ptr + |comma|;
      done, rest := done + x + comma, after;
    }
    Buffer.NoItems(items, depth + 1, fmt);
    Write(out, ptr, [CLOSE_LIST, 0], done);
    assert done + [CLOSE_LIST, 0] == whole + [0];
    Buffer.PrintZeroFree(List(items), depth, fmt);
    assert Holds(out, whole) by { Filled(out, whole); }
  }

  lemma Filled(out: array<Byte>, x: Text)
    requires |x| < out.Length && out[..|x| + 1] == x + [0] && NoZero(x)
    ensures Holds(out, x)
  {
  }

  method PrintObject(ms: seq<Member>, depth: nat, fmt: bool) returns (out: array<Byte>)
    requires Printable(Object(ms))
    ensures fresh(out) && Holds(out, Print(Object(ms), depth, fmt))
    decreases Object(ms), 0
  {
    hide Print, Holds, PrintMembers;
    if ms == [] {
      Buffer.PrintZeroFree(Object([]), depth, fmt);
      EmptyObjectText(depth, fmt);
      out := Copy(OpenLine(fmt) + CloseLine(depth - 1, fmt), if fmt then depth + 4 else 3);
    } else {
      var names, entries, len := PrintMemberEntries(ms, depth + 1, fmt);
      ObjectFits(ms, depth, fmt);
      out := new Byte[len];
      ComposeObject(ms, depth, fmt, names, entries, out);
    }
  }

  lemma EmptyObjectText(depth: nat, fmt: bool)
    ensures Print(Object([]), depth, fmt) == OpenLine(fmt) + CloseLine(depth - 1, fmt)
    ensures |OpenLine(fmt) + CloseLine(depth - 1, fmt)| < if fmt then depth + 4 else 3
  {
    Buffer.TabsZeroFree(depth - 1);
  }

  /** The first loop of print_object. */
  method PrintMemberEntries(ms: seq<Member>, depth: nat, fmt: bool)
    returns (names: seq<array<Byte>>, entries: seq<array<Byte>>, len: nat)
    requires forall k | 0 <= k < |ms| :: NoZero(ms[k].name) && Printable(ms[k].value)
    ensures |names| == |entries| == |ms| && len == 7 + (if fmt then depth else 0) + MembersLen(ms, depth, fmt)
    ensures forall k | 0 <= k < |ms| :: Holds(names[k], JsonString.Literal(ms[k].name))
    ensures forall k | 0 <= k < |ms| :: Holds(entries[k], Print(ms[k].value, depth, fmt))
    decreases ms
  {
    hide Print, Printable, Holds, JsonString.Literal;
    names, entries, len := [], [], 7 + if fmt then depth else 0;
    for k := 0 to |ms|
      invariant |names| == |entries| == k
      invariant len + MembersLen(ms[k..], depth, fmt) == 7 + (if fmt then depth else 0) + MembersLen(ms, depth, fmt)
      invariant forall m | 0 <= m < k :: Holds(names[m], JsonString.Literal(ms[m].name))
      invariant forall m | 0 <= m < k :: Holds(entries[m], Print(ms[m].value, depth, fmt))
    {
      assert ms[k..][1..] == ms[k + 1..];
      var str, ret, n, m := PrintMemberEntry(ms[k], depth, fmt);
      names, entries := names + [str], entries + [ret];
      len := len + m + n + 2 + (if fmt then 2 + depth else 0);
    }
  }

  method PrintMemberEntry(m: Member, depth: nat, fmt: bool) returns (str: array<Byte>, ret: array<Byte>, n: nat, v: nat)
    requires NoZero(m.name) && Printable(m.value)
    ensures fresh(str) && fresh(ret) && Holds(str, JsonString.Literal(m.name)) && Holds(ret, Print(m.value, depth, fmt))
    ensures n == |JsonString.Literal(m.name)| && v == |Print(m.value, depth, fmt)|
    decreases m, 3
  {
    hide Print, JsonString.Literal;
    str := Code.PrintStringPtr(m.name);
    Buffer.LiteralZeroFree(m.name);
    assert str[..|JsonString.Literal(m.name)| + 1] == str[..];
    n := Strlen(str, JsonString.Literal(m.name));
    ret := PrintValue(m.value, depth, fmt);
    v := Strlen(ret, Print(m.value, depth, fmt));
  }

  /** The second loop of print_object. */
  method ComposeObject(ms: seq<Member>, depth: nat, fmt: bool, names: seq<array<Byte>>, entries: seq<array<Byte>>,
                       out: array<Byte>)
    requires ms != [] && Printable(Object(ms)) && |names| == |entries| == |ms| && out !in names && out !in entries
    requires |Print(Object(ms), depth, fmt)| < out.Length
    requires forall k | 0 <= k < |ms| :: Holds(names[k], JsonString.Literal(ms[k].name))
    requires forall k | 0 <= k < |ms| :: Holds(entries[k], Print(ms[k].value, depth + 1, fmt))
    modifies out
    ensures Holds(out, Print(Object(ms), depth, fmt))
  {
    hide Print, PrintMembers, OpenLine, CloseLine, Holds, Buffer.MemberText;
    ghost var whole := Print(Object(ms), depth, fmt);
    ghost var rest := PrintMembers(ms, depth + 1, fmt) + CloseLine(depth, fmt);
    Buffer.ObjectText(ms, depth, fmt);
    Write(out, 0, OpenLine(fmt), []);
    ghost var done := OpenLine(fmt);
    var ptr := |OpenLine(fmt)|;
    assert [] + OpenLine(fmt) == done;
    for i := 0 to |ms|
      invariant ptr == |done| && ptr <= out.Length && out[..ptr] == done && done + rest == whole
      invariant rest == PrintMembers(ms[i..], depth + 1, fmt) + CloseLine(depth, fmt)
      invariant forall k | 0 <= k < |ms| :: Holds(names[k], JsonString.Literal(ms[k].name))
      invariant forall k | 0 <= k < |ms| :: Holds(entries[k], Print(ms[k].value, depth + 1, fmt))
    {
      ghost var x := Buffer.MemberText(ms[i], i + 1 < |ms|, depth + 1, fmt);
      ghost var after := PrintMembers(ms[i + 1..], depth + 1, fmt) + CloseLine(depth, fmt);
      Buffer.MembersUnfold(ms, i, depth + 1, fmt, CloseLine(depth, fmt));
      Buffer.Assoc(done, x, after);
      assert names[i] != out && entries[i] != out;
      ptr := ComposeMember(ms[i], i + 1 < |ms|, depth + 1, fmt, names[i], entries[i], out, ptr, done);
      done, rest := done + x, after;
    }
    Buffer.NoMembers(ms, depth + 1, fmt, CloseLine(depth, fmt));
    Write(out, ptr, CloseLine(depth, fmt) + [0], done);
    Buffer.Assoc(done, CloseLine(depth, fmt), [0]);
    Buffer.PrintZeroFree(Object(ms), depth, fmt);
    Filled(out, whole);
  }

  /** Tabs, name, colon, value, comma and newline of one member. */
  method ComposeMember(m: Member, more: bool, depth: nat, fmt: bool, name: array<Byte>, entry: array<Byte>,
                       out: array<Byte>, ptr0: nat, ghost done: Text) returns (ptr: nat)
    requires name != out && entry != out && ptr0 == |done| && ptr0 <= out.Length && out[..ptr0] == done
    requires Holds(name, JsonString.Literal(m.name)) && Holds(entry, Print(m.value, depth, fmt))
    requires ptr0 + |Buffer.MemberText(m, more, depth, fmt)| <= out.Length
    modifies out
    ensures ptr == ptr0 + |Buffer.MemberText(m, more, depth, fmt)|
    ensures out[..ptr] == done + Buffer.MemberText(m, more, depth, fmt)
  {
    var tabs, colon, tail := Fmt(fmt, Tabs(depth)), Colon(fmt), Tail(more, fmt);
    ghost var n, v := JsonString.Literal(m.name), Print(m.value, depth, fmt);
    assert Buffer.MemberText(m, more, depth, fmt) == tabs + n + colon + v + tail;
    hide Print, JsonString.Literal, Tabs, Fmt, Colon, Tail, Buffer.MemberText, Holds;
    Buffer.FiveParts(done, tabs, n, colon, v, tail, []);
    Write(out, ptr0, tabs, done);
    ptr := ptr0 + |tabs|;
    ptr := CopyString(out, ptr, name, n, done + tabs);
    Write(out, ptr, colon, done + tabs + n);
    ptr := ptr + |colon|;
    ptr := CopyString(out, ptr, entry, v, done + tabs + n + colon);
    Write(out, ptr, tail, done + tabs + n + colon + v);
    ptr := ptr + |tail|;
  }
}
