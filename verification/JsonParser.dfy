/** parse_value and its parts, filling in cJSON nodes: the nodes they build spell out the tree that
    JsonTree.ParseValue describes.  The texts parsed have complete escapes in their literals. */
module JsonParser {
  import opened CText
  import opened Links
  import opened Options
  import JsonString
  import Code = JsonStringCode
  import JsonNumber
  import Numerals
  import Lex = JsonLexed
  import Tree = JsonTree
  import opened JsonNodes

  // ---- Scanning loops ----------------------------------------------------------------------------

  method SkipSpace(t: Text, i: nat) returns (j: nat)
    ensures j == Skip(t, i)
  {
    j := i;
    while At(t, j) != 0 && At(t, j) <= SPACE
      invariant Skip(t, j) == Skip(t, i)
      decreases |t| - j
    {
      j := j + 1;
    }
  }

  /** A fractional part, when a digit follows the point; `scale` is minus the number of its digits. */
  method ScanFraction(t: Text, i: nat, n0: int) returns (n: int, scale: int, j: nat)
    ensures (n, j) == JsonNumber.Fraction(t, i, n0) && scale == if j == i then 0 else i + 1 - j
  {
    n, scale, j := n0, 0, i;
    if At(t, i) == DOT && Numerals.IsDigit(At(t, i + 1)) {
      n, j := Numerals.ScanDigits(t, i + 1, n0);
      scale := i + 1 - j;
    }
  }

  method ScanExponent(t: Text, i: nat) returns (exponent: int, j: nat)
    ensures (exponent, j) == JsonNumber.Exponent(t, i)
  {
    exponent, j := 0, i;
    if At(t, i) == 101 || At(t, i) == 69 {
      var sign := 1;
      j := i + 1;
      if At(t, j) == PLUS {
        j := j + 1;
      } else if At(t, j) == MINUS {
        sign, j := -1, j + 1;
      }
      exponent, j := Numerals.ScanDigits(t, j, 0);
      exponent := exponent * sign;
    }
  }

  method ScanNumber(t: Text, i: nat) returns (number: JsonNumber.Number, end: nat)
    ensures (number, end) == JsonNumber.ParseNumber(t, i)
  {
    hide Numerals.ReadDigits, JsonNumber.Fraction, JsonNumber.Exponent;
    var num := if At(t, i) == MINUS then i + 1 else i;
    if At(t, num) == ZERO {
      num := num + 1;
    }
    var n, scale, exponent := 0, 0, 0;
    if ZERO < At(t, num) <= NINE {
      n, num := Numerals.ScanDigits(t, num, 0);
    }
    n, scale, num := ScanFraction(t, num, n);
    exponent, end := ScanExponent(t, num);
    number := JsonNumber.Number(if At(t, i) == MINUS then -n else n, scale + exponent);
  }

  // ---- The parser ----------------------------------------------------------------------------------

  /** A leaf without children. */
  function Leaf(item: int, j: Tree.Json): Built { Built(item, j, [], []) }

  lemma LeafStands(nodes: seq<Item>, item: int, j: Tree.Json)
    requires Valid(nodes, item) && Payload(nodes[item], Leaf(item, j))
    requires (j.List? ==> j.items == []) && (j.Object? ==> j.members == [])
    ensures Stands(nodes, Leaf(item, j), item, j, |nodes|)
  {
    assert EraseAll([]) == [] && EraseNamed([]) == [];
  }

  class Parser {
    const t: Text
    var nodes: seq<Item>

    constructor (t: Text)
      ensures this.t == t && nodes == []
    {
      this.t := t;
      nodes := [];
    }

    method NewItem() returns (i: nat)
      modifies this
      ensures i == old(|nodes|) && nodes == old(nodes) + [NEW_ITEM]
    {
      i := |nodes|;
      nodes := nodes + [NEW_ITEM];
    }

    /** What a parsing method promises; -1 is the null pointer it returns on failure. */
    ghost predicate Parsed(before: seq<Item>, item: int, i: nat, end: int, b: Built)
      reads this
    {
      && Touched(before, nodes, item)
      && match Tree.ParseValue(t, i)
         case None => end == -1
         case Some((j, e)) => end == e && Stands(nodes, b, item, j, |before|)
    }

    method SetLeaf(item: nat, j: Tree.Json, n: Item) returns (ghost b: Built)
      requires Valid(nodes, item) && Payload(n, Leaf(item, j))
      requires (j.List? ==> j.items == []) && (j.Object? ==> j.members == [])
      requires n.next == nodes[item].next && n.prev == nodes[item].prev && n.name == nodes[item].name
      modifies this
      ensures Touched(old(nodes), nodes, item) && Stands(nodes, b, item, j, |old(nodes)|)
    {
      nodes := nodes[item := n];
      b := Leaf(item, j);
      LeafStands(nodes, item, j);
    }

    method ParseValue(item: nat, i: nat) returns (end: int, ghost b: Built)
      requires Valid(nodes, item) && nodes[item].child == NULL && Lex.Lexed(t, i)
      modifies this
      ensures Parsed(old(nodes), item, i, end, b)
      decreases |t| - i, 1
    {
      hide Stands, Payload, Lex.Lexed;
      b := Leaf(item, Tree.Null);
      if Has(t, i, Tree.NULL_TEXT) {
        b := SetLeafOf(item, Tree.Null, KNull);
        end := i + 4;
      } else if Has(t, i, Tree.FALSE_TEXT) {
        b := SetLeafOf(item, Tree.False, KFalse);
        end := i + 5;
      } else if Has(t, i, Tree.TRUE_TEXT) {
        b := SetLeafOf(item, Tree.True, KTrue);
        end := i + 4;
      } else if At(t, i) == QUOTE {
        end, b := ParseStringItem(item, i);
      } else if At(t, i) == MINUS || Numerals.IsDigit(At(t, i)) {
        end, b := ParseNumberItem(item, i);
      } else if At(t, i) == OPEN_LIST {
        end, b := ParseArray(item, i);
      } else if At(t, i) == OPEN_OBJECT {
        end, b := ParseObject(item, i);
      } else {
        end := -1;
      }
    }

    /** Only the type field is set. */
    method SetLeafOf(item: nat, j: Tree.Json, kind: Kind) returns (ghost b: Built)
      requires Valid(nodes, item) && Payload(NEW_ITEM.(kind := kind), Leaf(item, j)) && (j.Null? || j.False? || j.True?)
      modifies this
      ensures Touched(old(nodes), nodes, item) && Stands(nodes, b, item, j, |old(nodes)|)
    {
      b := SetLeaf(item, j, nodes[item].(kind := kind));
    }

    method ParseStringItem(item: nat, i: nat) returns (end: int, ghost b: Built)
      requires Valid(nodes, item) && At(t, i) == QUOTE && Lex.Lexed(t, i)
      modifies this
      ensures Touched(old(nodes), nodes, item)
      ensures var r := JsonString.ParseString(t, i).value;
        end == r.1 && Stands(nodes, b, item, Tree.Str(r.0), |old(nodes)|)
    {
      hide Stands;
      Lex.StringLexed(t, i);
      var r := Code.ParseStringPtr(t, i);
      b := SetLeaf(item, Tree.Str(r.value.0), nodes[item].(kind := KString, valuestring := r.value.0));
      end := r.value.1;
    }

    method ParseNumberItem(item: nat, i: nat) returns (end: int, ghost b: Built)
      requires Valid(nodes, item)
      modifies this
      ensures Touched(old(nodes), nodes, item)
      ensures var r := JsonNumber.ParseNumber(t, i); end == r.1 && Stands(nodes, b, item, Tree.Num(r.0), |old(nodes)|)
    {
      hide Stands;
      var n, e := ScanNumber(t, i);
      b := SetLeaf(item, Tree.Num(n), nodes[item].(kind := KNumber, number := n));
      end := e;
    }

    // ---- Children ----------------------------------------------------------------------------------

    /** The first child: a new node, the child pointer, and the value at index i. */
    method FirstChild(item: nat, name: Text, i: nat) returns (end: int, ghost kid: Built)
      requires Valid(nodes, item) && Lex.Lexed(t, i)
      modifies this
      ensures |old(nodes)| < |nodes| && Touched(old(nodes), nodes, item)
      ensures nodes[item] == old(nodes)[item].(child := |old(nodes)|)
      ensures match Tree.ParseValue(t, i)
        case None => end == -1
        case Some((j, e)) =>
          && end == e && Lex.Lexed(t, e)
          && Erase(kid) == j && kid.name == name && kid.at == |old(nodes)| && Grown(nodes, [kid])
      decreases |t| - i, 2
    {
      hide Lex.Lexed;
      Lex.ValueLexed(t, i);
      ghost var before := nodes;
      var child := NewItem();
      nodes := nodes[item := nodes[item].(child := child)][child := nodes[child].(name := name)];
      ghost var b;
      end, b := ParseValue(child, i);
      kid := b.(name := name);
      if end != -1 {
        Renamed(nodes, b, name, |before| + 1);
        FirstGrown(nodes, kid);
      }
    }

    /** The next child, linked behind the last one. */
    method NextChild(last: nat, name: Text, i: nat, ghost kids: seq<Built>)
      returns (end: int, child: nat, ghost kid: Built)
      requires kids != [] && Grown(nodes, kids) && kids[|kids| - 1].at == last && Valid(nodes, last)
      requires Lex.Lexed(t, i)
      modifies this
      ensures child == |old(nodes)| < |nodes|
      ensures forall m | 0 <= m < |old(nodes)| :: nodes[m] == Chained(old(nodes), last, name)[m]
      ensures match Tree.ParseValue(t, i)
        case None => end == -1
        case Some((j, e)) =>
          && end == e && Lex.Lexed(t, e)
          && Erase(kid) == j && kid.name == name && kid.at == child && Grown(nodes, kids + [kid])
      decreases |t| - i, 2
    {
      hide Lex.Lexed;
      Lex.ValueLexed(t, i);
      ghost var before := nodes;
      child := NewItem();
      nodes := nodes[last := nodes[last].(next := child)][child := nodes[child].(prev := last, name := name)];
      assert nodes == Chained(before, last, name);
      ghost var b;
      end, b := ParseValue(child, i);
      kid := b.(name := name);
      if end != -1 {
        Renamed(nodes, b, name, |before| + 1);
        Attach(before, kids, nodes, kid, Erase(kid));
      }
    }

    // ---- Arrays ------------------------------------------------------------------------------------

    /** The loop of parse_array: `pos` is behind the last child and the whitespace after it. */
    method ItemLoop(last0: nat, pos0: nat, ghost kids0: seq<Built>) returns (end: int, ghost kids: seq<Built>)
      requires kids0 != [] && Grown(nodes, kids0) && kids0[|kids0| - 1].at == last0 && Lex.Lexed(t, pos0)
      modifies this
      ensures |old(nodes)| <= |nodes| && SameBelow(old(nodes), nodes, kids0[0].at)
      ensures match MoreItems(t, pos0)
        case None => end == -1
        case Some((js, e)) =>
          end == e && EraseAll(kids) == EraseAll(kids0) + js && Grown(nodes, kids) && kids != [] && kids[0] == kids0[0]
      decreases |t| - pos0, 3
    {
      hide Grown, EraseAll, MoreItems, Tree.ParseValue, Skip, Lex.Lexed;
      var pos, last := pos0, last0;
      kids := kids0;
      ghost var done: seq<Tree.Json> := [];
      NothingYet(MoreItems(t, pos0), EraseAll(kids0));
      while At(t, pos) == COMMA
        invariant kids != [] && kids[0] == kids0[0] && Grown(nodes, kids) && kids[|kids| - 1].at == last
        invariant pos >= pos0 && Lex.Lexed(t, pos)
        invariant |old(nodes)| <= |nodes| && SameBelow(old(nodes), nodes, kids0[0].at)
        invariant EraseAll(kids) == EraseAll(kids0) + done && MoreItems(t, pos0) == Before(done, MoreItems(t, pos))
        decreases |t| - pos
      {
        Lex.NextLexed(t, pos);
        Lex.SkipLexed(t, pos + 1);
        var value := SkipSpace(t, pos + 1);
        LastKid(nodes, kids);
        CommaItem(t, pos);
        ghost var kid;
        end, last, kid := NextChild(last, [], value, kids);
        if end == -1 {
          return;
        }
        BeforeBefore(done, [Erase(kid)], MoreItems(t, Skip(t, end)));
        EraseSnoc(kids, kid);
        kids, done := kids + [kid], done + [Erase(kid)];
        Lex.SkipLexed(t, end);
        pos := SkipSpace(t, end);
      }
      end := pos;
      NoMoreItems(t, pos);
    }

    method ParseArray(item: nat, i: nat) returns (end: int, ghost b: Built)
      requires Valid(nodes, item) && At(t, i) == OPEN_LIST && nodes[item].child == NULL && Lex.Lexed(t, i)
      modifies this
      ensures Touched(old(nodes), nodes, item)
      ensures match Tree.ParseList(t, i)
        case None => end == -1
        case Some((j, e)) => end == e && Stands(nodes, b, item, j, |old(nodes)|)
      decreases |t| - i, 0
    {
      hide Tree.ParseValue, Tree.ParseItems, Skip, Stands, Grown, MoreItems, Lex.Lexed;
      Lex.NextLexed(t, i);
      Lex.SkipLexed(t, i + 1);
      b := Leaf(item, Tree.List([]));
      nodes := nodes[item := nodes[item].(kind := KArray)];
      var first := SkipSpace(t, i + 1);
      if At(t, first) == CLOSE_LIST {
        LeafStands(nodes, item, Tree.List([]));
        end := first + 1;
      } else {
        ItemsFrom(t, first);
        var child := |nodes|;
        Lex.SkipLexed(t, first);
        var value := SkipSpace(t, first);
        ghost var kid;
        end, kid := FirstChild(item, [], value);
        if end != -1 {
          ghost var kids;
          Lex.SkipLexed(t, end);
          var pos := SkipSpace(t, end);
          end, kids := ItemLoop(child, pos, [kid]);
          if end != -1 {
            b := Built(item, Tree.List([]), kids, []);
            OneErased(kid);
            ListStands(nodes, b, child);
            end := if At(t, end) == CLOSE_LIST then end + 1 else -1;
          }
        }
      }
    }

    // ---- Objects -----------------------------------------------------------------------------------

    /** The name of a member and its colon; `value` is where the value starts, or -1. */
    method ParseName(i: nat) returns (name: Text, value: int)
      requires Lex.Lexed(t, i)
      ensures value >= 0 ==> value > i && Lex.Lexed(t, value)
      ensures match JsonString.ParseString(t, Skip(t, i))
        case None => value == -1
        case Some((x, a)) =>
          if At(t, Skip(t, a)) != COLON then value == -1 else name == x && value == Skip(t, Skip(t, a) + 1)
    {
      hide JsonString.Unescaped, Lex.Lexed;
      Lex.NameLexed(t, i);
      var start := SkipSpace(t, i);
      name, value := [], -1;
      var r := Code.ParseStringPtr(t, start);
      if r.Some? {
        var colon := SkipSpace(t, r.value.1);
        if At(t, colon) == COLON {
          name := r.value.0;
          value := SkipSpace(t, colon + 1);
        }
      }
    }

    /** The loop of parse_object: `pos` is behind the last member and the whitespace after it. */
    method MemberLoop(last0: nat, pos0: nat, ghost kids0: seq<Built>) returns (end: int, ghost kids: seq<Built>)
      requires kids0 != [] && Grown(nodes, kids0) && kids0[|kids0| - 1].at == last0 && Lex.Lexed(t, pos0)
      modifies this
      ensures |old(nodes)| <= |nodes| && SameBelow(old(nodes), nodes, kids0[0].at)
      ensures match MoreMembers(t, pos0)
        case None => end == -1
        case Some((ms, e)) =>
          && end == e && EraseNamed(kids) == EraseNamed(kids0) + ms
          && Grown(nodes, kids) && kids != [] && kids[0] == kids0[0]
      decreases |t| - pos0, 3
    {
      hide Grown, EraseNamed, MoreMembers, Tree.ParseValue, Skip, JsonString.ParseString, Lex.Lexed;
      var pos, last := pos0, last0;
      kids := kids0;
      ghost var done: seq<Tree.Member> := [];
      NothingYet(MoreMembers(t, pos0), EraseNamed(kids0));
      while At(t, pos) == COMMA
        invariant kids != [] && kids[0] == kids0[0] && Grown(nodes, kids) && kids[|kids| - 1].at == last
        invariant pos >= pos0 && Lex.Lexed(t, pos)
        invariant |old(nodes)| <= |nodes| && SameBelow(old(nodes), nodes, kids0[0].at)
        invariant EraseNamed(kids) == EraseNamed(kids0) + done
        invariant MoreMembers(t, pos0) == Before(done, MoreMembers(t, pos))
        decreases |t| - pos
      {
        CommaMember(t, pos);
        Lex.NextLexed(t, pos);
        var name, value := ParseName(pos + 1);
        end := -1;
        if value == -1 {
          return;
        }
        LastKid(nodes, kids);
        ghost var kid;
        end, last, kid := NextChild(last, name, value, kids);
        if end == -1 {
          return;
        }
        BeforeBefore(done, [Tree.Member(name, Erase(kid))], MoreMembers(t, Skip(t, end)));
        EraseSnoc(kids, kid);
        kids, done := kids + [kid], done + [Tree.Member(name, Erase(kid))];
        Lex.SkipLexed(t, end);
        pos := SkipSpace(t, end);
      }
      end := pos;
      NoMoreMembers(t, pos);
    }

    method ParseObject(item: nat, i: nat) returns (end: int, ghost b: Built)
      requires Valid(nodes, item) && At(t, i) == OPEN_OBJECT && nodes[item].child == NULL && Lex.Lexed(t, i)
      modifies this
      ensures Touched(old(nodes), nodes, item)
      ensures match Tree.ParseObject(t, i)
        case None => end == -1
        case Some((j, e)) => end == e && Stands(nodes, b, item, j, |old(nodes)|)
      decreases |t| - i, 0
    {
      hide Tree.ParseValue, Tree.ParseMembers, Skip, Stands, Grown, MoreMembers, JsonString.ParseString, Lex.Lexed;
      Lex.NextLexed(t, i);
      Lex.SkipLexed(t, i + 1);
      b := Leaf(item, Tree.Object([]));
      nodes := nodes[item := nodes[item].(kind := KObject)];
      var first := SkipSpace(t, i + 1);
      if At(t, first) == CLOSE_OBJECT {
        LeafStands(nodes, item, Tree.Object([]));
        end := first + 1;
      } else {
        MembersFrom(t, first);
        var child := |nodes|;
        var name, value := ParseName(first);
        end := -1;
        if value != -1 {
          ghost var kid;
          end, kid := FirstChild(item, name, value);
          if end != -1 {
            ghost var kids;
            Lex.SkipLexed(t, end);
            var pos := SkipSpace(t, end);
            end, kids := MemberLoop(child, pos, [kid]);
            if end != -1 {
              b := Built(item, Tree.Object([]), kids, []);
              OneErased(kid);
              ObjectStands(nodes, b, child);
              end := if At(t, end) == CLOSE_OBJECT then end + 1 else -1;
            }
          }
        }
      }
    }

    // ---- cJSON_ParseWithOpts -------------------------------------------------------------------------

    /** The root node is index 0; -1 is the failure of cJSON_Parse. */
    method Parse(whole: bool) returns (end: int, ghost b: Built)
      requires nodes == [] && Lex.Lexed(t, 0)
      modifies this
      ensures match Tree.Parse(t, whole)
        case None => end == -1
        case Some((j, e)) => end == e && Represents(nodes, b) && b.at == 0 && Erase(b) == j && Within(b, 1, |nodes|)
    {
      hide Tree.ParseValue, Represents, Within, Skip, Lex.Lexed;
      Lex.SkipLexed(t, 0);
      var c := NewItem();
      var start := SkipSpace(t, 0);
      end, b := ParseValue(c, start);
      if end != -1 && whole {
        end := SkipSpace(t, end);
        if At(t, end) != 0 {
          end := -1;
        }
      }
    }
  }

  /** A node's tree does not depend on the name it has in its parent. */
  lemma Renamed(nodes: seq<Item>, b: Built, name: Text, lo: int)
    requires Represents(nodes, b) && Within(b, lo, |nodes|)
    ensures Represents(nodes, b.(name := name)) && Within(b.(name := name), lo, |nodes|)
    ensures Erase(b.(name := name)) == Erase(b)
  {
  }

  lemma FirstGrown(nodes: seq<Item>, kid: Built)
    requires Represents(nodes, kid) && Within(kid, kid.at + 1, |nodes|)
    requires nodes[kid.at].next == NULL && nodes[kid.at].prev == NULL && nodes[kid.at].name == kid.name
    ensures Grown(nodes, [kid])
  {
    assert GrownAt(nodes, [kid], 0);
    hide Represents, Within;
  }

  /** Everything below index lo is as it was. */
  ghost predicate SameBelow(before: seq<Item>, after: seq<Item>, lo: int) {
    |before| <= |after| && forall m | 0 <= m < lo && m < |before| :: after[m] == before[m]
  }

  lemma NothingYet<T>(rest: Option<(seq<T>, nat)>, x: seq<T>)
    ensures Before([], rest) == rest && x + [] == x
  {
    if rest.Some? {
      assert [] + rest.value.0 == rest.value.0;
    }
  }

  lemma LastKid(nodes: seq<Item>, kids: seq<Built>)
    requires Grown(nodes, kids) && kids != []
    ensures Valid(nodes, kids[|kids| - 1].at) && kids[0].at <= kids[|kids| - 1].at
  {
    assert GrownAt(nodes, kids, |kids| - 1);
    FirstIsLowest(nodes, kids, |kids| - 1);
    hide Represents, Within;
  }

  lemma CommaItem(t: Text, pos: nat)
    requires At(t, pos) == COMMA
    ensures MoreItems(t, pos) == match Tree.ParseValue(t, Skip(t, pos + 1))
      case None => None
      case Some((item, end)) => Before([item], MoreItems(t, Skip(t, end)))
  {
    ItemsFrom(t, pos + 1);
    hide Tree.ParseValue, Tree.ParseItems;
  }

  lemma NoMoreItems(t: Text, pos: nat)
    requires At(t, pos) != COMMA
    ensures MoreItems(t, pos) == Some(([], pos))
  {
  }

  lemma OneErased(kid: Built)
    ensures EraseAll([kid]) == [Erase(kid)] && EraseNamed([kid]) == [Tree.Member(kid.name, Erase(kid))]
  {
  }

  lemma ListStands(nodes: seq<Item>, b: Built, child: int)
    requires b.leaf == Tree.List([]) && Grown(nodes, b.kids) && b.kids != [] && b.kids[0].at == child
    requires Valid(nodes, b.at) && nodes[b.at].kind == KArray && nodes[b.at].child == child
    ensures Stands(nodes, b, b.at, Tree.List(EraseAll(b.kids)), child)
  {
    Complete(nodes, b);
    CompleteWithin(nodes, b);
    hide Represents, Within;
  }

  lemma CommaMember(t: Text, pos: nat)
    requires At(t, pos) == COMMA
    ensures MoreMembers(t, pos) == match JsonString.ParseString(t, Skip(t, pos + 1))
      case None => None
      case Some((name, afterName)) =>
        var colon := Skip(t, afterName);
        if At(t, colon) != COLON then None
        else match Tree.ParseValue(t, Skip(t, colon + 1))
          case None => None
          case Some((value, end)) => Before([Tree.Member(name, value)], MoreMembers(t, Skip(t, end)))
  {
    MembersFrom(t, pos + 1);
    hide Tree.ParseValue, Tree.ParseMembers, JsonString.ParseString, Skip;
  }

  lemma NoMoreMembers(t: Text, pos: nat)
    requires At(t, pos) != COMMA
    ensures MoreMembers(t, pos) == Some(([], pos))
  {
  }

  lemma ObjectStands(nodes: seq<Item>, b: Built, child: int)
    requires b.leaf == Tree.Object([]) && Grown(nodes, b.kids) && b.kids != [] && b.kids[0].at == child
    requires Valid(nodes, b.at) && nodes[b.at].kind == KObject && nodes[b.at].child == child
    ensures Stands(nodes, b, b.at, Tree.Object(EraseNamed(b.kids)), child)
  {
    Complete(nodes, b);
    CompleteWithin(nodes, b);
    hide Represents, Within;
  }
}
