/** Which texts the parser accepts, and the trees it finds in them: the grammar of RFC 8259 section 2 with the
    white space of this parser, which is every byte from 1 to 32. */
module JsonGrammar {
  import opened CText
  import opened Options
  import opened JsonTree
  import JsonString
  import JsonNumber
  import Numerals

  /** White space from index i up to index j. */
  ghost predicate Ws(t: Text, i: nat, j: nat) {
    i <= j <= |t| && forall k | i <= k < j :: 0 < t[k] <= 32
  }

  predicate Is(t: Text, i: nat, c: char) { At(t, i) == c as int }

  /** The text reads the word from index i on. */
  predicate Word(t: Text, i: nat, w: string) {
    forall k | 0 <= k < |w| :: At(t, i + k) == w[k] as int
  }

  /** From index i to index j the text spells the value v. */
  ghost predicate Spells(t: Text, i: nat, j: nat, v: Json)
    decreases v, 1
  {
    match v
    case Null => Word(t, i, "null") && j == i + 4
    case False => Word(t, i, "false") && j == i + 5
    case True => Word(t, i, "true") && j == i + 4
    case Str(s) => Is(t, i, '\"') && JsonString.Unescaped(t, i + 1) == (s, j)
    case Num(n) =>
      (Is(t, i, '-') || '0' as int <= At(t, i) <= '9' as int) && JsonNumber.ParseNumber(t, i) == (n, j)
    case List(items) =>
      && Is(t, i, '[')
      && if items == [] then Nothing(t, i + 1, j, ']') else SpellsItems(t, i + 1, j, items)
    case Object(ms) =>
      && Is(t, i, '{')
      && if ms == [] then Nothing(t, i + 1, j, '}') else SpellsMembers(t, i + 1, j, ms)
  }

  /** White space and the closing character. */
  ghost predicate Nothing(t: Text, i: nat, j: nat, close: char) {
    j > 0 && Ws(t, i, j - 1) && Is(t, j - 1, close)
  }

  /** What is behind a value: white space, and then a comma or, behind the last one, the closing character. */
  ghost predicate Follows(t: Text, b: nat, c: nat, last: bool, close: char) {
    Ws(t, b, c) && Is(t, c, if last then close else ',')
  }

  /** Items with commas between them, up to and with the closing bracket. */
  ghost predicate SpellsItems(t: Text, i: nat, j: nat, items: seq<Json>)
    decreases items, 1
  {
    exists a: nat, b: nat, c: nat :: ItemAt(t, i, a, b, c, j, items)
  }

  /** The first item is between a and b, and the rest goes on behind c. */
  ghost predicate ItemAt(t: Text, i: nat, a: nat, b: nat, c: nat, j: nat, items: seq<Json>)
    decreases items, 0
  {
    && items != [] && Ws(t, i, a) && Spells(t, a, b, items[0]) && Follows(t, b, c, |items| == 1, ']')
    && if |items| == 1 then j == c + 1 else SpellsItems(t, c + 1, j, items[1..])
  }

  /** A name from q to e, a colon at k, and a value from a to b. */
  ghost predicate MemberAt(t: Text, i: nat, q: nat, e: nat, k: nat, a: nat, b: nat, m: Member)
    decreases m, 0
  {
    && Ws(t, i, q) && Is(t, q, '\"') && JsonString.Unescaped(t, q + 1) == (m.name, e)
    && Ws(t, e, k) && Is(t, k, ':')
    && Ws(t, k + 1, a) && Spells(t, a, b, m.value)
  }

  ghost predicate SpellsMember(t: Text, i: nat, b: nat, m: Member)
    decreases m, 1
  {
    exists q: nat, e: nat, k: nat, a: nat :: MemberAt(t, i, q, e, k, a, b, m)
  }

  ghost predicate SpellsMembers(t: Text, i: nat, j: nat, ms: seq<Member>)
    decreases ms, 1
  {
    exists b: nat, c: nat :: MembersAt(t, i, b, c, j, ms)
  }

  ghost predicate MembersAt(t: Text, i: nat, b: nat, c: nat, j: nat, ms: seq<Member>)
    decreases ms, 0
  {
    && ms != [] && SpellsMember(t, i, b, ms[0]) && Follows(t, b, c, |ms| == 1, '}')
    && if |ms| == 1 then j == c + 1 else SpellsMembers(t, c + 1, j, ms[1..])
  }

  // ---- White space and words ---------------------------------------------------------------------

  /** Skipping white space that ends before another byte. */
  lemma SkipsTo(t: Text, i: nat, j: nat)
    requires Ws(t, i, j) && At(t, j) > 32
    ensures Skip(t, i) == j
  {
    SkipOver(t, i, j);
    SkipStops(t, j);
  }

  /** What is skipped is white space, and what stops it is none. */
  lemma {:induction false} Skipped(t: Text, i: nat)
    requires i <= |t|
    ensures Ws(t, i, Skip(t, i)) && (At(t, Skip(t, i)) == 0 || At(t, Skip(t, i)) > 32)
    decreases |t| - i
  {
    if i < |t| && t[i] != 0 && t[i] <= 32 {
      Skipped(t, i + 1);
    }
  }

  lemma WordIs(t: Text, i: nat, w: string, x: Text)
    requires |x| == |w| > 0 && forall k | 0 <= k < |w| :: x[k] == w[k] as int != 0
    ensures Word(t, i, w) <==> Has(t, i, x)
  {
    if Word(t, i, w) {
      var n := |w| - 1;
      assert At(t, i + n) == w[n] as int == x[n];
      assert i + |x| <= |t|;
      forall k | 0 <= k < |x| ensures t[i..i + |x|][k] == x[k] {
        assert At(t, i + k) == w[k] as int;
      }
    } else if Has(t, i, x) {
      forall k | 0 <= k < |w| ensures At(t, i + k) == w[k] as int {
        HasAt(t, i, x, k);
      }
    }
  }

  lemma Words(t: Text, i: nat)
    ensures Word(t, i, "null") <==> Has(t, i, NULL_TEXT)
    ensures Word(t, i, "false") <==> Has(t, i, FALSE_TEXT)
    ensures Word(t, i, "true") <==> Has(t, i, TRUE_TEXT)
    ensures Word(t, i, "null") ==> Is(t, i, 'n')
    ensures Word(t, i, "false") ==> Is(t, i, 'f')
    ensures Word(t, i, "true") ==> Is(t, i, 't')
  {
    WordIs(t, i, "null", NULL_TEXT);
    WordIs(t, i, "false", FALSE_TEXT);
    WordIs(t, i, "true", TRUE_TEXT);
    assert Word(t, i, "null") ==> At(t, i + 0) == "null"[0] as int;
    assert Word(t, i, "false") ==> At(t, i + 0) == "false"[0] as int;
    assert Word(t, i, "true") ==> At(t, i + 0) == "true"[0] as int;
  }

  // ---- What is spelled is parsed ------------------------------------------------------------------

  /** A value starts with none of these. */
  predicate Begins(c: Byte) { c > 32 && c != ']' as int && c != '}' as int && c != ',' as int }

  lemma {:induction false} SpelledIsParsed(t: Text, i: nat, j: nat, v: Json)
    requires Spells(t, i, j, v)
    ensures ParseValue(t, i) == Some((v, j)) && Begins(At(t, i))
    decreases v, 1
  {
    hide Has, Word, ParseItems, ParseMembers, JsonNumber.ParseNumber, JsonString.Unescaped;
    Words(t, i);
    match v {
      case List(items) => ListIsParsed(t, i, j, items);
      case Object(ms) => ObjectIsParsed(t, i, j, ms);
      case _ =>
    }
  }

  lemma {:induction false} ListIsParsed(t: Text, i: nat, j: nat, items: seq<Json>)
    requires Is(t, i, '[')
    requires if items == [] then Nothing(t, i + 1, j, ']') else SpellsItems(t, i + 1, j, items)
    ensures ParseList(t, i) == Some((List(items), j))
    decreases items, 2
  {
    hide ParseItems, SpellsItems, Skip;
    if items == [] {
      SkipsTo(t, i + 1, j - 1);
    } else {
      ItemsAreParsed(t, i + 1, j, items);
    }
  }

  /** Skipping twice is skipping once. */
  lemma SkipTwice(t: Text, i: nat, a: nat)
    requires Ws(t, i, a) && At(t, a) > 32
    ensures Skip(t, i) == a && Skip(t, Skip(t, i)) == a
  {
    SkipsTo(t, i, a);
    SkipStops(t, a);
  }

  lemma {:induction false} ItemsAreParsed(t: Text, i: nat, j: nat, items: seq<Json>)
    requires SpellsItems(t, i, j, items)
    ensures j > 0 && ParseItems(t, i) == Some((items, j - 1)) && Is(t, j - 1, ']')
    ensures ParseItems(t, Skip(t, i)) == ParseItems(t, i) && Begins(At(t, Skip(t, i)))
    decreases items, 1
  {
    hide Spells, Ws, Skip, ParseValue, SpellsItems;
    assert exists a: nat, b: nat, c: nat :: ItemAt(t, i, a, b, c, j, items) by { ItemsHave(t, i, j, items); }
    var a: nat, b: nat, c: nat :| ItemAt(t, i, a, b, c, j, items);
    SpelledIsParsed(t, a, b, items[0]);
    SkipTwice(t, i, a);
    SkipsTo(t, b, c);
    if |items| == 1 {
      assert items == [items[0]];
    } else {
      ItemsAreParsed(t, c + 1, j, items[1..]);
      assert items == [items[0]] + items[1..];
    }
  }

  lemma ItemsHave(t: Text, i: nat, j: nat, items: seq<Json>)
    requires SpellsItems(t, i, j, items)
    ensures exists a: nat, b: nat, c: nat :: ItemAt(t, i, a, b, c, j, items)
  {
  }

  lemma {:induction false} ObjectIsParsed(t: Text, i: nat, j: nat, ms: seq<Member>)
    requires Is(t, i, '{')
    requires if ms == [] then Nothing(t, i + 1, j, '}') else SpellsMembers(t, i + 1, j, ms)
    ensures ParseObject(t, i) == Some((Object(ms), j))
    decreases ms, 4
  {
    hide ParseMembers, SpellsMembers, Skip;
    if ms == [] {
      SkipsTo(t, i + 1, j - 1);
    } else {
      MembersAreParsed(t, i + 1, j, ms);
    }
  }

  /** One member: its name, where its value starts, and the value. */
  lemma {:induction false} MemberIsParsed(t: Text, i: nat, b: nat, m: Member)
    requires SpellsMember(t, i, b, m)
    ensures Begins(At(t, Skip(t, i))) && Skip(t, Skip(t, i)) == Skip(t, i)
    ensures var name := JsonString.ParseString(t, Skip(t, i));
      && name.Some? && name.value.0 == m.name
      && var colon := Skip(t, name.value.1);
      At(t, colon) == COLON && ParseValue(t, Skip(t, colon + 1)) == Some((m.value, b))
    decreases m, 2
  {
    hide Spells, Ws, Skip, ParseValue, JsonString.Unescaped;
    var q: nat, e: nat, k: nat, a: nat :| MemberAt(t, i, q, e, k, a, b, m);
    SkipTwice(t, i, q);
    SkipsTo(t, e, k);
    SpelledIsParsed(t, a, b, m.value);
    SkipsTo(t, k + 1, a);
  }

  lemma {:induction false} MembersAreParsed(t: Text, i: nat, j: nat, ms: seq<Member>)
    requires SpellsMembers(t, i, j, ms)
    ensures j > 0 && ParseMembers(t, i) == Some((ms, j - 1)) && Is(t, j - 1, '}')
    ensures ParseMembers(t, Skip(t, i)) == ParseMembers(t, i) && Begins(At(t, Skip(t, i)))
    decreases ms, 3
  {
    hide Spells, Ws, Skip, ParseValue, SpellsMembers, SpellsMember, JsonString.ParseString;
    assert exists b: nat, c: nat :: MembersAt(t, i, b, c, j, ms) by { MembersHave(t, i, j, ms); }
    var b: nat, c: nat :| MembersAt(t, i, b, c, j, ms);
    MemberIsParsed(t, i, b, ms[0]);
    SkipsTo(t, b, c);
    if |ms| == 1 {
      assert ms == [ms[0]];
    } else {
      MembersAreParsed(t, c + 1, j, ms[1..]);
      assert ms == [ms[0]] + ms[1..];
    }
  }

  lemma MembersHave(t: Text, i: nat, j: nat, ms: seq<Member>)
    requires SpellsMembers(t, i, j, ms)
    ensures exists b: nat, c: nat :: MembersAt(t, i, b, c, j, ms)
  {
  }

  // ---- What is parsed is spelled ------------------------------------------------------------------

  /** Where the parser succeeds, the text spells what it found. */
  lemma {:induction false} ParsedIsSpelled(t: Text, i: nat)
    ensures var r := ParseValue(t, i); r.Some? ==> Spells(t, i, r.value.1, r.value.0)
    decreases |t| - i, 1
  {
    hide Has, Word, ParseList, ParseObject, JsonNumber.ParseNumber, JsonString.Unescaped, SpellsItems, SpellsMembers;
    Words(t, i);
    if At(t, i) == OPEN_LIST {
      ParsedList(t, i);
    } else if At(t, i) == OPEN_OBJECT {
      ParsedObject(t, i);
    }
  }

  lemma {:induction false} ParsedList(t: Text, i: nat)
    requires At(t, i) == OPEN_LIST
    ensures var r := ParseList(t, i); r.Some? ==> Spells(t, i, r.value.1, r.value.0)
    decreases |t| - i, 0
  {
    hide ParseItems, Skip, SpellsItems;
    Skipped(t, i + 1);
    var first := Skip(t, i + 1);
    if At(t, first) != CLOSE_LIST {
      ParsedItems(t, i + 1, first);
    }
  }

  /** Items that were parsed from `first` on, behind white space from i on. */
  lemma {:induction false} ParsedItems(t: Text, i: nat, first: nat)
    requires i <= |t| && Ws(t, i, first)
    ensures var r := ParseItems(t, first);
      r.Some? && At(t, r.value.1) == CLOSE_LIST ==> r.value.0 != [] && SpellsItems(t, i, r.value.1 + 1, r.value.0)
    decreases |t| - first, 2
  {
    hide ParseValue, Spells, Skip, SpellsItems;
    Skipped(t, first);
    var a := Skip(t, first);
    ParsedIsSpelled(t, a);
    if ParseValue(t, a).Some? {
      var (item, b) := ParseValue(t, a).value;
      if b <= |t| {
        Skipped(t, b);
        var c := Skip(t, b);
        if At(t, c) == COMMA && ParseItems(t, c + 1).Some? {
          ParsedItems(t, c + 1, c + 1);
          var (items, last) := ParseItems(t, c + 1).value;
          if At(t, last) == CLOSE_LIST {
            ItemsSpelled(t, i, a, b, c, last + 1, [item] + items);
          }
        } else if At(t, c) == CLOSE_LIST {
          ItemsSpelled(t, i, a, b, c, c + 1, [item]);
        }
      } else {
        SkipStops(t, b);
      }
    }
  }

  lemma ItemsSpelled(t: Text, i: nat, a: nat, b: nat, c: nat, j: nat, items: seq<Json>)
    requires ItemAt(t, i, a, b, c, j, items)
    ensures SpellsItems(t, i, j, items)
  {
  }

  lemma {:induction false} ParsedObject(t: Text, i: nat)
    requires At(t, i) == OPEN_OBJECT
    ensures var r := ParseObject(t, i); r.Some? ==> Spells(t, i, r.value.1, r.value.0)
    decreases |t| - i, 0
  {
    hide ParseMembers, Skip, SpellsMembers;
    Skipped(t, i + 1);
    var first := Skip(t, i + 1);
    if At(t, first) != CLOSE_OBJECT {
      ParsedMembers(t, i + 1, first);
    }
  }

  /** The parts of a member in front of its value. */
  ghost predicate Named(t: Text, first: nat, q: nat, e: nat, k: nat, a: nat, name: Text) {
    && q == Skip(t, first) && JsonString.ParseString(t, q) == Some((name, e))
    && k == Skip(t, e) && At(t, k) == COLON && a == Skip(t, k + 1)
  }

  lemma {:induction false} ParsedMember(t: Text, i: nat, first: nat, q: nat, e: nat, k: nat, a: nat, name: Text)
    requires i <= |t| && Ws(t, i, first) && Named(t, first, q, e, k, a, name) && ParseValue(t, a).Some?
    ensures first < k < a
    ensures SpellsMember(t, i, ParseValue(t, a).value.1, Member(name, ParseValue(t, a).value.0))
    decreases |t| - first, 1
  {
    hide ParseValue, Spells, Skip, JsonString.Unescaped;
    Skipped(t, first);
    if e > |t| { SkipStops(t, e); }
    Skipped(t, e);
    Skipped(t, k + 1);
    ParsedIsSpelled(t, a);
    assert MemberAt(t, i, q, e, k, a, ParseValue(t, a).value.1, Member(name, ParseValue(t, a).value.0));
  }

  lemma {:induction false} ParsedMembers(t: Text, i: nat, first: nat)
    requires i <= |t| && Ws(t, i, first)
    ensures var r := ParseMembers(t, first);
      r.Some? && At(t, r.value.1) == CLOSE_OBJECT ==> r.value.0 != [] && SpellsMembers(t, i, r.value.1 + 1, r.value.0)
    decreases |t| - first, 2
  {
    hide ParseValue, Spells, Skip, SpellsMembers, SpellsMember, JsonString.ParseString;
    var name := JsonString.ParseString(t, Skip(t, first));
    if name.Some? && At(t, Skip(t, name.value.1)) == COLON {
      var k := Skip(t, name.value.1);
      var a := Skip(t, k + 1);
      if ParseValue(t, a).Some? {
        ParsedMember(t, i, first, Skip(t, first), name.value.1, k, a, name.value.0);
        var (v, b) := ParseValue(t, a).value;
        var m := Member(name.value.0, v);
        if b <= |t| {
          Skipped(t, b);
          var c := Skip(t, b);
          if At(t, c) == COMMA && ParseMembers(t, c + 1).Some? {
            ParsedMembers(t, c + 1, c + 1);
            var (ms, last) := ParseMembers(t, c + 1).value;
            if At(t, last) == CLOSE_OBJECT {
              MembersSpelled(t, i, b, c, last + 1, [m] + ms);
            }
          } else if At(t, c) == CLOSE_OBJECT {
            MembersSpelled(t, i, b, c, c + 1, [m]);
          }
        } else {
          SkipStops(t, b);
        }
      }
    }
  }

  lemma MembersSpelled(t: Text, i: nat, b: nat, c: nat, j: nat, ms: seq<Member>)
    requires MembersAt(t, i, b, c, j, ms)
    ensures SpellsMembers(t, i, j, ms)
  {
  }

  // ---- Both directions ----------------------------------------------------------------------------

  /** The main theorem: parse_value finds the tree v between i and j exactly when the text spells v there. */
  lemma ParsesExactly(t: Text, i: nat, j: nat, v: Json)
    ensures ParseValue(t, i) == Some((v, j)) <==> Spells(t, i, j, v)
  {
    hide ParseValue, Spells;
    ParsedIsSpelled(t, i);
    if Spells(t, i, j, v) {
      SpelledIsParsed(t, i, j, v);
    }
  }

  /** The value is from a to j, and the parse of the text ends at `end`. */
  ghost predicate TextAt(t: Text, whole: bool, a: nat, j: nat, end: nat, v: Json) {
    Ws(t, 0, a) && Spells(t, a, j, v) && if whole then Ws(t, j, end) && end == |t| else end == j
  }

  /** cJSON_ParseWithOpts, inside the text, accepts white space in front of the value and, when the whole text
      is asked for, nothing but white space behind it. */
  lemma TextExactly(t: Text, whole: bool, end: nat, v: Json)
    requires NoZero(t) && end <= |t|
    ensures Parse(t, whole) == Some((v, end)) <==> exists a: nat, j: nat :: TextAt(t, whole, a, j, end, v)
  {
    hide ParseValue, Spells, Skip;
    Skipped(t, 0);
    var start := Skip(t, 0);
    ParsedIsSpelled(t, start);
    if Parse(t, whole) == Some((v, end)) {
      var j := ParseValue(t, start).value.1;
      if whole {
        Skipped(t, j);
      }
      assert TextAt(t, whole, start, j, end, v);
    }
    if a: nat, j: nat :| TextAt(t, whole, a, j, end, v) {
      SpelledIsParsed(t, a, j, v);
      SkipsTo(t, 0, a);
      if whole {
        SkipsToEnd(t, j);
      }
    }
  }

  /** White space up to the end of the text. */
  lemma {:induction false} SkipsToEnd(t: Text, j: nat)
    requires Ws(t, j, |t|)
    ensures Skip(t, j) == |t|
    decreases |t| - j
  {
    if j < |t| {
      SkipsToEnd(t, j + 1);
    }
  }
}
