/** cJSON nodes with next, prev and child links, and the parser that builds them.

    Nodes live in one growing sequence; a pointer is an index, and NULL is -1. */
module JsonNodes {
  import opened CText
  import opened Links
  import opened Options
  import JsonString
  import JsonNumber
  import opened JsonTree

  datatype Kind = KFalse | KTrue | KNull | KNumber | KString | KArray | KObject

  /** struct cJSON; the value string and the name are separate fields of the source, too. */
  datatype Item = Item(kind: Kind, number: JsonNumber.Number, valuestring: Text, name: Text, next: int, prev: int,
                       child: int)

  /** cJSON_New_Item gives a node with every field zero. */
  const NEW_ITEM := Item(KFalse, JsonNumber.Number(0, 0), [], [], NULL, NULL, NULL)

  /** Which node stands for which part of a tree: the node, its value, and its children with their names. */
  datatype Built = Built(at: int, leaf: Json, kids: seq<Built>, name: Text)

  /** The tree without the nodes. */
  function Erase(b: Built): Json {
    match b.leaf
    case List(_) => List(EraseAll(b.kids))
    case Object(_) => Object(EraseNamed(b.kids))
    case _ => b.leaf
  }

  function EraseAll(kids: seq<Built>): seq<Json> {
    if kids == [] then [] else [Erase(kids[0])] + EraseAll(kids[1..])
  }

  function EraseNamed(kids: seq<Built>): seq<Member> {
    if kids == [] then [] else [Member(kids[0].name, Erase(kids[0]))] + EraseNamed(kids[1..])
  }

  /** The fields of a node that say what its value is. */
  predicate Payload(n: Item, b: Built) {
    match b.leaf
    case Null => n.kind == KNull
    case False => n.kind == KFalse
    case True => n.kind == KTrue
    case Num(x) => n.kind == KNumber && n.number == x
    case Str(s) => n.kind == KString && n.valuestring == s
    case List(_) => n.kind == KArray && n.child == First(b.kids)
    case Object(_) => n.kind == KObject && n.child == First(b.kids)
  }

  function First(kids: seq<Built>): int {
    if kids == [] then NULL else kids[0].at
  }

  predicate Valid(nodes: seq<Item>, i: int) { 0 <= i < |nodes| }

  /** The k-th child carries its name and is linked to its neighbours in both directions. */
  predicate LinkedAt(nodes: seq<Item>, kids: seq<Built>, k: nat)
    requires k < |kids|
  {
    && Valid(nodes, kids[k].at)
    && nodes[kids[k].at].next == (if k + 1 < |kids| then kids[k + 1].at else NULL)
    && nodes[kids[k].at].prev == (if k > 0 then kids[k - 1].at else NULL)
    && nodes[kids[k].at].name == kids[k].name
  }

  /** The nodes spell out the tree, with consistent links everywhere. */
  ghost predicate Represents(nodes: seq<Item>, b: Built)
    decreases b
  {
    && Valid(nodes, b.at) && Payload(nodes[b.at], b)
    && (forall k: nat | k < |b.kids| :: LinkedAt(nodes, b.kids, k))
    && (forall k: nat | k < |b.kids| :: Represents(nodes, b.kids[k]))
  }

  /** All nodes below b lie in [lo, hi). */
  ghost predicate Within(b: Built, lo: int, hi: int)
    decreases b
  {
    forall k: nat | k < |b.kids| :: lo <= b.kids[k].at < hi && Within(b.kids[k], lo, hi)
  }

  predicate SameValue(m: Item, n: Item) {
    m.kind == n.kind && m.number == n.number && m.valuestring == n.valuestring && m.child == n.child
  }

  /** Changes outside the nodes below b, and to b's own links or name, do not matter. */
  lemma {:induction false} Frame(nodes: seq<Item>, after: seq<Item>, b: Built, lo: nat, hi: nat)
    requires Represents(nodes, b) && Within(b, lo, hi) && hi <= |nodes| && hi <= |after|
    requires Valid(after, b.at) && SameValue(nodes[b.at], after[b.at])
    requires forall k | lo <= k < hi :: after[k] == nodes[k]
    ensures Represents(after, b)
    decreases b
  {
    forall k: nat | k < |b.kids| ensures LinkedAt(after, b.kids, k) && Represents(after, b.kids[k]) {
      assert LinkedAt(nodes, b.kids, k);
      Frame(nodes, after, b.kids[k], lo, hi);
    }
  }

  lemma {:induction false} Widen(b: Built, lo: int, hi: int, low: int, high: int)
    requires Within(b, lo, hi) && low <= lo && hi <= high
    ensures Within(b, low, high)
    decreases b
  {
    forall k: nat | k < |b.kids| ensures low <= b.kids[k].at < high && Within(b.kids[k], low, high) {
      Widen(b.kids[k], lo, hi, low, high);
    }
  }

  lemma {:induction false} EraseSnoc(kids: seq<Built>, b: Built)
    ensures EraseAll(kids + [b]) == EraseAll(kids) + [Erase(b)]
    ensures EraseNamed(kids + [b]) == EraseNamed(kids) + [Member(b.name, Erase(b))]
  {
    if kids == [] {
      assert kids + [b] == [b];
    } else {
      EraseSnoc(kids[1..], b);
      assert (kids + [b])[1..] == kids[1..] + [b];
    }
  }

  // ---- Children under construction ---------------------------------------------------------------

  function NextAt(kids: seq<Built>, k: nat, size: nat): int
    requires k < |kids|
  {
    if k + 1 < |kids| then kids[k + 1].at else size
  }

  /** The k-th child is complete, and its nodes lie between it and the next child. */
  ghost predicate GrownAt(nodes: seq<Item>, kids: seq<Built>, k: nat)
    requires k < |kids|
  {
    && LinkedAt(nodes, kids, k) && Represents(nodes, kids[k])
    && 0 <= kids[k].at < NextAt(kids, k, |nodes|) <= |nodes|
    && Within(kids[k], kids[k].at + 1, NextAt(kids, k, |nodes|))
  }

  ghost predicate Grown(nodes: seq<Item>, kids: seq<Built>) {
    forall k: nat | k < |kids| :: GrownAt(nodes, kids, k)
  }

  /** A parsing function changes its own node, except for links and name, and appends nodes. */
  ghost predicate Touched(before: seq<Item>, after: seq<Item>, item: int) {
    && Valid(before, item) && |before| <= |after|
    && (forall k | 0 <= k < |before| && k != item :: after[k] == before[k])
    && after[item].next == before[item].next && after[item].prev == before[item].prev
    && after[item].name == before[item].name
  }

  /** Node `item` stands for the tree j, and the nodes below it are new. */
  ghost predicate Stands(nodes: seq<Item>, b: Built, item: int, j: Json, lo: int) {
    b.at == item && Erase(b) == j && Represents(nodes, b) && Within(b, lo, |nodes|)
  }

  /** A new node behind the last child. */
  function Chained(nodes: seq<Item>, last: int, name: Text): seq<Item>
    requires Valid(nodes, last)
  {
    nodes[last := nodes[last].(next := |nodes|)] + [NEW_ITEM.(prev := last, name := name)]
  }

  lemma AttachOld(nodes: seq<Item>, kids: seq<Built>, after: seq<Item>, b: Built, k: nat)
    requires Grown(nodes, kids) && k < |kids| && b.at == |nodes| < |after|
    requires Valid(nodes, kids[|kids| - 1].at)
    requires forall m | 0 <= m < |nodes| :: after[m] == Chained(nodes, kids[|kids| - 1].at, b.name)[m]
    ensures GrownAt(after, kids + [b], k)
  {
    var last := kids[|kids| - 1].at;
    assert GrownAt(nodes, kids, k) && GrownAt(nodes, kids, |kids| - 1);
    KidsAscend(nodes, kids, k);
    assert NextAt(kids + [b], k, |after|) == NextAt(kids, k, |nodes|);
    Frame(nodes, after, kids[k], kids[k].at + 1, NextAt(kids, k, |nodes|));
    hide Represents, Within;
  }

  /** Children come one after the other. */
  lemma {:induction false} KidsAscend(nodes: seq<Item>, kids: seq<Built>, k: nat)
    requires Grown(nodes, kids) && k < |kids|
    ensures k + 1 < |kids| ==> NextAt(kids, k, |nodes|) <= kids[|kids| - 1].at
    decreases |kids| - k
  {
    assert GrownAt(nodes, kids, k);
    if k + 1 < |kids| {
      assert GrownAt(nodes, kids, k + 1);
      KidsAscend(nodes, kids, k + 1);
    }
    hide Represents, Within;
  }

  /** The next child is complete, too. */
  lemma Attach(nodes: seq<Item>, kids: seq<Built>, after: seq<Item>, b: Built, j: Json)
    requires Grown(nodes, kids) && kids != [] && |nodes| < |after|
    requires Valid(nodes, kids[|kids| - 1].at)
    requires forall m | 0 <= m < |nodes| :: after[m] == Chained(nodes, kids[|kids| - 1].at, b.name)[m]
    requires Stands(after, b, |nodes|, j, |nodes| + 1)
    requires after[|nodes|].prev == kids[|kids| - 1].at && after[|nodes|].next == NULL && after[|nodes|].name == b.name
    ensures Grown(after, kids + [b])
  {
    hide Represents, Within;
    forall k: nat | k < |kids + [b]| ensures GrownAt(after, kids + [b], k) {
      if k < |kids| {
        AttachOld(nodes, kids, after, b, k);
      }
    }
  }

  /** Complete children make a complete array or object. */
  lemma Complete(nodes: seq<Item>, b: Built)
    requires Grown(nodes, b.kids) && b.kids != [] && Valid(nodes, b.at) && Payload(nodes[b.at], b)
    ensures Represents(nodes, b)
  {
    forall k: nat | k < |b.kids| ensures LinkedAt(nodes, b.kids, k) && Represents(nodes, b.kids[k]) {
      assert GrownAt(nodes, b.kids, k);
    }
    hide Within, Payload, LinkedAt;
  }

  lemma CompleteWithin(nodes: seq<Item>, b: Built)
    requires Grown(nodes, b.kids) && b.kids != []
    ensures Within(b, b.kids[0].at, |nodes|)
  {
    forall k: nat | k < |b.kids|
      ensures b.kids[0].at <= b.kids[k].at < |nodes| && Within(b.kids[k], b.kids[0].at, |nodes|)
    {
      KidWithin(nodes, b.kids, k);
    }
    hide Represents;
  }

  lemma KidWithin(nodes: seq<Item>, kids: seq<Built>, k: nat)
    requires Grown(nodes, kids) && k < |kids|
    ensures kids[0].at <= kids[k].at < |nodes| && Within(kids[k], kids[0].at, |nodes|)
  {
    hide Represents, Within;
    assert GrownAt(nodes, kids, k);
    FirstIsLowest(nodes, kids, k);
    Widen(kids[k], kids[k].at + 1, NextAt(kids, k, |nodes|), kids[0].at, |nodes|);
  }

  lemma {:induction false} FirstIsLowest(nodes: seq<Item>, kids: seq<Built>, k: nat)
    requires Grown(nodes, kids) && k < |kids|
    ensures kids[0].at <= kids[k].at
    decreases k
  {
    if k > 0 {
      FirstIsLowest(nodes, kids, k - 1);
      assert GrownAt(nodes, kids, k - 1);
    }
    hide Represents, Within;
  }

  // ---- What is left to parse ---------------------------------------------------------------------

  /** Behind an item: another item after a comma, or the end. */
  function MoreItems(t: Text, pos: nat): Option<(seq<Json>, nat)> {
    if At(t, pos) != COMMA then Some(([], pos)) else ParseItems(t, pos + 1)
  }

  function MoreMembers(t: Text, pos: nat): Option<(seq<Member>, nat)> {
    if At(t, pos) != COMMA then Some(([], pos)) else ParseMembers(t, pos + 1)
  }

  function Before<T>(x: seq<T>, rest: Option<(seq<T>, nat)>): Option<(seq<T>, nat)> {
    match rest
    case None => None
    case Some((y, end)) => Some((x + y, end))
  }

  lemma ItemsFrom(t: Text, i: nat)
    ensures ParseItems(t, i) == match ParseValue(t, Skip(t, i))
      case None => None
      case Some((item, end)) => Before([item], MoreItems(t, Skip(t, end)))
  {
    hide ParseValue;
    var r := ParseValue(t, Skip(t, i));
    if r.Some? {
      assert [r.value.0] + [] == [r.value.0];
    }
  }

  lemma MembersFrom(t: Text, i: nat)
    ensures ParseMembers(t, i) == match JsonString.ParseString(t, Skip(t, i))
      case None => None
      case Some((name, afterName)) =>
        var colon := Skip(t, afterName);
        if At(t, colon) != COLON then None
        else match ParseValue(t, Skip(t, colon + 1))
          case None => None
          case Some((value, end)) => Before([Member(name, value)], MoreMembers(t, Skip(t, end)))
  {
    hide ParseValue, JsonString.ParseString, Skip;
    forall m: Member ensures [m] + [] == [m] {}
  }

  lemma BeforeBefore<T>(x: seq<T>, y: seq<T>, rest: Option<(seq<T>, nat)>)
    ensures Before(x, Before(y, rest)) == Before(x + y, rest)
  {
    if rest.Some? {
      assert x + (y + rest.value.0) == x + y + rest.value.0;
    }
  }
}
