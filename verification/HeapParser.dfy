/**
 The parser as it runs: nodes are allocated, linked into their parent and then filled in, and `cJSON_ParseWithOpts`
 deletes what there is when parsing fails. It computes what `Parser` says, and loses no block.
 */
module HeapParser {
  import opened Options
  import opened CText
  import opened Json
  import opened Numbers
  import opened Parser
  import opened Nodes
  import opened Deletion
  import opened Edits
  import opened HeapText

  // ---------- the function it computes ----------

  /** What a returned cursor says about the outcome of the parser function. */
  ghost predicate Agrees<T>(c: Cursor, o: Outcome<T>, v: T, s: string, failed: bool) {
    match c
    case Next(e) => e <= |s| && o == Parsed(v, s[e..])
    case Nowhere => failed || o == Rejected
    case Stray => o == Undefined
  }

  lemma LiteralSpec(s: string, i: nat)
    requires i <= |s|
    ensures "null" <= s[i..] ==> ParseValue(s[i..]) == Parsed(Null, s[i + 4..])
    ensures "false" <= s[i..] ==> ParseValue(s[i..]) == Parsed(False, s[i + 5..])
    ensures "true" <= s[i..] ==> ParseValue(s[i..]) == Parsed(True, s[i + 4..])
  {
    var t := s[i..];
    if "null" <= t || "true" <= t {
      assert t[4..] == s[i + 4..] && (t[0] == 'n' || t[0] == 't');
    } else if "false" <= t {
      assert t[5..] == s[i + 5..] && t[0] == 'f';
    }
  }

  predicate OtherWord(t: string) {
    !("null" <= t) && !("false" <= t) && !("true" <= t)
  }

  lemma OtherSpec(s: string, i: nat)
    requires i <= |s| && OtherWord(s[i..])
    ensures At(s, i) == '"' ==> ParseValue(s[i..]) == ToStr(ParseString(s[i..]))
    ensures At(s, i) == '-' || IsDigit(At(s, i)) ==>
      ParseValue(s[i..]) == Parsed(Num(ParseNumber(s[i..]).0.Value()), ParseNumber(s[i..]).1)
    ensures At(s, i) !in "\"-[{" && !IsDigit(At(s, i)) ==> ParseValue(s[i..]) == Rejected
  {
    hide ParseString, ParseNumber, ParseItems, ParseMembers;
    AtSuffix(s, i, 0);
  }

  /** The outcome for an array or an object whose first token after the bracket is at `j`. */
  lemma BracketSpec(s: string, i: nat, j: nat)
    requires i < |s| && i + 1 <= j <= |s| && s[j..] == Skip(s[i + 1..])
    ensures s[i] == '[' ==>
      ParseValue(s[i..]) == if At(s, j) == ']' then Parsed(Arr([]), s[j + 1..]) else ToArr(ParseItems(s[j..]))
    ensures s[i] == '{' ==>
      ParseValue(s[i..]) == if At(s, j) == '}' then Parsed(Obj([]), s[j + 1..]) else ToObj(ParseMembers(s[j..]))
    ensures s[i] == '[' || s[i] == '{' ==> OtherWord(s[i..])
  {
    hide ParseString, ParseNumber, ParseItems, ParseMembers, Skip;
    AtSuffix(s, i, 0);
    AtSuffix(s, i, 1);
    AtSuffix(s, j, 0);
    AtSuffix(s, j, 1);
    assert s[i] == '[' || s[i] == '{' ==> OtherWord(s[i..]) by {
      assert s[i..][0] == s[i];
    }
  }

  lemma MoreSpec(s: string, v: nat)
    requires v <= |s|
    ensures MoreItems(s[v..]) ==
      if At(s, v) == ',' then ParseItems(s[v + 1..]) else if At(s, v) == ']' then Parsed([], s[v + 1..]) else Rejected
    ensures MoreMembers(s[v..]) ==
      if At(s, v) == ',' then ParseMembers(s[v + 1..]) else if At(s, v) == '}' then Parsed([], s[v + 1..]) else Rejected
  {
    hide ParseItems, ParseMembers;
    AtSuffix(s, v, 0);
    AtSuffix(s, v, 1);
  }

  lemma PrefixPrefix<T>(xs: seq<T>, ys: seq<T>, o: Outcome<seq<T>>)
    ensures Prefix(xs, Prefix(ys, o)) == Prefix(xs + ys, o)
  {
    if o.Parsed? {
      assert xs + (ys + o.value) == xs + ys + o.value;
    }
  }

  // ---------- pictures ----------

  /** A node just allocated, apart from its name. */
  ghost predicate Blank(t: Tree) {
    t.kids == [] && t.data.str == null && t.data.whole == 0 && t.data.num == 0.0
  }

  ghost predicate Grown(t0: Tree, t: Tree) {
    t.node == t0.node && t.data.name == t0.data.name && Blocks(t0) <= Blocks(t)
  }

  ghost function AllButLast(f: seq<Tree>): seq<Tree>
    requires f != []
  {
    f[..|f| - 1]
  }

  ghost function Last(f: seq<Tree>): Tree
    requires f != []
  {
    f[|f| - 1]
  }

  /**
   What the fields of a parsed tree have in common: the integer of a number is the number truncated, a string has its
   text, only arrays and objects have children, and a child has a name if and only if it is a member of an object.
   */
  ghost predicate Typed(t: Tree)
    decreases t
  {
    && (t.data.kind == KNumber ==> t.data.whole == Truncate(t.data.num))
    && (t.data.kind != KNumber ==> t.data.num == 0.0 && t.data.whole == if t.data.kind == KTrue then 1 else 0)
    && (t.data.kind == KString <==> t.data.str != null)
    && (t.data.kind != KArray && t.data.kind != KObject ==> t.kids == [])
    && (forall k | 0 <= k < |t.kids| :: Typed(t.kids[k]))
    && (forall k | 0 <= k < |t.kids| :: t.data.kind == KObject <==> t.kids[k].data.name != null)
  }

  /** Children that are all typed, and all named or all without a name. */
  ghost predicate TypedKids(f: seq<Tree>, named: bool) {
    forall k | 0 <= k < |f| :: Typed(f[k]) && (named <==> f[k].data.name != null)
  }

  lemma TypedKidsOf(t: Tree)
    requires t.data.kind == KArray || t.data.kind == KObject
    requires t.data.str == null && t.data.whole == 0 && t.data.num == 0.0 && TypedKids(t.kids, t.data.kind == KObject)
    ensures Typed(t)
  {
  }

  lemma FirstTyped(f: seq<Tree>, named: bool)
    requires |f| == 1 && Typed(Last(f)) && (named <==> Last(f).data.name != null)
    ensures TypedKids(f, named)
  {
  }

  lemma OneMoreTyped(f: seq<Tree>, g: seq<Tree>, named: bool)
    requires TypedKids(f, named) && |g| == |f| + 1 && g[..|f|] == f
    requires Typed(Last(g)) && (named <==> Last(g).data.name != null)
    ensures TypedKids(g, named)
  {
    forall k | 0 <= k < |g|
      ensures Typed(g[k]) && (named <==> g[k].data.name != null)
    {
      assert k < |f| ==> g[k] == g[..|f|][k] == f[k];
    }
  }

  /** The last child is apart from all the rest. */
  lemma LastApart(t: Tree)
    requires Separate(t) && t.kids != []
    ensures var f, x := AllButLast(t.kids), Last(t.kids);
      && Separate(With(t, f)) && Separate(x) && Blocks(x) !! Blocks(With(t, f))
      && Blocks(t) == Blocks(With(t, f)) + Blocks(x)
      && x.node !in KidNodes(f) && x.node !in LowerNodes(f) && x.node != t.node
      && t.node !in ForestNodes(x.kids)
  {
    hide Blocks, ForestBlocks, Separate, LowerNodes, ForestNodes, KidNodes, DataBlocks;
    var n, f, x := |t.kids| - 1, AllButLast(t.kids), Last(t.kids);
    SeparateWithout(t, n);
    assert Without(t.kids, n) == f;
    OwnBlocks(t);
    OwnBlocks(With(t, f));
    ForestNodesAreBlocks(f);
    RootBlock(x);
    RootBlock(With(t, f));
    assert forall b | b in KidNodes(f) :: b in Blocks(With(t, f));
    assert forall b | b in LowerNodes(f) :: b in Blocks(With(t, f));
    ForestNodesAreBlocks(x.kids);
    OwnBlocks(x);
    assert forall b | b in ForestNodes(x.kids) :: b in Blocks(x);
  }

  /** The last child has grown in place: the picture of the parent with its new picture. */
  lemma Regrown(t: Tree, x: Tree)
    requires Separate(t) && t.kids != [] && x.node == Last(t.kids).node
    requires t.node.GetData() == t.data && t.node.child == Head(t.kids) && Linked(t.kids)
    requires AllHold(AllButLast(t.kids)) && Holds(x) && Separate(x)
    requires (Blocks(x) - Blocks(Last(t.kids))) !! Blocks(t)
    ensures var u := With(t, AllButLast(t.kids) + [x]);
      && Holds(u) && Separate(u) && Blocks(u) == Blocks(With(t, AllButLast(t.kids))) + Blocks(x)
  {
    hide Blocks, ForestBlocks, Separate, LowerNodes, KidNodes, AllHold, Linked;
    var f := AllButLast(t.kids);
    Relinked(t.kids, x);
    LastApart(t);
    SeparateAppend(With(t, f), x);
    AppendBlocks(With(t, f), x);
  }

  lemma Relinked(kids: seq<Tree>, x: Tree)
    requires kids != [] && x.node == Last(kids).node && Linked(kids) && AllHold(AllButLast(kids)) && Holds(x)
    ensures var g := AllButLast(kids) + [x]; Linked(g) && AllHold(g) && Head(g) == Head(kids)
  {
    hide LowerNodes, Holds;
    var f, g := AllButLast(kids), AllButLast(kids) + [x];
    assert forall k | 0 <= k < |g| :: g[k].node == kids[k].node;
    assert forall k | 0 <= k < |f| :: g[k] == f[k];
  }

  // ---------- the methods ----------

  /**
   `parse_value` into a blank node. Whatever the outcome, the picture `t` returned is true, owns every block that
   was allocated, and the node's links and name are as before.
   */
  method ParseAt(item: Node, s: string, i: nat, h: Heap, ghost t0: Tree) returns (c: Cursor, ghost t: Tree)
    requires i <= |s| && t0.node == item && Blank(t0) && Holds(t0) && Separate(t0) && Blocks(t0) <= h.live
    modifies h, item`kind, item`valuestring, item`valueint, item`valuedouble, item`child
    ensures !c.Stray? ==>
      && Holds(t) && Separate(t) && Grown(t0, t) && fresh(Blocks(t) - Blocks(t0)) && h.live == old(h.live) + Blocks(t)
    ensures Agrees(c, ParseValue(s[i..]), Value(t), s, h.failures > old(h.failures)) && (c.Next? ==> Typed(t))
    ensures old(h.failures) <= h.failures && (c.Next? ==> h.failures == old(h.failures))
    decreases |s| - i, 3
  {
    t := t0;
    LiteralSpec(s, i);
    if "null" <= s[i..] {
      item.kind := KNull;
      c := Next(i + 4);
    } else if "false" <= s[i..] {
      item.kind := KFalse;
      c := Next(i + 5);
    } else if "true" <= s[i..] {
      item.kind, item.valueint := KTrue, 1;
      c := Next(i + 4);
    } else if At(s, i) == '[' {
      c, t := ParseArrayAt(item, s, i, h, t0);
      return;
    } else if At(s, i) == '{' {
      c, t := ParseObjectAt(item, s, i, h, t0);
      return;
    } else {
      c := ParseScalar(item, s, i, h);
    }
    t := Tree(item, item.GetData(), []);
    BareHolds(item);
    BareBlocks(item, t.data);
    BareBlocks(item, t0.data);
  }

  /** Strings and numbers, and what is no value at all. */
  method ParseScalar(item: Node, s: string, i: nat, h: Heap) returns (c: Cursor)
    requires i <= |s| && OtherWord(s[i..]) && At(s, i) != '[' && At(s, i) != '{'
    requires item.valuestring == null && item.valueint == 0 && item.valuedouble == 0.0
    modifies h, item`kind, item`valuestring, item`valueint, item`valuedouble
    ensures !c.Stray? ==> h.live == old(h.live) + (if item.valuestring == null then {} else {item.valuestring})
    ensures item.valuestring != null ==> fresh(item.valuestring)
    ensures match c
      case Next(e) =>
        && e <= |s| && ParseValue(s[i..]) == Parsed(Value(Tree(item, item.GetData(), [])), s[e..])
        && Typed(Tree(item, item.GetData(), []))
      case Nowhere => h.failures > old(h.failures) || ParseValue(s[i..]) == Rejected
      case Stray => ParseValue(s[i..]) == Undefined
    ensures old(h.failures) <= h.failures && (c.Next? ==> h.failures == old(h.failures))
  {
    hide ParseValue, ParseString, ParseNumber;
    OtherSpec(s, i);
    if At(s, i) == '"' {
      c := ScanString(item, s, i, h);
    } else if At(s, i) == '-' || IsDigit(At(s, i)) {
      var e := ScanNumber(item, s, i);
      c := Next(e);
    } else {
      c := Nowhere;
    }
  }

  /** A new last child, blank, linked behind the one before it. */
  method NewChild(parent: Node, last: Node?, h: Heap, ghost t: Tree) returns (child: Node?, ghost u: Tree)
    requires t.node == parent && Holds(t) && Separate(t) && Blocks(t) <= h.live
    requires last == NodeAt(t.kids, |t.kids| - 1)
    modifies h, parent`child, (if last == null then {} else {last})`next
    ensures child == null ==> h.failures > old(h.failures) && h.live == old(h.live) && u == t && Holds(t)
    ensures child != null ==>
      && fresh(child) && |u.kids| == |t.kids| + 1 && u == With(t, t.kids + [Last(u.kids)])
      && Last(u.kids).node == child && Blank(Last(u.kids)) && Last(u.kids).data.name == null && Blocks(u) == Blocks(t) + {child}
      && Holds(u) && Separate(u) && h.live == old(h.live) + {child} && h.failures == old(h.failures)
  {
    hide Blocks, ForestNodes, LowerNodes, KidNodes, Separate, AllHold, Linked;
    u := t;
    AllAllocated(t);
    assert allocated(Blocks(t));
    child := h.NewItem();
    if child != null {
      ghost var x := Tree(child, child.GetData(), []);
      BareHolds(child);
      BareBlocks(child, x.data);
      Attach(parent, last, child, t, x);
      u := With(t, t.kids + [x]);
      AppendBlocks(t, x);
    }
  }

  /** `value = skip(parse_value(child, skip(value)))` for the last child, which is blank but for its name. */
  method ParseLast(parent: Node, child: Node, s: string, i: nat, h: Heap, ghost t: Tree)
    returns (c: Cursor, ghost u: Tree)
    requires i <= |s| && t.node == parent && Holds(t) && Separate(t) && Blocks(t) <= h.live
    requires t.kids != [] && child == Last(t.kids).node && Blank(Last(t.kids))
    modifies h, child`kind, child`valuestring, child`valueint, child`valuedouble, child`child
    ensures !c.Stray? ==>
      && Holds(u) && Separate(u) && |u.kids| == |t.kids| && u == With(t, AllButLast(t.kids) + [Last(u.kids)])
      && Grown(Last(t.kids), Last(u.kids)) && Blocks(t) <= Blocks(u) && fresh(Blocks(u) - Blocks(t))
      && h.live == old(h.live) + Blocks(u)
    ensures match c
      case Next(v) => i <= v <= |s| && Typed(Last(u.kids)) && exists end ::
        ParseValue(Skip(s[i..])) == Parsed(Value(Last(u.kids)), end) && s[v..] == Skip(end)
      case Nowhere => h.failures > old(h.failures) || ParseValue(Skip(s[i..])) == Rejected
      case Stray => ParseValue(Skip(s[i..])) == Undefined
    ensures old(h.failures) <= h.failures && (c.Next? ==> h.failures == old(h.failures))
    decreases |s| - i, 4
  {
    hide Blocks, ForestNodes, LowerNodes, KidNodes, Separate, AllHold, Linked, ParseValue, Value, Typed;
    ghost var f, x0 := AllButLast(t.kids), Last(t.kids);
    LastApart(t);
    LastHolds(t);
    AllAllocated(With(t, f));
    AllAllocated(t);
    AllAllocated(x0);
    assert allocated(Blocks(t));
    var j := SkipSpace(s, i);
    ghost var x;
    c, x := ParseAt(child, s, j, h, x0);
    u := t;
    if !c.Stray? {
      Regrown(t, x);
      u := With(t, f + [x]);
      if c.Next? {
        AllAllocated(u);
        var v := SkipSpace(s, c.end);
        c := Next(v);
      }
    }
  }

  lemma LastHolds(t: Tree)
    requires Holds(t) && t.kids != []
    ensures AllHold(AllButLast(t.kids)) && Holds(Last(t.kids))
  {
  }

  lemma ItemsSpec(s: string, v: nat)
    requires v <= |s|
    ensures ParseItems(s[v..]) == match ParseValue(Skip(s[v..]))
      case Parsed(x, rest) => Prefix([x], MoreItems(Skip(rest)))
      case Rejected => Rejected
      case Undefined => Undefined
  {
    hide ParseValue, MoreItems, Skip;
  }

  ghost predicate Extends(t: Tree, u: Tree) {
    u.node == t.node && u.data == t.data && |u.kids| == |t.kids| + 1 && u.kids[..|t.kids|] == t.kids
  }

  /** One more element: a child is allocated, linked and parsed, and the white space after it skipped. */
  method ParseElement(item: Node, last: Node?, s: string, v: nat, h: Heap, ghost t: Tree)
    returns (child: Node?, c: Cursor, ghost u: Tree)
    requires v <= |s| && t.node == item && Holds(t) && Separate(t) && Blocks(t) <= h.live
    requires last == NodeAt(t.kids, |t.kids| - 1)
    modifies h, item`child, (if last == null then {} else {last})`next
    ensures !c.Stray? ==>
      && Holds(u) && Separate(u) && u.node == t.node && u.data == t.data
      && Blocks(t) <= Blocks(u) && fresh(Blocks(u) - Blocks(t)) && h.live == old(h.live) + Blocks(u)
    ensures match c
      case Next(e) =>
        && v <= e <= |s| && Extends(t, u) && child == Last(u.kids).node && fresh(child)
        && Typed(Last(u.kids)) && Last(u.kids).data.name == null
        && ParseItems(s[v..]) == Prefix([Value(Last(u.kids))], MoreItems(s[e..]))
      case Nowhere => h.failures > old(h.failures) || ParseItems(s[v..]) == Rejected
      case Stray => ParseItems(s[v..]) == Undefined
    ensures old(h.failures) <= h.failures && (c.Next? ==> h.failures == old(h.failures))
    decreases |s| - v, 5
  {
    hide Blocks, Holds, Separate, ParseItems, ParseValue, MoreItems, Value, KidNodes, Linked, Typed;
    c := Nowhere;
    child, u := NewChild(item, last, h, t);
    if child != null {
      ItemsSpec(s, v);
      c, u := ParseLast(item, child, s, v, h, u);
    }
  }

  /** After the elements `f`, with the cursor at `v`. */
  ghost predicate ItemsSoFar(s: string, start: nat, f: seq<Tree>, v: nat)
    requires start <= |s| && v <= |s|
  {
    ParseItems(s[start..]) == Prefix(Values(f), MoreItems(s[v..]))
  }

  lemma FirstItem(s: string, start: nat, f: seq<Tree>, v: nat)
    requires start <= |s| && v <= |s| && |f| == 1
    requires ParseItems(s[start..]) == Prefix([Value(Last(f))], MoreItems(s[v..]))
    ensures ItemsSoFar(s, start, f, v)
  {
    hide ParseItems, MoreItems, Value;
    assert Values(f) == [Value(Last(f))];
  }

  lemma NextItem(s: string, start: nat, f: seq<Tree>, v: nat, g: seq<Tree>, c: Cursor)
    requires start <= |s| && v < |s| && s[v] == ',' && ItemsSoFar(s, start, f, v)
    ensures ParseItems(s[v + 1..]) == Rejected ==> ParseItems(s[start..]) == Rejected
    ensures ParseItems(s[v + 1..]) == Undefined ==> ParseItems(s[start..]) == Undefined
    ensures
      && c.Next? && c.end <= |s| && |g| == |f| + 1 && g[..|f|] == f
      && ParseItems(s[v + 1..]) == Prefix([Value(Last(g))], MoreItems(s[c.end..]))
      ==> ItemsSoFar(s, start, g, c.end)
  {
    MoreSpec(s, v);
    hide ParseItems, MoreItems, Value;
    if c.Next? && c.end <= |s| && |g| == |f| + 1 && g[..|f|] == f {
      assert Values(g) == Values(f) + [Value(Last(g))] by {
        assert forall k | 0 <= k < |f| :: g[k] == g[..|f|][k] == f[k];
      }
      PrefixPrefix(Values(f), [Value(Last(g))], MoreItems(s[c.end..]));
    }
  }

  lemma ItemsEnd(s: string, start: nat, f: seq<Tree>, v: nat)
    requires start <= |s| && v <= |s| && At(s, v) != ',' && ItemsSoFar(s, start, f, v)
    ensures ParseItems(s[start..]) == if At(s, v) == ']' then Parsed(Values(f), s[v + 1..]) else Rejected
  {
    MoreSpec(s, v);
    hide ParseItems, MoreItems, Values;
    assert Values(f) + [] == Values(f);
  }

  /** `item->type = ...` on a blank node. */
  method SetKind(item: Node, kind: Kind, ghost t0: Tree) returns (ghost t: Tree)
    requires t0.node == item && Blank(t0) && Holds(t0) && Separate(t0)
    modifies item`kind
    ensures t == Tree(item, t0.data.(kind := kind), []) && Holds(t) && Separate(t) && Blocks(t) == Blocks(t0)
  {
    item.kind := kind;
    t := Tree(item, item.GetData(), []);
    BareHolds(item);
    BareBlocks(item, t.data);
    BareBlocks(item, t0.data);
  }

  /** All the elements of an array that has some, and the closing bracket. */
  method ParseItemsAll(item: Node, s: string, start: nat, h: Heap, ghost t0: Tree) returns (c: Cursor, ghost t: Tree)
    requires start <= |s| && t0.node == item && t0.kids == [] && Holds(t0) && Separate(t0) && Blocks(t0) <= h.live
    modifies h, item`child
    ensures !c.Stray? ==>
      && Holds(t) && Separate(t) && t.node == item && t.data == t0.data
      && Blocks(t0) <= Blocks(t) && fresh(Blocks(t) - Blocks(t0)) && h.live == old(h.live) + Blocks(t)
    ensures Agrees(c, ParseItems(s[start..]), Values(t.kids), s, h.failures > old(h.failures)) && (c.Next? ==> TypedKids(t.kids, false))
    ensures old(h.failures) <= h.failures && (c.Next? ==> h.failures == old(h.failures))
    decreases |s| - start, 6
  {
    hide Blocks, Holds, Separate, KidNodes, Linked, ParseItems, MoreItems, ItemsSoFar, Values, Prefix, Typed, TypedKids;
    var child;
    child, c, t := ParseElement(item, null, s, start, h, t0);
    if !c.Next? {
      return;
    }
    var v := c.end;
    FirstItem(s, start, t.kids, v);
    FirstTyped(t.kids, false);
    while At(s, v) == ','
      invariant start <= v <= |s| && t.kids != [] && child == Last(t.kids).node && fresh(child)
      invariant Holds(t) && Separate(t) && t.node == item && t.data == t0.data && Blocks(t0) <= Blocks(t)
      invariant fresh(Blocks(t) - Blocks(t0)) && h.live == old(h.live) + Blocks(t) && h.failures == old(h.failures)
      invariant ItemsSoFar(s, start, t.kids, v) && TypedKids(t.kids, false)
      decreases |s| - v
    {
      ghost var f := t.kids;
      child, c, t := ParseElement(item, child, s, v + 1, h, t);
      NextItem(s, start, f, v, t.kids, c);
      if !c.Next? {
        return;
      }
      OneMoreTyped(f, t.kids, false);
      v := c.end;
    }
    ItemsEnd(s, start, t.kids, v);
    c := if At(s, v) == ']' then Next(v + 1) else Nowhere;
  }

  method ParseArrayAt(item: Node, s: string, i: nat, h: Heap, ghost t0: Tree) returns (c: Cursor, ghost t: Tree)
    requires i < |s| && t0.node == item && Blank(t0) && Holds(t0) && Separate(t0) && Blocks(t0) <= h.live
    requires s[i] == '['
    modifies h, item`kind, item`valuestring, item`valueint, item`valuedouble, item`child
    ensures !c.Stray? ==>
      && Holds(t) && Separate(t) && Grown(t0, t) && fresh(Blocks(t) - Blocks(t0)) && h.live == old(h.live) + Blocks(t)
    ensures Agrees(c, ParseValue(s[i..]), Value(t), s, h.failures > old(h.failures)) && (c.Next? ==> Typed(t))
    ensures old(h.failures) <= h.failures && (c.Next? ==> h.failures == old(h.failures))
    decreases |s| - i, 2
  {
    hide Blocks, Holds, Separate, ParseItems, ParseValue, MoreItems, KidNodes, Linked, ItemsSoFar, Values, Prefix;
    t := SetKind(item, KArray, t0);
    AllAllocated(t);
    var v := SkipSpace(s, i + 1);
    BracketSpec(s, i, v);
    if At(s, v) == ']' {
      return Next(v + 1), t;
    }
    c, t := ParseItemsAll(item, s, v, h, t);
    if c.Next? {
      TypedKidsOf(t);
    }
  }

  // ---------- objects ----------

  lemma MembersSpec(s: string, v: nat)
    requires v <= |s|
    ensures ParseMembers(s[v..]) == match ParseMember(s[v..])
      case Parsed(x, rest) => Prefix([x], MoreMembers(Skip(rest)))
      case Rejected => Rejected
      case Undefined => Undefined
  {
    hide ParseMember, MoreMembers, Skip;
  }

  lemma MemberSpec(s: string, i: nat, v: nat)
    requires i <= |s| && v <= |s|
    ensures ParseString(Skip(s[i..])) == Rejected ==> ParseMember(s[i..]) == Rejected
    ensures ParseString(Skip(s[i..])) == Undefined ==> ParseMember(s[i..]) == Undefined
    ensures forall key, end | ParseString(Skip(s[i..])) == Parsed(key, end) && s[v..] == Skip(end) ::
      ParseMember(s[i..]) == if At(s, v) != ':' then Rejected else ToMember(key, ParseValue(Skip(s[v + 1..])))
  {
    hide ParseString, ParseValue, Skip;
    AtSuffix(s, v, 0);
    AtSuffix(s, v, 1);
  }

  /** What the members from `v` on are once a key has been read up to `w`. */
  lemma EntrySpec(s: string, v: nat, w: nat, key: string)
    requires v <= |s| && w <= |s|
    requires exists end :: ParseString(Skip(s[v..])) == Parsed(key, end) && s[w..] == Skip(end)
    ensures At(s, w) != ':' ==> ParseMembers(s[v..]) == Rejected
    ensures At(s, w) == ':' ==> w < |s| && match ParseValue(Skip(s[w + 1..]))
      case Parsed(x, rest) => ParseMembers(s[v..]) == Prefix([Member(key, x)], MoreMembers(Skip(rest)))
      case Rejected => ParseMembers(s[v..]) == Rejected
      case Undefined => ParseMembers(s[v..]) == Undefined
  {
    hide ParseMember, ParseMembers, ParseString, ParseValue, MoreMembers, Skip;
    MembersSpec(s, v);
    MemberSpec(s, v, w);
  }

  lemma KeyFails(s: string, v: nat)
    requires v <= |s|
    ensures ParseString(Skip(s[v..])) == Rejected ==> ParseMembers(s[v..]) == Rejected
    ensures ParseString(Skip(s[v..])) == Undefined ==> ParseMembers(s[v..]) == Undefined
  {
    hide ParseMember, ParseMembers, ParseString, ParseValue, MoreMembers, Skip;
    MembersSpec(s, v);
    MemberSpec(s, v, v);
  }

  ghost function MemberOf(t: Tree): Member {
    Member(TextOf(t.data.name), Value(t))
  }

  /** The key of the last child: it is parsed as the child's string and then becomes its name. */
  method ParseKey(parent: Node, child: Node, s: string, i: nat, h: Heap, ghost t: Tree)
    returns (c: Cursor, ghost u: Tree)
    requires i <= |s| && t.node == parent && Holds(t) && Separate(t) && Blocks(t) <= h.live
    requires t.kids != [] && child == Last(t.kids).node && Blank(Last(t.kids)) && Last(t.kids).data.name == null
    modifies h, child`kind, child`valuestring, child`name
    ensures !c.Stray? ==>
      && Holds(u) && Separate(u) && |u.kids| == |t.kids| && u == With(t, AllButLast(t.kids) + [Last(u.kids)])
      && Last(u.kids).node == child && Blank(Last(u.kids))
      && Blocks(t) <= Blocks(u) && fresh(Blocks(u) - Blocks(t)) && h.live == old(h.live) + Blocks(u)
    ensures match c
      case Next(v) => i <= v <= |s| && Last(u.kids).data.name != null && exists end ::
        ParseString(Skip(s[i..])) == Parsed(TextOf(Last(u.kids).data.name), end) && s[v..] == Skip(end)
      case Nowhere => h.failures > old(h.failures) || ParseString(Skip(s[i..])) == Rejected
      case Stray => ParseString(Skip(s[i..])) == Undefined
    ensures old(h.failures) <= h.failures && (c.Next? ==> h.failures == old(h.failures))
  {
    hide Blocks, ForestNodes, LowerNodes, KidNodes, Separate, AllHold, Linked, ParseString;
    ghost var f, x0 := AllButLast(t.kids), Last(t.kids);
    LastApart(t);
    LastHolds(t);
    AllAllocated(With(t, f));
    AllAllocated(t);
    assert allocated(Blocks(t));
    var j := SkipSpace(s, i);
    c := ScanString(child, s, j, h);
    u := t;
    if c.Next? {
      child.name := child.valuestring;
      child.valuestring := null;
      ghost var x := Tree(child, child.GetData(), []);
      BareHolds(child);
      BareBlocks(child, x.data);
      BareBlocks(child, x0.data);
      Regrown(t, x);
      u := With(t, f + [x]);
      AllAllocated(u);
      var v := SkipSpace(s, c.end);
      c := Next(v);
    }
  }

  /** One more member: a child is allocated, linked, and its name and value parsed. */
  method ParseEntry(item: Node, last: Node?, s: string, v: nat, h: Heap, ghost t: Tree)
    returns (child: Node?, c: Cursor, ghost u: Tree)
    requires v <= |s| && t.node == item && Holds(t) && Separate(t) && Blocks(t) <= h.live
    requires last == NodeAt(t.kids, |t.kids| - 1)
    modifies h, item`child, (if last == null then {} else {last})`next
    ensures !c.Stray? ==>
      && Holds(u) && Separate(u) && u.node == t.node && u.data == t.data
      && Blocks(t) <= Blocks(u) && fresh(Blocks(u) - Blocks(t)) && h.live == old(h.live) + Blocks(u)
    ensures match c
      case Next(e) =>
        && v <= e <= |s| && Extends(t, u) && child == Last(u.kids).node && fresh(child)
        && Typed(Last(u.kids)) && Last(u.kids).data.name != null
        && ParseMembers(s[v..]) == Prefix([MemberOf(Last(u.kids))], MoreMembers(s[e..]))
      case Nowhere => h.failures > old(h.failures) || ParseMembers(s[v..]) == Rejected
      case Stray => ParseMembers(s[v..]) == Undefined
    ensures old(h.failures) <= h.failures && (c.Next? ==> h.failures == old(h.failures))
    decreases |s| - v, 5
  {
    hide Blocks, Holds, Separate, ParseMembers, ParseMember, ParseString, ParseValue, MoreMembers, Value, KidNodes;
    hide Linked, Typed, LowerNodes, ForestNodes, AllHold, Skip, DataBlocks, ForestBlocks, Blank, MemberOf, Prefix;
    c := Nowhere;
    child, u := NewChild(item, last, h, t);
    if child != null {
      c, u := ParseNamed(item, child, s, v, h, u);
    }
  }

  /** The name and the value of a new last child. */
  method ParseNamed(item: Node, child: Node, s: string, v: nat, h: Heap, ghost t: Tree)
    returns (c: Cursor, ghost u: Tree)
    requires v <= |s| && t.node == item && Holds(t) && Separate(t) && Blocks(t) <= h.live
    requires t.kids != [] && child == Last(t.kids).node && Blank(Last(t.kids)) && Last(t.kids).data.name == null
    modifies h, child`kind, child`valuestring, child`valueint, child`valuedouble, child`child, child`name
    ensures !c.Stray? ==>
      && Holds(u) && Separate(u) && |u.kids| == |t.kids| && u == With(t, AllButLast(t.kids) + [Last(u.kids)])
      && Last(u.kids).node == child
      && Blocks(t) <= Blocks(u) && fresh(Blocks(u) - Blocks(t)) && h.live == old(h.live) + Blocks(u)
    ensures match c
      case Next(e) =>
        && v <= e <= |s| && Typed(Last(u.kids)) && Last(u.kids).data.name != null
        && ParseMembers(s[v..]) == Prefix([MemberOf(Last(u.kids))], MoreMembers(s[e..]))
      case Nowhere => h.failures > old(h.failures) || ParseMembers(s[v..]) == Rejected
      case Stray => ParseMembers(s[v..]) == Undefined
    ensures old(h.failures) <= h.failures && (c.Next? ==> h.failures == old(h.failures))
    decreases |s| - v, 4
  {
    hide Blocks, Holds, Separate, ParseMembers, ParseMember, ParseString, ParseValue, MoreMembers, Value, KidNodes;
    hide Linked, Typed, LowerNodes, ForestNodes, AllHold, Skip, DataBlocks, ForestBlocks;
    KeyFails(s, v);
    c, u := ParseKey(item, child, s, v, h, t);
    if !c.Next? {
      return;
    }
    var w := c.end;
    EntrySpec(s, v, w, TextOf(Last(u.kids).data.name));
    if At(s, w) != ':' {
      c := Nowhere;
      return;
    }
    c, u := ParseLast(item, child, s, w + 1, h, u);
  }

  ghost predicate MembersSoFar(s: string, start: nat, f: seq<Tree>, v: nat)
    requires start <= |s| && v <= |s|
  {
    ParseMembers(s[start..]) == Prefix(Members(f), MoreMembers(s[v..]))
  }

  lemma FirstMember(s: string, start: nat, f: seq<Tree>, v: nat)
    requires start <= |s| && v <= |s| && |f| == 1
    requires ParseMembers(s[start..]) == Prefix([MemberOf(Last(f))], MoreMembers(s[v..]))
    ensures MembersSoFar(s, start, f, v)
  {
    hide ParseMembers, MoreMembers, Value;
    assert Members(f) == [MemberOf(Last(f))];
  }

  lemma NextMember(s: string, start: nat, f: seq<Tree>, v: nat, g: seq<Tree>, c: Cursor)
    requires start <= |s| && v < |s| && s[v] == ',' && MembersSoFar(s, start, f, v)
    ensures ParseMembers(s[v + 1..]) == Rejected ==> ParseMembers(s[start..]) == Rejected
    ensures ParseMembers(s[v + 1..]) == Undefined ==> ParseMembers(s[start..]) == Undefined
    ensures
      && c.Next? && c.end <= |s| && |g| == |f| + 1 && g[..|f|] == f
      && ParseMembers(s[v + 1..]) == Prefix([MemberOf(Last(g))], MoreMembers(s[c.end..]))
      ==> MembersSoFar(s, start, g, c.end)
  {
    MoreSpec(s, v);
    hide ParseMembers, MoreMembers, Value;
    if c.Next? && c.end <= |s| && |g| == |f| + 1 && g[..|f|] == f {
      assert Members(g) == Members(f) + [MemberOf(Last(g))] by {
        assert forall k | 0 <= k < |f| :: g[k] == g[..|f|][k] == f[k];
      }
      PrefixPrefix(Members(f), [MemberOf(Last(g))], MoreMembers(s[c.end..]));
    }
  }

  lemma MembersEnd(s: string, start: nat, f: seq<Tree>, v: nat)
    requires start <= |s| && v <= |s| && At(s, v) != ',' && MembersSoFar(s, start, f, v)
    ensures ParseMembers(s[start..]) == if At(s, v) == '}' then Parsed(Members(f), s[v + 1..]) else Rejected
  {
    MoreSpec(s, v);
    hide ParseMembers, MoreMembers, Members;
    assert Members(f) + [] == Members(f);
  }

  /** All the members of an object that has some, and the closing brace. */
  method ParseMembersAll(item: Node, s: string, start: nat, h: Heap, ghost t0: Tree) returns (c: Cursor, ghost t: Tree)
    requires start <= |s| && t0.node == item && t0.kids == [] && Holds(t0) && Separate(t0) && Blocks(t0) <= h.live
    modifies h, item`child
    ensures !c.Stray? ==>
      && Holds(t) && Separate(t) && t.node == item && t.data == t0.data
      && Blocks(t0) <= Blocks(t) && fresh(Blocks(t) - Blocks(t0)) && h.live == old(h.live) + Blocks(t)
    ensures Agrees(c, ParseMembers(s[start..]), Members(t.kids), s, h.failures > old(h.failures)) && (c.Next? ==> TypedKids(t.kids, true))
    ensures old(h.failures) <= h.failures && (c.Next? ==> h.failures == old(h.failures))
    decreases |s| - start, 6
  {
    hide Blocks, Holds, Separate, KidNodes, Linked, ParseMembers, MoreMembers, MembersSoFar, Members, Prefix;
    hide Typed, TypedKids;
    var child;
    child, c, t := ParseEntry(item, null, s, start, h, t0);
    if !c.Next? {
      return;
    }
    var v := c.end;
    FirstMember(s, start, t.kids, v);
    FirstTyped(t.kids, true);
    while At(s, v) == ','
      invariant start <= v <= |s| && t.kids != [] && child == Last(t.kids).node && fresh(child)
      invariant Holds(t) && Separate(t) && t.node == item && t.data == t0.data && Blocks(t0) <= Blocks(t)
      invariant fresh(Blocks(t) - Blocks(t0)) && h.live == old(h.live) + Blocks(t) && h.failures == old(h.failures)
      invariant MembersSoFar(s, start, t.kids, v) && TypedKids(t.kids, true)
      decreases |s| - v
    {
      ghost var f := t.kids;
      child, c, t := ParseEntry(item, child, s, v + 1, h, t);
      NextMember(s, start, f, v, t.kids, c);
      if !c.Next? {
        return;
      }
      OneMoreTyped(f, t.kids, true);
      v := c.end;
    }
    MembersEnd(s, start, t.kids, v);
    c := if At(s, v) == '}' then Next(v + 1) else Nowhere;
  }

  method ParseObjectAt(item: Node, s: string, i: nat, h: Heap, ghost t0: Tree) returns (c: Cursor, ghost t: Tree)
    requires i < |s| && t0.node == item && Blank(t0) && Holds(t0) && Separate(t0) && Blocks(t0) <= h.live
    requires s[i] == '{'
    modifies h, item`kind, item`valuestring, item`valueint, item`valuedouble, item`child
    ensures !c.Stray? ==>
      && Holds(t) && Separate(t) && Grown(t0, t) && fresh(Blocks(t) - Blocks(t0)) && h.live == old(h.live) + Blocks(t)
    ensures Agrees(c, ParseValue(s[i..]), Value(t), s, h.failures > old(h.failures)) && (c.Next? ==> Typed(t))
    ensures old(h.failures) <= h.failures && (c.Next? ==> h.failures == old(h.failures))
    decreases |s| - i, 2
  {
    hide Blocks, Holds, Separate, ParseMembers, ParseValue, MoreMembers, KidNodes, Linked, MembersSoFar, Members, Prefix;
    t := SetKind(item, KObject, t0);
    AllAllocated(t);
    var v := SkipSpace(s, i + 1);
    BracketSpec(s, i, v);
    if At(s, v) == '}' {
      return Next(v + 1), t;
    }
    c, t := ParseMembersAll(item, s, v, h, t);
    if c.Next? {
      TypedKidsOf(t);
    }
  }

  // ---------- whole texts ----------

  /**
   `cJSON_ParseWithOpts`. A tree returned is the value the parser function gives, in fresh blocks; when none is
   returned, every block allocated on the way has been freed, and either memory ran out or the text is no JSON.
   `c` is the parse end.
   */
  method ParseWithOpts(s: string, requireNul: bool, h: Heap) returns (root: Node?, c: Cursor, ghost o: Option<Tree>)
    modifies h
    ensures root != null <==> c.Next?
    ensures c.Nowhere? ==> h.live == old(h.live) && (h.failures > old(h.failures) || ParseText(s, requireNul) == Rejected)
    ensures c.Stray? ==> ParseText(s, requireNul) == Undefined
    ensures c.Next? ==>
      && o.Some? && o.value.node == root && Root(o.value) && fresh(Blocks(o.value))
      && h.live == old(h.live) + Blocks(o.value) && h.failures == old(h.failures)
      && c.end <= |s| && ParseText(s, requireNul) == Parsed(Value(o.value), s[c.end..]) && Typed(o.value)
  {
    hide Blocks, Holds, Separate, ParseValue, Value, ForestNodes, Skip, DataBlocks, ForestBlocks, LowerNodes, KidNodes;
    hide Linked, AllHold, Typed;
    c, o := Nowhere, None;
    root := h.NewItem();
    if root == null {
      return;
    }
    ghost var t := Tree(root, root.GetData(), []);
    BareHolds(root);
    BareBlocks(root, t.data);
    NoStrings();
    assert s[0..] == s;
    AllAllocated(t);
    var j := SkipSpace(s, 0);
    c, t := ParseAt(root, s, j, h, t);
    if c.Next? && requireNul {
      AllAllocated(t);
      var end := SkipSpace(s, c.end);
      AtSuffix(s, end, 0);
      c := if At(s, end) != '\0' then Nowhere else Next(end);
    }
    o := Some(t);
    if c.Nowhere? {
      Delete(root, h, t);
    }
    if !c.Next? {
      root := null;
    }
  }

  lemma NoStrings()
    ensures DataBlocks(Data(KFalse, null, 0, 0.0, null)) == {}
  {
  }
}
