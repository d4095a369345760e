/** Editing the child chain of an array or object node in place, and looking a child up. */
module Edits {
  import opened Nodes
  import opened Deletion

  // ---------- pictures ----------

  ghost predicate Distinct(f: seq<Tree>) {
    forall j, k | 0 <= j < |f| && 0 <= k < |f| && j != k :: f[j].node != f[k].node
  }

  /** What the edits need to know of a picture: where the nodes they change do not occur. */
  lemma Apart(t: Tree)
    requires Separate(t)
    ensures ApartFrom(t.kids, t.node)
  {
    var f := t.kids;
    ForestNodesAreBlocks(f);
    forall j, k | 0 <= j < |f| && 0 <= k < |f|
      ensures f[j].node !in ForestNodes(f[k].kids) && (j != k ==> f[j].node != f[k].node)
    {
      KidsApart(f, j, k);
    }
  }

  lemma KidsApart(f: seq<Tree>, j: nat, k: nat)
    requires SeparateForest(f) && j < |f| && k < |f|
    ensures f[j].node !in ForestNodes(f[k].kids) && (j != k ==> f[j].node != f[k].node)
  {
    ForestNodesAreBlocks(f[k].kids);
    hide ForestNodes;
    assert f[j].node in Blocks(f[j]) && f[k].node in Blocks(f[k]);
    assert forall x | x in ForestNodes(f[k].kids) :: x in Blocks(f[k]);
    assert Separate(f[k]);
    if j < k {
      assert Blocks(f[j]) !! Blocks(f[k]);
    } else if k < j {
      assert Blocks(f[k]) !! Blocks(f[j]);
    }
  }

  /** The picture of a node whose children are `f`. */
  ghost function With(t: Tree, f: seq<Tree>): Tree {
    Tree(t.node, t.data, f)
  }

  ghost function Position(which: int): nat {
    if which > 0 then which else 0
  }

  // ---------- walking the chain ----------

  /** `while (c && c->next) c = c->next`. */
  method LastItem(first: Node, ghost f: seq<Tree>) returns (c: Node)
    requires f != [] && first == f[0].node && Linked(f)
    ensures c == f[|f| - 1].node
  {
    c := first;
    ghost var k := 0;
    while c.next != null
      invariant 0 <= k < |f| && c == f[k].node
      decreases |f| - k
    {
      c, k := c.next, k + 1;
    }
  }

  /** `while (c && which > 0) c = c->next, which--`. */
  method ItemAt(first: Node?, which: int, ghost f: seq<Tree>) returns (c: Node?)
    requires first == Head(f) && Linked(f)
    ensures c == NodeAt(f, Position(which))
  {
    c := first;
    var left := which;
    ghost var k := 0;
    while c != null && left > 0
      invariant 0 <= k <= |f| && c == NodeAt(f, k)
      invariant Position(which) == k + Position(left) || (c == null && Position(which) >= |f|)
      decreases left
    {
      c, left, k := c.next, left - 1, k + 1;
    }
  }

  // ---------- append ----------

  /** `suffix_object`. */
  method SuffixObject(prev: Node, item: Node, ghost f: seq<Tree>, ghost x: Tree)
    requires f != [] && prev == f[|f| - 1].node && Linked(f)
    requires item == x.node && item.Alone() && Distinct(f + [x])
    modifies prev`next, item`prev
    ensures Linked(f + [x])
  {
    ghost var g := f + [x];
    assert forall k | 0 <= k < |f| :: g[k] == f[k];
    prev.next := item;
    item.prev := prev;
  }

  /** The places a step may change are apart from the trees below the children. */
  ghost predicate ApartFrom(f: seq<Tree>, parent: Node) {
    && Distinct(f) && KidNodes(f) !! LowerNodes(f)
    && parent !in KidNodes(f) && parent !in LowerNodes(f)
  }

  method Append(parent: Node, item: Node, ghost f: seq<Tree>, ghost x: Tree)
    requires parent.child == Head(f) && Linked(f) && x.node == item && item.Alone()
    requires AllHold(f + [x]) && ApartFrom(f + [x], parent)
    modifies parent`child, KidNodes(f)`next, item`prev
    ensures parent.child == Head(f + [x]) && Linked(f + [x]) && AllHold(f + [x])
  {
    hide LowerNodes, AllHold, Linked, KidNodes, Distinct;
    ghost var g := f + [x];
    assert allocated(LowerNodes(g)) && allocated(KidNodes(g)) && allocated(KidNodes(f));
    NodeOf(g, |f|);
    if parent.child == null {
      parent.child := item;
      SingleLinked(x);
      assert g == [x];
    } else {
      NodeOf(g, |f| - 1);
      NodeOf(f, |f| - 1);
      var last := LastItem(parent.child, f);
      SuffixObject(last, item, f, x);
    }
  }

  /** `cJSON_AddItemToArray`; adding NULL does nothing. */
  method AddItemToArray(parent: Node, item: Node?, ghost t: Tree, ghost x: Tree)
    requires t.node == parent && Holds(t) && Separate(t)
    requires item != null ==> x.node == item && Root(x) && Blocks(x) !! Blocks(t)
    modifies parent`child, KidNodes(t.kids)`next, (if item == null then {} else {item})`prev
    ensures item == null ==> Holds(t)
    ensures item != null ==> Holds(With(t, t.kids + [x])) && Separate(With(t, t.kids + [x]))
  {
    hide Blocks, ForestNodes, LowerNodes, KidNodes, Separate, ApartFrom, AllHold, Linked;
    if item != null {
      SeparateAppend(t, x);
      Apart(With(t, t.kids + [x]));
      AppendHolds(t.kids, x);
      Append(parent, item, t.kids, x);
    }
  }

  /** Linking a new last child in where the last one is known: `child->next = item, item->prev = child`. */
  method Attach(parent: Node, last: Node?, item: Node, ghost t: Tree, ghost x: Tree)
    requires t.node == parent && Holds(t) && Separate(t) && last == NodeAt(t.kids, |t.kids| - 1)
    requires x.node == item && Root(x) && Blocks(x) !! Blocks(t)
    modifies parent`child, (if last == null then {} else {last})`next, item`prev
    ensures Holds(With(t, t.kids + [x])) && Separate(With(t, t.kids + [x]))
  {
    hide Blocks, ForestNodes, LowerNodes, KidNodes, Separate, AllHold, Linked, Distinct;
    ghost var f, g := t.kids, t.kids + [x];
    SeparateAppend(t, x);
    Apart(With(t, g));
    AppendHolds(f, x);
    AllAllocated(With(t, g));
    NodeOf(g, |f|);
    if last != null {
      NodeOf(g, |f| - 1);
      SuffixObject(last, item, f, x);
    } else {
      parent.child := item;
      SingleLinked(x);
      assert g == [x];
    }
  }

  lemma SingleLinked(x: Tree)
    requires x.node.Alone()
    ensures Linked([x])
  {
  }

  lemma AppendHolds(f: seq<Tree>, x: Tree)
    requires AllHold(f) && Holds(x)
    ensures AllHold(f + [x])
  {
  }

  lemma NodeOf(f: seq<Tree>, k: nat)
    requires k < |f|
    ensures f[k].node in KidNodes(f)
  {
  }

  /** `g` takes some of the trees of `f`, each at most once, and perhaps `x`, written as index -1. */
  ghost predicate Picks(g: seq<Tree>, pick: seq<int>, f: seq<Tree>, x: Tree) {
    && |pick| == |g|
    && (forall j | 0 <= j < |g| :: -1 <= pick[j] < |f| && g[j] == Picked(f, x, pick[j]))
    && (forall j, k | 0 <= j < k < |g| :: pick[j] != pick[k])
  }

  ghost function Picked(f: seq<Tree>, x: Tree, i: int): Tree
    requires i < |f|
  {
    if i < 0 then x else f[i]
  }

  lemma PickedBlocks(f: seq<Tree>, x: Tree, g: seq<Tree>, pick: seq<int>)
    requires Picks(g, pick, f, x)
    ensures ForestBlocks(g) <= ForestBlocks(f) + (if -1 in pick then Blocks(x) else {})
  {
    hide Blocks, ForestBlocks;
    forall b | b in ForestBlocks(g)
      ensures b in ForestBlocks(f) || (-1 in pick && b in Blocks(x))
    {
      var k := Owner(g, b);
      if pick[k] >= 0 {
        BlocksInside(f, pick[k]);
      }
    }
  }

  /** Rearranging, dropping and adding children keeps a picture free of sharing. */
  lemma SeparatePick(t: Tree, x: Tree, g: seq<Tree>, pick: seq<int>)
    requires Separate(t) && Picks(g, pick, t.kids, x)
    requires -1 in pick ==> Separate(x) && Blocks(x) !! Blocks(t)
    ensures Separate(With(t, g))
    ensures ForestBlocks(g) <= ForestBlocks(t.kids) + (if -1 in pick then Blocks(x) else {})
  {
    PickedBlocks(t.kids, x, g, pick);
    SeparatePicked(t, x, g, pick);
    assert {t.node} + DataBlocks(t.data) <= Blocks(t);
    hide Blocks, ForestBlocks, DataBlocks, SeparateForest, Picks;
    assert ({t.node} + DataBlocks(t.data)) !! ForestBlocks(g);
  }

  lemma SeparatePicked(t: Tree, x: Tree, g: seq<Tree>, pick: seq<int>)
    requires Separate(t) && Picks(g, pick, t.kids, x)
    requires -1 in pick ==> Separate(x) && Blocks(x) !! Blocks(t)
    ensures SeparateForest(g)
  {
    hide Blocks, ForestBlocks, DataBlocks;
    forall j, k | 0 <= j < k < |g|
      ensures Blocks(g[j]) !! Blocks(g[k])
    {
      PickedApart(t, x, pick[j], pick[k]);
    }
    forall k | 0 <= k < |g|
      ensures Separate(g[k])
    {
      PickedSeparate(t, x, pick[k]);
    }
  }

  lemma PickedSeparate(t: Tree, x: Tree, i: int)
    requires Separate(t) && -1 <= i < |t.kids| && (i < 0 ==> Separate(x))
    ensures Separate(Picked(t.kids, x, i))
  {
    hide Blocks, ForestBlocks, DataBlocks;
  }

  lemma PickedApart(t: Tree, x: Tree, i: int, j: int)
    requires Separate(t) && -1 <= i < |t.kids| && -1 <= j < |t.kids| && i != j
    requires i < 0 || j < 0 ==> Blocks(x) !! Blocks(t)
    ensures Blocks(Picked(t.kids, x, i)) !! Blocks(Picked(t.kids, x, j))
  {
    if i >= 0 {
      BlocksInside(t.kids, i);
    }
    if j >= 0 {
      BlocksInside(t.kids, j);
    }
    assert ForestBlocks(t.kids) <= Blocks(t);
    hide Blocks, ForestBlocks;
  }

  lemma SeparateAppend(t: Tree, x: Tree)
    requires Separate(t) && Separate(x) && Blocks(x) !! Blocks(t)
    ensures Separate(With(t, t.kids + [x]))
  {
    var n := |t.kids|;
    SeparatePick(t, x, t.kids + [x], seq(n + 1, k => if k < n then k else -1));
  }

  lemma AppendBlocks(u: Tree, v: Tree)
    ensures Blocks(With(u, u.kids + [v])) == Blocks(u) + Blocks(v)
  {
    hide Blocks, ForestBlocks, DataBlocks;
    OwnBlocks(u);
    OwnBlocks(With(u, u.kids + [v]));
    ForestBlocksAppend(u.kids, v);
  }

  // ---------- detach ----------

  ghost function Without(f: seq<Tree>, i: nat): seq<Tree>
    requires i < |f|
  {
    f[..i] + f[i + 1..]
  }

  lemma Neighbours(f: seq<Tree>, i: nat)
    requires i < |f| && Linked(f)
    ensures f[i].node.next == NodeAt(f, i + 1) && f[i].node.prev == NodeAt(f, i - 1)
    ensures forall k | i - 1 <= k <= i + 1 && 0 <= k < |f| :: f[k].node in KidNodes(f)
  {
  }

  ghost predicate NextSkips(f: seq<Tree>, i: nat)
    reads KidNodes(f)`next
  {
    forall k {:trigger f[k].node.next} | 0 <= k < |f| && k != i :: f[k].node.next == NodeAt(f, if k + 1 == i then i + 1 else k + 1)
  }

  ghost predicate PrevSkips(f: seq<Tree>, i: nat)
    reads KidNodes(f)`prev
  {
    forall k {:trigger f[k].node.prev} | 0 <= k < |f| && k != i :: f[k].node.prev == NodeAt(f, if k == i + 1 then i - 1 else k - 1)
  }

  method SkipNext(c: Node, ghost f: seq<Tree>, ghost i: nat)
    requires i < |f| && c == f[i].node && Linked(f) && Distinct(f)
    modifies KidNodes(f)`next
    ensures NextSkips(f, i) && c.next == NodeAt(f, i + 1)
  {
    if c.prev != null {
      c.prev.next := c.next;
    }
  }

  method SkipPrev(c: Node, ghost f: seq<Tree>, ghost i: nat)
    requires i < |f| && c == f[i].node && c.next == NodeAt(f, i + 1) && PrevLinked(f) && Distinct(f)
    modifies KidNodes(f)`prev
    ensures PrevSkips(f, i) && c.prev == NodeAt(f, i - 1)
  {
    if c.next != null {
      c.next.prev := c.prev;
    }
  }

  lemma SkippedLinked(f: seq<Tree>, i: nat)
    requires i < |f| && NextSkips(f, i) && PrevSkips(f, i) && Distinct(f)
    ensures Linked(Without(f, i)) && f[i].node !in KidNodes(Without(f, i))
    ensures KidNodes(Without(f, i)) <= KidNodes(f)
  {
    hide KidNodes;
    var g := Without(f, i);
    WithoutAt(f, i);
    hide Without;
    forall k | 0 <= k < |g|
      ensures g[k].node.next == NodeAt(g, k + 1) && g[k].node.prev == NodeAt(g, k - 1)
    {
      var m := if k < i then k else k + 1;
      assert g[k] == f[m] && f[m].node.next == NodeAt(f, if m + 1 == i then i + 1 else m + 1);
      assert f[m].node.prev == NodeAt(f, if m == i + 1 then i - 1 else m - 1);
    }
    WithoutNodes(f, i);
  }

  lemma WithoutAt(f: seq<Tree>, i: nat)
    requires i < |f|
    ensures var g := Without(f, i);
      |g| == |f| - 1 && forall k | 0 <= k < |g| :: g[k] == if k < i then f[k] else f[k + 1]
  {
  }

  lemma WithoutNodes(f: seq<Tree>, i: nat)
    requires i < |f| && Distinct(f)
    ensures f[i].node !in KidNodes(Without(f, i)) && KidNodes(Without(f, i)) <= KidNodes(f)
  {
    WithoutAt(f, i);
    hide Without;
    var g := Without(f, i);
    forall n | n in KidNodes(g)
      ensures n in KidNodes(f) && n != f[i].node
    {
      var k: nat :| k < |g| && g[k].node == n;
      NodeOf(f, if k < i then k else k + 1);
    }
  }

  /** The pointer surgery of `cJSON_DetachItemFromArray`. */
  method Unlink(parent: Node, c: Node, ghost f: seq<Tree>, ghost i: nat)
    requires i < |f| && c == f[i].node
    requires parent.child == Head(f) && Linked(f) && AllHold(f) && ApartFrom(f, parent)
    modifies parent`child, KidNodes(f)`next, KidNodes(f)`prev
    ensures c.Alone() && parent.child == Head(Without(f, i)) && Linked(Without(f, i)) && AllHold(f)
  {
    hide LowerNodes, AllHold, KidNodes, NextLinked, PrevLinked, NextSkips, PrevSkips;
    ghost var g := Without(f, i);
    assert allocated(LowerNodes(f)) && allocated(KidNodes(f)) && allocated(KidNodes(g));
    NodeOf(f, i);
    SkipNext(c, f, i);
    SkipPrev(c, f, i);
    SkippedLinked(f, i);
    if c == parent.child {
      parent.child := c.next;
    }
    c.prev, c.next := null, null;
  }

  lemma SeparateWithout(t: Tree, i: nat)
    requires Separate(t) && i < |t.kids|
    ensures Separate(With(t, Without(t.kids, i))) && Separate(t.kids[i])
    ensures Blocks(t.kids[i]) !! Blocks(With(t, Without(t.kids, i)))
    ensures ForestBlocks(t.kids) == ForestBlocks(Without(t.kids, i)) + Blocks(t.kids[i])
  {
    hide Blocks, ForestBlocks, DataBlocks, Separate, SeparateForest, Without;
    var f, g := t.kids, Without(t.kids, i);
    WithoutPicks(t, i);
    BlocksInside(f, i);
    WithoutBlocks(f, i);
    OwnBlocks(t);
    OwnBlocks(With(t, g));
    forall b | b in ForestBlocks(g)
      ensures b !in Blocks(f[i])
    {
      var k := Owner(g, b);
      PickedApart(t, t, if k < i then k else k + 1, i);
    }
    PickedSeparate(t, t, i);
  }

  lemma OwnBlocks(t: Tree)
    ensures Blocks(t) == {t.node} + DataBlocks(t.data) + ForestBlocks(t.kids)
    ensures Separate(t) ==> ({t.node} + DataBlocks(t.data)) !! ForestBlocks(t.kids)
  {
  }

  lemma WithoutPicks(t: Tree, i: nat)
    requires Separate(t) && i < |t.kids|
    ensures |Without(t.kids, i)| == |t.kids| - 1
    ensures forall k: nat | k < |t.kids| - 1 :: Without(t.kids, i)[k] == t.kids[if k < i then k else k + 1]
    ensures Separate(With(t, Without(t.kids, i)))
  {
    var g := Without(t.kids, i);
    SeparatePick(t, t, g, seq(|g|, k => if k < i then k else k + 1));
  }

  lemma WithoutBlocks(f: seq<Tree>, i: nat)
    requires i < |f|
    ensures ForestBlocks(f) == ForestBlocks(Without(f, i)) + Blocks(f[i])
  {
    hide Blocks, ForestBlocks;
    var g := Without(f, i);
    forall b | b in ForestBlocks(f)
      ensures b in ForestBlocks(g) || b in Blocks(f[i])
    {
      var k := Owner(f, b);
      if k != i {
        BlocksInside(g, if k < i then k else k - 1);
      }
    }
    forall b | b in ForestBlocks(g)
      ensures b in ForestBlocks(f)
    {
      var k := Owner(g, b);
      BlocksInside(f, if k < i then k else k + 1);
    }
    BlocksInside(f, i);
  }

  lemma WithoutHolds(f: seq<Tree>, i: nat)
    requires i < |f| && AllHold(f)
    ensures AllHold(Without(f, i)) && Holds(f[i])
  {
  }

  /** `cJSON_DetachItemFromArray`: the child at a place, negative for the first; NULL when there is none. */
  method DetachItemFromArray(parent: Node, which: int, ghost t: Tree) returns (c: Node?)
    requires t.node == parent && Holds(t) && Separate(t)
    modifies parent`child, KidNodes(t.kids)`next, KidNodes(t.kids)`prev
    ensures var i := Position(which);
      if i < |t.kids| then
        && c == t.kids[i].node && Root(t.kids[i])
        && Holds(With(t, Without(t.kids, i))) && Separate(With(t, Without(t.kids, i)))
        && Blocks(t.kids[i]) !! Blocks(With(t, Without(t.kids, i)))
      else c == null && Holds(t)
  {
    hide Blocks, ForestNodes, LowerNodes, KidNodes, Separate, ApartFrom, AllHold, Linked, Without;
    ghost var i := Position(which);
    assert allocated(LowerNodes(t.kids)) && allocated(KidNodes(t.kids));
    c := ItemAt(parent.child, which, t.kids);
    if c == null {
      return;
    }
    Apart(t);
    SeparateWithout(t, i);
    Unlink(parent, c, t.kids, i);
    WithoutHolds(t.kids, i);
  }

  // ---------- insert ----------

  ghost function Inserted(f: seq<Tree>, i: nat, x: Tree): seq<Tree>
    requires i <= |f|
  {
    f[..i] + [x] + f[i..]
  }

  lemma InsertedAt(f: seq<Tree>, i: nat, x: Tree)
    requires i <= |f|
    ensures |Inserted(f, i, x)| == |f| + 1
    ensures forall k {:trigger Inserted(f, i, x)[k]} | 0 <= k <= |f| ::
      Inserted(f, i, x)[k] == if k < i then f[k] else if k == i then x else f[k - 1]
  {
  }

  method LinkInPrev(c: Node, item: Node, ghost f: seq<Tree>, ghost i: nat, ghost x: Tree)
    requires i < |f| && c == f[i].node && x.node == item && PrevLinked(f)
    requires Distinct(f) && forall k | 0 <= k < |f| :: f[k].node != item
    modifies item`next, item`prev, c`prev
    ensures PrevLinked(Inserted(f, i, x)) && item.prev == NodeAt(f, i - 1) && item.next == c
  {
    hide Inserted;
    InsertedAt(f, i, x);
    item.next := c;
    item.prev := c.prev;
    c.prev := item;
  }

  method LinkInNext(parent: Node, c: Node, item: Node, ghost f: seq<Tree>, ghost i: nat, ghost x: Tree)
    requires i < |f| && c == f[i].node && x.node == item && parent.child == Head(f) && NextLinked(f)
    requires Distinct(f) && forall k | 0 <= k < |f| :: f[k].node != item
    requires item.prev == NodeAt(f, i - 1) && item.next == c
    modifies parent`child, KidNodes(f)`next
    ensures NextLinked(Inserted(f, i, x)) && parent.child == Head(Inserted(f, i, x))
  {
    hide Inserted, KidNodes;
    InsertedAt(f, i, x);
    if c == parent.child {
      parent.child := item;
    } else {
      NodeOf(f, i - 1);
      item.prev.next := item;
    }
  }

  /** The pointer surgery of `cJSON_InsertItemInArray`. */
  method LinkIn(parent: Node, c: Node, item: Node, ghost f: seq<Tree>, ghost i: nat, ghost x: Tree)
    requires i < |f| && c == f[i].node && x.node == item && parent.child == Head(f) && Linked(f)
    requires AllHold(Inserted(f, i, x)) && ApartFrom(Inserted(f, i, x), parent)
    requires Distinct(f) && forall k | 0 <= k < |f| :: f[k].node != item
    modifies parent`child, item`next, item`prev, c`prev, KidNodes(f)`next
    ensures var g := Inserted(f, i, x); parent.child == Head(g) && Linked(g) && AllHold(g)
  {
    hide AllHold, LowerNodes, Inserted, KidNodes, PrevLinked, NextLinked, Distinct;
    ghost var g := Inserted(f, i, x);
    assert allocated(LowerNodes(g)) && allocated(KidNodes(g)) && allocated(KidNodes(f));
    InsertedNodes(f, i, x);
    LinkInPrev(c, item, f, i, x);
    LinkInNext(parent, c, item, f, i, x);
  }

  lemma InsertedNodes(f: seq<Tree>, i: nat, x: Tree)
    requires i < |f| && forall k | 0 <= k < |f| :: f[k].node != x.node
    ensures KidNodes(f) <= KidNodes(Inserted(f, i, x)) && x.node in KidNodes(Inserted(f, i, x))
    ensures f[i].node in KidNodes(f) && x.node !in KidNodes(f)
  {
    var g := Inserted(f, i, x);
    hide Inserted;
    InsertedAt(f, i, x);
    NodeOf(g, i);
    forall n | n in KidNodes(f)
      ensures n in KidNodes(g)
    {
      var k: nat :| k < |f| && n == f[k].node;
      NodeOf(g, if k < i then k else k + 1);
    }
  }

  lemma InsertPicture(t: Tree, i: nat, x: Tree)
    requires Separate(t) && Separate(x) && Blocks(x) !! Blocks(t) && i <= |t.kids|
    requires AllHold(t.kids) && Holds(x)
    ensures var g := Inserted(t.kids, i, x);
      && Separate(With(t, g)) && ApartFrom(g, t.node) && AllHold(g)
      && Distinct(t.kids) && forall k | 0 <= k < |t.kids| :: t.kids[k].node != x.node
  {
    hide Blocks, Separate, Holds, ForestBlocks, LowerNodes, KidNodes, Distinct, DataBlocks;
    var g := Inserted(t.kids, i, x);
    Apart(t);
    RootsDiffer(t, x);
    InsertedAt(t.kids, i, x);
    SeparatePick(t, x, g, seq(|g|, k => if k < i then k else if k == i then -1 else k - 1));
    Apart(With(t, g));
  }

  lemma RootsDiffer(t: Tree, x: Tree)
    requires Blocks(x) !! Blocks(t)
    ensures forall k | 0 <= k < |t.kids| :: t.kids[k].node != x.node
  {
    hide Blocks, ForestBlocks;
    RootBlock(x);
    OwnBlocks(t);
    forall k | 0 <= k < |t.kids|
      ensures t.kids[k].node in Blocks(t)
    {
      RootBlock(t.kids[k]);
      BlocksInside(t.kids, k);
    }
  }

  /** `cJSON_InsertItemInArray`: before the child at a place, or after the last one when there is none. */
  method InsertItemInArray(parent: Node, which: int, newitem: Node, ghost t: Tree, ghost x: Tree)
    requires t.node == parent && Holds(t) && Separate(t)
    requires x.node == newitem && Root(x) && Blocks(x) !! Blocks(t)
    modifies parent`child, KidNodes(t.kids)`next, KidNodes(t.kids)`prev, newitem`next, newitem`prev
    ensures var i := if Position(which) < |t.kids| then Position(which) else |t.kids|;
      Holds(With(t, Inserted(t.kids, i, x))) && Separate(With(t, Inserted(t.kids, i, x)))
  {
    hide Blocks, ForestNodes, LowerNodes, KidNodes, Separate, ApartFrom, AllHold, Linked, Inserted;
    ghost var f := t.kids;
    assert allocated(LowerNodes(f)) && allocated(KidNodes(f)) && allocated(ForestNodes(x.kids));
    var c := ItemAt(parent.child, which, f);
    if c == null {
      AddItemToArray(parent, newitem, t, x);
      InsertAtEnd(f, x);
    } else {
      ghost var i := Position(which);
      InsertPicture(t, i, x);
      NodeOf(f, i);
      LinkIn(parent, c, newitem, f, i, x);
    }
  }

  lemma InsertAtEnd(f: seq<Tree>, x: Tree)
    ensures Inserted(f, |f|, x) == f + [x]
  {
  }

  // ---------- replace ----------

  method LinkOver(parent: Node, c: Node, item: Node, ghost f: seq<Tree>, ghost i: nat, ghost x: Tree)
    requires i < |f| && c == f[i].node && x.node == item && parent.child == Head(f) && Linked(f)
    requires AllHold(f[i := x]) && ApartFrom(f[i := x], parent) && c !in LowerNodes(f[i := x])
    requires Distinct(f) && forall k | 0 <= k < |f| :: f[k].node != item
    modifies parent`child, item`next, item`prev, KidNodes(f)`prev, KidNodes(f)`next
    ensures var g := f[i := x]; parent.child == Head(g) && Linked(g) && AllHold(g) && c.Alone()
  {
    hide AllHold, LowerNodes, KidNodes, PrevLinked, NextLinked;
    ghost var g := f[i := x];
    assert allocated(LowerNodes(g)) && allocated(KidNodes(g)) && allocated(KidNodes(f));
    Neighbours(f, i);
    NotInChain(f, i, x);
    LinkOverPrev(c, item, f, i, x);
    LinkOverNext(parent, c, item, f, i, x);
    c.next, c.prev := null, null;
  }

  method LinkOverPrev(c: Node, item: Node, ghost f: seq<Tree>, ghost i: nat, ghost x: Tree)
    requires i < |f| && c == f[i].node && x.node == item && PrevLinked(f) && c.next == NodeAt(f, i + 1)
    requires Distinct(f) && forall k | 0 <= k < |f| :: f[k].node != item
    modifies item`next, item`prev, KidNodes(f)`prev
    ensures PrevLinked(f[i := x]) && item.prev == NodeAt(f, i - 1) && item.next == NodeAt(f, i + 1)
  {
    hide KidNodes;
    if i + 1 < |f| {
      NodeOf(f, i + 1);
    }
    item.next := c.next;
    item.prev := c.prev;
    if item.next != null {
      item.next.prev := item;
    }
  }

  method LinkOverNext(parent: Node, c: Node, item: Node, ghost f: seq<Tree>, ghost i: nat, ghost x: Tree)
    requires i < |f| && c == f[i].node && x.node == item && parent.child == Head(f) && NextLinked(f)
    requires Distinct(f) && forall k | 0 <= k < |f| :: f[k].node != item
    requires item.prev == NodeAt(f, i - 1) && item.next == NodeAt(f, i + 1)
    modifies parent`child, KidNodes(f)`next
    ensures NextLinked(f[i := x]) && parent.child == Head(f[i := x])
  {
    hide KidNodes;
    if c == parent.child {
      parent.child := item;
    } else {
      NodeOf(f, i - 1);
      item.prev.next := item;
    }
  }

  lemma NotInChain(f: seq<Tree>, i: nat, x: Tree)
    requires i < |f| && Distinct(f) && forall k | 0 <= k < |f| :: f[k].node != x.node
    ensures f[i].node !in KidNodes(f[i := x]) && x.node !in KidNodes(f)
    ensures KidNodes(f) <= KidNodes(f[i := x]) + {f[i].node} && x.node in KidNodes(f[i := x])
  {
    var g := f[i := x];
    NodeOf(g, i);
    forall n | n in KidNodes(f) && n != f[i].node
      ensures n in KidNodes(g)
    {
      var k: nat :| k < |f| && n == f[k].node;
      NodeOf(g, k);
    }
  }

  lemma ReplacePicture(t: Tree, i: nat, x: Tree)
    requires Separate(t) && Separate(x) && Blocks(x) !! Blocks(t) && i < |t.kids|
    requires AllHold(t.kids) && Holds(x)
    ensures var g := t.kids[i := x];
      && Separate(With(t, g)) && ApartFrom(g, t.node) && AllHold(g)
      && t.kids[i].node !in LowerNodes(g) && (forall k | 0 <= k < |t.kids| :: t.kids[k].node != x.node)
      && Blocks(t.kids[i]) !! Blocks(With(t, g)) && x.node !in ForestNodes(t.kids[i].kids)
  {
    hide Blocks, Separate, ApartFrom, Holds, ForestBlocks, LowerNodes, DataBlocks;
    var f, g := t.kids, t.kids[i := x];
    SeparatePick(t, x, g, seq(|g|, k => if k == i then -1 else k));
    Apart(With(t, g));
    OwnBlocks(t);
    OwnBlocks(With(t, g));
    forall b | b in ForestBlocks(g)
      ensures b !in Blocks(f[i])
    {
      var k := Owner(g, b);
      PickedApart(t, x, if k == i then -1 else k, i);
    }
    BlocksInside(f, i);
    ForestNodesAreBlocks(g);
    ForestNodesAreBlocks(f[i].kids);
    OwnBlocks(f[i]);
    RootBlock(x);
    RootBlock(f[i]);
    RootsDiffer(t, x);
  }

  lemma RootBlock(t: Tree)
    ensures t.node in Blocks(t)
  {
  }

  /** `cJSON_ReplaceItemInArray`: the child at a place is deleted; past the end nothing happens. */
  method ReplaceItemInArray(parent: Node, which: int, newitem: Node, h: Heap, ghost t: Tree, ghost x: Tree)
    requires t.node == parent && Holds(t) && Separate(t)
    requires x.node == newitem && Root(x) && Blocks(x) !! Blocks(t) && Blocks(t) <= h.live
    modifies h, parent`child, newitem`next, newitem`prev, KidNodes(t.kids)`next, KidNodes(t.kids)`prev
    ensures var i := Position(which);
      if i < |t.kids| then
        && Holds(With(t, t.kids[i := x])) && Separate(With(t, t.kids[i := x]))
        && h.live == old(h.live) - Blocks(t.kids[i])
      else Holds(t) && Root(x) && h.live == old(h.live)
    ensures h.failures == old(h.failures)
  {
    hide Blocks, ForestNodes, LowerNodes, KidNodes, Separate, AllHold, Linked;
    ghost var f, i := t.kids, Position(which);
    AllAllocated(t);
    AllAllocated(x);
    var c := ItemAt(parent.child, which, f);
    if c == null {
      return;
    }
    ghost var g := f[i := x];
    ReplacePicture(t, i, x);
    Apart(t);
    AllAllocated(With(t, g));
    BlocksInside(f, i);
    OwnBlocks(t);
    KidHolds(t, i);
    NodeOf(f, i);
    LinkOver(parent, c, newitem, f, i, x);
    Delete(c, h, f[i]);
  }

  lemma BareBlocks(n: Node, d: Data)
    ensures Blocks(Tree(n, d, [])) == {n} + DataBlocks(d)
    ensures Separate(Tree(n, d, [])) <==> (d.str != null ==> d.str != d.name)
  {
    var t := Tree(n, d, []);
    assert ForestBlocks(t.kids) == {};
  }

  lemma BareHolds(n: Node)
    requires n.child == null
    ensures Holds(Tree(n, n.GetData(), []))
  {
    var t := Tree(n, n.GetData(), []);
    assert Linked(t.kids) && AllHold(t.kids);
  }

  lemma AllAllocated(t: Tree)
    ensures allocated(t.node) && allocated(LowerNodes(t.kids)) && allocated(KidNodes(t.kids)) && allocated(ForestNodes(t.kids))
  {
  }

  lemma KidHolds(t: Tree, i: nat)
    requires i < |t.kids| && AllHold(t.kids) && Separate(t)
    ensures Holds(t.kids[i]) && Separate(t.kids[i])
    ensures KidNodes(t.kids) !! ForestNodes(t.kids[i].kids) && t.node !in ForestNodes(t.kids[i].kids)
    ensures allocated(ForestNodes(t.kids[i].kids))
  {
    Apart(t);
    hide ForestNodes, Separate;
    assert forall x | x in ForestNodes(t.kids[i].kids) :: x in LowerNodes(t.kids);
    assert Separate(t.kids[i]) by {
      PickedSeparate(t, t, i);
    }
  }
}
