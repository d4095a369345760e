/** `cJSON_Duplicate`: a copy in new memory, or nothing at all. */
module Duplicate {
  import opened Nodes
  import opened Deletion
  import opened Edits

  ghost predicate SameText(a: Chars?, b: Chars?) {
    (a == null <==> b == null) && TextOf(a) == TextOf(b)
  }

  ghost predicate SameData(d: Data, e: Data) {
    && d.kind == e.kind && d.whole == e.whole && d.num == e.num
    && SameText(d.str, e.str) && SameText(d.name, e.name)
  }

  /** The same tree in other memory. */
  ghost predicate Same(t: Tree, u: Tree)
    decreases t
  {
    SameData(t.data, u.data) && SameForest(t.kids, u.kids)
  }

  ghost predicate SameForest(f: seq<Tree>, g: seq<Tree>)
    decreases f
  {
    |f| == |g| && forall k | 0 <= k < |f| :: Same(f[k], g[k])
  }

  lemma {:induction false} SameValue(t: Tree, u: Tree)
    requires Same(t, u)
    ensures Value(t) == Value(u)
    decreases t
  {
    forall k | 0 <= k < |t.kids|
      ensures Value(t.kids[k]) == Value(u.kids[k])
      ensures TextOf(t.kids[k].data.name) == TextOf(u.kids[k].data.name)
    {
      SameValue(t.kids[k], u.kids[k]);
    }
    assert Values(t.kids) == Values(u.kids);
    assert Members(t.kids) == Members(u.kids);
  }

  /** The new node with its own fields; null when memory runs out, and then nothing stays allocated. */
  method CopyNode(item: Node, h: Heap) returns (n: Node?)
    modifies h
    ensures n == null ==> h.failures > old(h.failures) && h.live == old(h.live)
    ensures n != null ==>
      && fresh(n) && n.Alone() && n.child == null && SameData(item.GetData(), n.GetData())
      && fresh(DataBlocks(n.GetData())) && Separate(Tree(n, n.GetData(), []))
      && h.live == old(h.live) + {n} + DataBlocks(n.GetData()) && h.failures == old(h.failures)
  {
    hide Separate, DataBlocks;
    n := h.NewItem();
    if n == null {
      return;
    }
    n.kind, n.valueint, n.valuedouble := item.kind, item.valueint, item.valuedouble;
    BareData(n);
    var ok;
    n.valuestring, ok := CopyText(item.valuestring, h);
    BareData(n);
    if !ok {
      DeleteBare(n, h);
      return null;
    }
    n.name, ok := CopyText(item.name, h);
    BareData(n);
    if !ok {
      DeleteBare(n, h);
      return null;
    }
    BareSeparate(n);
  }

  /** A string copied, if there is one. */
  method CopyText(from: Chars?, h: Heap) returns (c: Chars?, ok: bool)
    modifies h
    ensures ok ==> SameText(from, c) && h.failures == old(h.failures)
    ensures !ok ==> c == null && h.failures > old(h.failures)
    ensures (c != null ==> fresh(c)) && h.live == old(h.live) + (if c == null then {} else {c})
  {
    c, ok := null, true;
    if from != null {
      c := h.StrDup(from.text);
      ok := c != null;
    }
  }

  lemma BareData(n: Node)
    ensures DataBlocks(n.GetData())
         == (if n.valuestring == null then {} else {n.valuestring}) + (if n.name == null then {} else {n.name})
  {
  }

  lemma BareSeparate(n: Node)
    requires n.valuestring != null ==> n.valuestring != n.name
    ensures Separate(Tree(n, n.GetData(), []))
  {
  }

  lemma BareRoot(n: Node)
    requires n.Alone() && n.child == null && Separate(Tree(n, n.GetData(), []))
    ensures Root(Tree(n, n.GetData(), []))
    ensures Blocks(Tree(n, n.GetData(), [])) == {n} + DataBlocks(n.GetData())
  {
    var t := Tree(n, n.GetData(), []);
    assert Linked(t.kids) && AllHold(t.kids);
  }

  method DeleteBare(n: Node, h: Heap)
    requires n.Alone() && n.child == null && {n} + DataBlocks(n.GetData()) <= h.live
    requires n.valuestring != null ==> n.valuestring != n.name
    modifies h
    ensures h.live == old(h.live) - ({n} + DataBlocks(n.GetData())) && h.failures == old(h.failures)
  {
    ghost var t := Tree(n, n.GetData(), []);
    assert Blocks(t) == {n} + DataBlocks(n.GetData());
    Delete(n, h, t);
  }

  /**
   `cJSON_Duplicate`. The copy consists of fresh blocks only, is well linked and free of sharing, and is the same
   tree; only the allocator is modified, so the original is what it was. When memory runs out, every block
   allocated on the way is freed.
   */
  method Duplicate(item: Node?, recurse: bool, h: Heap, ghost t: Tree) returns (copy: Node?, ghost u: Tree)
    requires item != null ==> item == t.node && Holds(t)
    modifies h
    ensures copy == null ==> h.live == old(h.live) && (item == null || h.failures > old(h.failures))
    ensures copy != null ==> item != null && u.node == copy && Root(u) && fresh(Blocks(u))
    ensures copy != null ==> h.live == old(h.live) + Blocks(u) && h.failures == old(h.failures)
    ensures copy != null ==> if recurse then Same(t, u) else SameData(t.data, u.data) && u.kids == []
    decreases t, 1
  {
    hide LowerNodes, KidNodes, Linked;
    u := t;
    if item == null {
      return null, u;
    }
    AllAllocated(t);
    var newitem := CopyNode(item, h);
    if newitem == null {
      return null, u;
    }
    u := Tree(newitem, newitem.GetData(), []);
    BareRoot(newitem);
    if recurse {
      copy, u := CopyKids(item, newitem, h, t, u);
    } else {
      copy := newitem;
    }
  }

  /** One child copied and linked in; when that fails, the whole copy is deleted. */
  method CopyKid(cptr: Node, newitem: Node, nptr: Node?, h: Heap, ghost t: Tree, ghost u: Tree)
    returns (newchild: Node?, ghost v: Tree)
    requires cptr == t.node && Holds(t)
    requires newitem == u.node && Root(u) && Blocks(u) <= h.live && nptr == NodeAt(u.kids, |u.kids| - 1)
    modifies h, newitem`child, (if nptr == null then {} else {nptr})`next
    ensures newchild == null ==> h.failures > old(h.failures) && h.live == old(h.live) - Blocks(u)
    ensures newchild != null ==>
      && newchild == v.node && fresh(Blocks(v)) && Same(t, v) && Root(With(u, u.kids + [v]))
      && h.live == old(h.live) + Blocks(v) && h.failures == old(h.failures)
    decreases t, 2
  {
    hide Blocks, ForestNodes, LowerNodes, KidNodes, Separate, Same, AllHold, Linked;
    AllAllocated(u);
    assert allocated(Blocks(u));
    newchild, v := Duplicate(cptr, true, h, t);
    if newchild == null {
      Delete(newitem, h, u);
    } else {
      RootBlock(v);
      Apart(u);
      if nptr != null {
        NodeOf(u.kids, |u.kids| - 1);
      }
      Attach(newitem, nptr, newchild, u, v);
    }
  }

  method CopyKids(item: Node, newitem: Node, h: Heap, ghost t: Tree, ghost u0: Tree)
    returns (copy: Node?, ghost u: Tree)
    requires item == t.node && Holds(t)
    requires newitem == u0.node && Root(u0) && u0.kids == [] && SameData(t.data, u0.data)
    requires newitem !in ForestNodes(t.kids) && newitem != item
    requires Blocks(u0) <= h.live
    modifies h, newitem`child
    ensures copy == null ==> h.failures > old(h.failures) && h.live == old(h.live) - Blocks(u0)
    ensures copy != null ==> u.node == copy == newitem && Root(u) && fresh(Blocks(u) - Blocks(u0)) && Same(t, u)
    ensures copy != null ==> h.live == old(h.live) + Blocks(u) && h.failures == old(h.failures)
    decreases t, 0
  {
    hide Blocks, ForestNodes, LowerNodes, KidNodes, Separate, Same, Root, Holds, AllHold, Linked;
    u := u0;
    FirstKid(t);
    var cptr, nptr: Node? := item.child, null;
    ghost var i: nat := 0;
    while cptr != null
      invariant i <= |t.kids| && cptr == NodeAt(t.kids, i) && Holds(t)
      invariant u.node == newitem && u.data == u0.data && |u.kids| == i && nptr == NodeAt(u.kids, i - 1)
      invariant Root(u) && forall k | 0 <= k < i :: Same(t.kids[k], u.kids[k])
      invariant Blocks(u0) <= Blocks(u) && fresh(Blocks(u) - Blocks(u0))
      invariant nptr != null ==> fresh(nptr) && nptr != item && nptr !in ForestNodes(t.kids)
      invariant h.live == old(h.live) + Blocks(u) && h.failures == old(h.failures)
      decreases |t.kids| - i
    {
      var newchild;
      ghost var v;
      AllAllocated(t);
      NextKid(t, i);
      KidDisjoint(t, i, newitem);
      newchild, v := CopyKid(cptr, newitem, nptr, h, t.kids[i], u);
      if newchild == null {
        return null, u;
      }
      RootBlock(v);
      AppendBlocks(u, v);
      u := With(u, u.kids + [v]);
      NextKid(t, i);
      cptr, nptr, i := cptr.next, newchild, i + 1;
    }
    copy := newitem;
    SameAll(t, u);
  }

  lemma FirstKid(t: Tree)
    requires Holds(t)
    ensures t.node.child == NodeAt(t.kids, 0)
  {
  }

  lemma NextKid(t: Tree, i: nat)
    requires Holds(t) && i < |t.kids|
    ensures t.kids[i].node.next == NodeAt(t.kids, i + 1) && AllHold(t.kids)
  {
  }

  lemma SameAll(t: Tree, u: Tree)
    requires SameData(t.data, u.data) && |t.kids| == |u.kids|
    requires forall k | 0 <= k < |t.kids| :: Same(t.kids[k], u.kids[k])
    ensures Same(t, u)
  {
  }

  lemma KidDisjoint(t: Tree, i: nat, n: Node)
    requires i < |t.kids| && AllHold(t.kids)
    requires n !in ForestNodes(t.kids)
    ensures Holds(t.kids[i]) && n != t.kids[i].node && n !in ForestNodes(t.kids[i].kids)
    ensures allocated(ForestNodes(t.kids[i].kids))
  {
    NodeOf(t.kids, i);
    assert KidNodes(t.kids) <= ForestNodes(t.kids) && LowerNodes(t.kids) <= ForestNodes(t.kids);
    hide ForestNodes;
    assert forall x | x in ForestNodes(t.kids[i].kids) :: x in LowerNodes(t.kids);
  }
}
