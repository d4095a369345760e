/** `cJSON_Delete`: every block of a tree is freed, once. */
module Deletion {
  import opened Nodes

  /** The blocks of the first `i` trees. */
  ghost function BlocksBefore(f: seq<Tree>, i: nat): set<object>
    requires i <= |f|
  {
    ForestBlocks(f[..i])
  }

  lemma BlocksStep(f: seq<Tree>, i: nat)
    requires i < |f|
    ensures BlocksBefore(f, i + 1) == BlocksBefore(f, i) + Blocks(f[i])
    ensures SeparateForest(f) ==> BlocksBefore(f, i) !! Blocks(f[i])
    ensures Blocks(f[i]) <= ForestBlocks(f)
  {
    hide Blocks, Separate, ForestBlocks;
    assert f[..i + 1] == f[..i] + [f[i]];
    ForestBlocksAppend(f[..i], f[i]);
    BlocksInside(f, i);
    forall b | b in BlocksBefore(f, i) && SeparateForest(f)
      ensures b !in Blocks(f[i])
    {
      var k := Owner(f[..i], b);
    }
  }

  lemma AllBlocks(f: seq<Tree>)
    ensures BlocksBefore(f, |f|) == ForestBlocks(f) && BlocksBefore(f, 0) == {}
  {
    assert f[..|f|] == f;
  }

  /** The node and its own strings, after its children are gone. */
  method FreeNode(c: Node, h: Heap, ghost t: Tree)
    requires c == t.node && c.GetData() == t.data && Separate(t)
    requires {t.node} + DataBlocks(t.data) <= h.live
    modifies h
    ensures h.live == old(h.live) - ({t.node} + DataBlocks(t.data)) && h.failures == old(h.failures)
  {
    var str, name := c.valuestring, c.name;
    if str != null {
      h.Free(str);
    }
    if name != null {
      h.Free(name);
    }
    h.Free(c);
  }

  /**
   `cJSON_Delete` on a chain of siblings: all of their blocks leave the live set and nothing else does. As only a
   live block may be freed, none is freed twice.
   */
  method DeleteChain(first: Node?, h: Heap, ghost f: seq<Tree>)
    requires first == Head(f) && Linked(f) && AllHold(f) && SeparateForest(f)
    requires ForestBlocks(f) <= h.live
    modifies h
    ensures h.live == old(h.live) - ForestBlocks(f) && h.failures == old(h.failures)
    decreases f
  {
    hide ForestBlocks, Blocks, AllHold, LowerNodes, KidNodes, SeparateForest, BlocksBefore;
    var c := first;
    ghost var i: nat := 0;
    AllBlocks(f);
    assert allocated(LowerNodes(f)) && allocated(KidNodes(f));
    while c != null
      invariant i <= |f| && c == NodeAt(f, i) && Linked(f) && AllHold(f)
      invariant h.live == old(h.live) - BlocksBefore(f, i) && h.failures == old(h.failures)
      decreases |f| - i
    {
      var next := c.next;
      BlocksStep(f, i);
      DeleteOne(c, h, f, i);
      c, i := next, i + 1;
    }
  }

  method DeleteOne(c: Node, h: Heap, ghost f: seq<Tree>, ghost i: nat)
    requires i < |f| && c == f[i].node && AllHold(f) && SeparateForest(f)
    requires Blocks(f[i]) <= h.live
    modifies h
    ensures h.live == old(h.live) - Blocks(f[i]) && h.failures == old(h.failures)
    decreases f, 0
  {
    ghost var t := f[i];
    if c.child != null {
      DeleteChain(c.child, h, t.kids);
    }
    FreeNode(c, h, t);
  }

  lemma SingleBlocks(t: Tree)
    ensures ForestBlocks([t]) == Blocks(t)
  {
    hide Blocks;
    var f := [t];
    assert forall b | b in Blocks(t) :: b in Blocks(f[0]);
  }

  /** `cJSON_Delete` on a tree of its own. */
  method Delete(c: Node?, h: Heap, ghost t: Tree)
    requires c != null ==> c == t.node && Root(t) && Blocks(t) <= h.live
    modifies h
    ensures h.live == (if c == null then old(h.live) else old(h.live) - Blocks(t)) && h.failures == old(h.failures)
  {
    if c != null {
      ghost var f := [t];
      SingleBlocks(t);
      assert KidNodes(f) == {t.node};
      DeleteChain(c, h, f);
    }
  }
}
