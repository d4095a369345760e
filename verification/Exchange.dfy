/** The operations one after another on the heap: what a text or a tree is after going there and back. */
module Exchange {
  import opened Options
  import opened CText
  import opened Json
  import opened Parser
  import opened RoundTrip
  import opened Nodes
  import opened Deletion
  import opened Edits
  import opened Duplicate
  import opened PrintText
  import opened PrintBuffer
  import opened BufferPrinter
  import opened Tables
  import opened Printer
  import opened HeapParser
  import Minify
  import MinifyText

  lemma TextFree(t: Tree, fmt: bool)
    requires Ready(t)
    ensures Printable(Value(t)) && NulFree(Render(Value(t), 0, fmt))
  {
    ReadyPrintable(t);
    RenderNulFree(Value(t), 0, fmt);
  }

  /**
   `cJSON_PrintBuffered` and the plain printers, one after the other: with memory for both, the two blocks hold the
   same bytes up to and including the NUL, whatever the first size of the buffer.
   */
  method PrintBothWays(item: Node, prebuffer: nat, fmt: bool, h: Heap, ghost t: Tree)
    returns (a: array?<char>, b: array?<char>)
    requires t.node == item && Holds(t) && Ready(t)
    modifies h
    ensures a != null && b != null ==>
      var n := |Render(Value(t), 0, fmt)|;
      n < a.Length && n < b.Length && a[..n + 1] == b[..n + 1] && NulFree(a[..n]) && a[n] == '\0'
    ensures h.live == old(h.live) + Block(a) + Block(b)
    ensures a == null || b == null ==> h.failures > old(h.failures)
  {
    hide Render, Value, Ready;
    AllAllocated(t);
    TextFree(t, fmt);
    a := PrintBuffered(item, prebuffer, fmt, h, t);
    AllAllocated(t);
    b := PrintValue(item, 0, fmt, h, t);
    if a != null && b != null {
      SameBytes(a, b, Render(Value(t), 0, fmt));
    }
  }

  lemma SameBytes(a: array<char>, b: array<char>, s: string)
    requires TextAt(a, 0, s) && TextAt(b, 0, s)
    ensures a[..|s| + 1] == b[..|s| + 1] && a[..|s|] == s
  {
    assert a[..|s| + 1] == a[0..0 + |s|] + [a[|s|]];
    assert b[..|s| + 1] == b[0..0 + |s|] + [b[|s|]];
    assert a[..|s|] == a[0..0 + |s|];
  }

  /** `cJSON_Print` and then `cJSON_Minify` in its block: the text of `cJSON_PrintUnformatted`. */
  method PrintMinified(item: Node, h: Heap, ghost t: Tree) returns (out: array?<char>)
    requires t.node == item && Holds(t) && Ready(t)
    modifies h
    ensures fresh(Block(out))
    ensures Made(out, Render(Value(t), 0, false), h.live, old(h.live), h.failures, old(h.failures))
  {
    hide Render, Value, Ready, Minify.Minified;
    TextFree(t, true);
    AllAllocated(t);
    out := PrintValue(item, 0, true, h, t);
    if out != null {
      ghost var s := Render(Value(t), 0, true);
      var n := StrLen(out, s);
      assert out[..n] == out[0..0 + |s|];
      MinifyText.MinifyIsUnformatting(Value(t));
      var ok, k := Minify.MinifyInPlace(out, n);
      assert out[0..0 + k] == out[..k];
    }
  }

  /**
   A tree printed and parsed again: the new tree has the same value. Without memory there is no new tree, and either
   way the text is gone.
   */
  method Reparse(item: Node, fmt: bool, h: Heap, ghost t: Tree) returns (copy: Node?, ghost o: Option<Tree>)
    requires t.node == item && Holds(t) && Ready(t)
    modifies h
    ensures copy == null ==> h.failures > old(h.failures) && h.live == old(h.live)
    ensures copy != null ==>
      && o.Some? && o.value.node == copy && Root(o.value) && fresh(Blocks(o.value)) && Value(o.value) == Value(t)
      && Typed(o.value) && h.live == old(h.live) + Blocks(o.value) && h.failures == old(h.failures)
  {
    hide Render, Value, Ready, Typed, Blocks, ForestNodes, LowerNodes, KidNodes, Separate, Holds, ParseText;
    TextFree(t, fmt);
    PrintParseText(Value(t), fmt, true);
    copy, o := null, None;
    var out := PrintValue(item, 0, fmt, h, t);
    if out == null {
      return;
    }
    ghost var s := Render(Value(t), 0, fmt);
    var n := StrLen(out, s);
    assert out[..n] == out[0..0 + |s|];
    var c;
    copy, c, o := ParseWithOpts(out[..n], true, h);
    if copy != null {
      AllAllocated(o.value);
    }
    h.Free(out);
  }

  // ---------- copies ----------

  lemma {:induction false} SameReady(t: Tree, u: Tree)
    requires Same(t, u) && Ready(t)
    ensures Ready(u)
    decreases t
  {
    forall k | 0 <= k < |u.kids|
      ensures Ready(u.kids[k])
      ensures t.data.kind == KObject ==> u.kids[k].data.name != null && NulFree(u.kids[k].data.name.text)
    {
      assert Same(t.kids[k], u.kids[k]) && Ready(t.kids[k]);
      SameReady(t.kids[k], u.kids[k]);
    }
  }

  /** Trees without a common block have no common node, so that nothing done to one shows in the other. */
  lemma NodesApart(t: Tree, u: Tree)
    requires Blocks(t) !! Blocks(u)
    ensures ({t.node} + ForestNodes(t.kids)) !! ({u.node} + ForestNodes(u.kids))
  {
    hide Blocks, ForestNodes;
    OwnBlocks(t);
    OwnBlocks(u);
    ForestNodesAreBlocks(t.kids);
    ForestNodesAreBlocks(u.kids);
    RootBlock(t);
    RootBlock(u);
    assert forall x | x in {t.node} + ForestNodes(t.kids) :: x in Blocks(t);
    assert forall x | x in {u.node} + ForestNodes(u.kids) :: x in Blocks(u);
  }

  /** `cJSON_Duplicate`, then the original is deleted: the copy still prints what the original would have printed. */
  method CopyOutlives(item: Node, fmt: bool, h: Heap, ghost t: Tree) returns (out: array?<char>, ghost o: Option<Tree>)
    requires t.node == item && Root(t) && Ready(t) && Blocks(t) <= h.live
    modifies h
    ensures out != null ==>
      && o.Some? && Root(o.value) && fresh(out) && TextAt(out, 0, Render(Value(t), 0, fmt))
      && h.live == old(h.live) - Blocks(t) + Blocks(o.value) + {out} && h.failures == old(h.failures)
    ensures out == null ==> h.failures > old(h.failures)
  {
    hide Render, Value, Ready, Same, Blocks, ForestNodes, LowerNodes, KidNodes, Separate, Holds, TextAt;
    AllAllocated(t);
    assert allocated(Blocks(t));
    var copy;
    ghost var u;
    copy, u := Duplicate.Duplicate(item, true, h, t);
    out, o := null, Some(u);
    if copy == null {
      return;
    }
    SameValue(t, u);
    SameReady(t, u);
    AllAllocated(t);
    AllAllocated(u);
    Delete(item, h, t);
    AllAllocated(u);
    out := PrintValue(copy, 0, fmt, h, u);
    AllAllocated(u);
  }

  // ---------- parsed trees ----------

  /** A parsed tree of a printable value can be printed. */
  lemma {:induction false} TypedReady(t: Tree)
    requires Typed(t) && Printable(Value(t))
    ensures Ready(t)
    decreases t
  {
    KidsPrintable(t);
    forall k | 0 <= k < |t.kids|
      ensures Ready(t.kids[k])
    {
      TypedReady(t.kids[k]);
    }
    hide Value;
    DataReady(t);
  }

  lemma KidsPrintable(t: Tree)
    requires Typed(t) && Printable(Value(t))
    ensures forall k | 0 <= k < |t.kids| :: Printable(Value(t.kids[k])) && Typed(t.kids[k])
    ensures t.data.kind == KObject ==> Named(t.kids)
  {
    if t.data.kind == KArray {
      ItemsPrintable(Values(t.kids));
      assert forall k | 0 <= k < |t.kids| :: Values(t.kids)[k] == Value(t.kids[k]);
    }
    if t.data.kind == KObject {
      MembersPrintable(Members(t.kids));
      assert forall k | 0 <= k < |t.kids| :: Members(t.kids)[k] == Member(TextOf(t.kids[k].data.name), Value(t.kids[k]));
    }
  }

  lemma DataReady(t: Tree)
    requires Typed(t) && Printable(Value(t))
    ensures t.data.kind == KNumber ==> t.data.num == t.data.whole as real && -0x8000_0000 <= t.data.whole < 0x8000_0000
    ensures t.data.kind == KString ==> t.data.str != null && NulFree(t.data.str.text)
  {
  }

  lemma {:induction false} ItemsPrintable(vs: seq<Json>)
    requires PrintableItems(vs)
    ensures forall k | 0 <= k < |vs| :: Printable(vs[k])
  {
    if vs != [] {
      ItemsPrintable(vs[1..]);
      assert forall k | 1 <= k < |vs| :: vs[k] == vs[1..][k - 1];
    }
  }

  lemma {:induction false} MembersPrintable(ms: seq<Member>)
    requires PrintableMembers(ms)
    ensures forall k | 0 <= k < |ms| :: PrintableMember(ms[k])
  {
    if ms != [] {
      MembersPrintable(ms[1..]);
      assert forall k | 1 <= k < |ms| :: ms[k] == ms[1..][k - 1];
    }
  }

  /**
   A text parsed and printed: whatever its white space and escapes, the result is the one text that `Render` gives
   its value. The parsed tree is deleted, so that the result is all that stays allocated.
   */
  method Reformat(s: string, fmt: bool, h: Heap) returns (out: array?<char>)
    requires match ParseText(s, true) case Parsed(v, _) => Printable(v) case _ => true
    modifies h
    ensures out != null ==>
      && ParseText(s, true).Parsed? && fresh(out) && TextAt(out, 0, Render(ParseText(s, true).value, 0, fmt))
      && h.live == old(h.live) + {out} && h.failures == old(h.failures)
    ensures out == null && ParseText(s, true) != Undefined ==>
      h.live == old(h.live) && (h.failures > old(h.failures) || ParseText(s, true) == Rejected)
  {
    hide Render, Value, Ready, Typed, Blocks, ForestNodes, LowerNodes, KidNodes, Separate, Holds, ParseText, Printable;
    var root, c;
    ghost var o;
    root, c, o := ParseWithOpts(s, true, h);
    out := null;
    if root == null {
      return;
    }
    ghost var t := o.value;
    TypedReady(t);
    AllAllocated(t);
    assert allocated(Blocks(t));
    out := PrintValue(root, 0, fmt, h, t);
    AllAllocated(t);
    Delete(root, h, t);
  }
}
