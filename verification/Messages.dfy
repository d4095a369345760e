/** Building an object by adding one member after another. */
module Messages {
  import opened CText
  import opened Json
  import opened Nodes
  import opened Edits
  import opened Duplicate
  import opened HeapText
  import opened Lookup
  import opened PrintText

  /** The picture of a node without children. */
  ghost function Bare(n: Node, d: Data): Tree {
    Tree(n, d, [])
  }

  method CreateObject(h: Heap) returns (n: Node?)
    modifies h
    ensures n == null ==> h.failures > old(h.failures) && h.live == old(h.live)
    ensures n != null ==>
      var t := Bare(n, Data(KObject, null, 0, 0.0, null));
      && Root(t) && Blocks(t) == {n} && fresh(n) && h.live == old(h.live) + {n} && h.failures == old(h.failures)
  {
    n := h.NewItem();
    if n != null {
      n.kind := KObject;
      BareRoot(n);
    }
  }

  /** A string item of its own; there may be memory for the item and none for its string. */
  method CreateString(s: string, h: Heap) returns (item: Node?)
    modifies h
    ensures item == null ==> h.live == old(h.live)
    ensures item != null ==>
      var x := Bare(item, item.GetData());
      && x.data.kind == KString && x.data.name == null && (x.data.str != null ==> x.data.str.text == s)
      && Root(x) && fresh(item) && fresh(Blocks(x)) && h.live == old(h.live) + Blocks(x)
    ensures if item != null && item.valuestring != null then h.failures == old(h.failures)
            else h.failures > old(h.failures)
  {
    item := h.NewItem();
    if item != null {
      item.kind := KString;
      item.valuestring := h.StrDup(s);
      BareRoot(item);
    }
  }

  /** A number item of its own, with the number and its truncation. */
  method CreateNumber(num: real, h: Heap) returns (item: Node?)
    modifies h
    ensures item == null ==> h.failures > old(h.failures) && h.live == old(h.live)
    ensures item != null ==>
      var x := Bare(item, item.GetData());
      && x.data == Data(KNumber, null, Truncate(num), num, null)
      && Root(x) && fresh(item) && fresh(Blocks(x)) && h.live == old(h.live) + Blocks(x)
      && h.failures == old(h.failures)
  {
    item := h.NewItem();
    if item != null {
      item.kind := KNumber;
      item.valuedouble := num;
      item.valueint := Truncate(num);
      BareRoot(item);
    }
  }

  // ---------- names ----------

  ghost function NameBlock(name: Chars?): set<object> {
    if name == null then {} else {name}
  }

  ghost function Renamed(x: Tree, name: Chars?): Tree {
    Tree(x.node, x.data.(name := name), x.kids)
  }

  lemma RenamedBlocks(x: Tree, name: Chars?)
    requires Separate(x)
    ensures NameBlock(x.data.name) <= Blocks(x)
    ensures Blocks(Renamed(x, name)) == Blocks(x) - NameBlock(x.data.name) + NameBlock(name)
  {
  }

  lemma RenamedSeparate(x: Tree, name: Chars?)
    requires Separate(x) && (name != null ==> name !in Blocks(x))
    ensures Separate(Renamed(x, name))
    ensures Blocks(Renamed(x, name)) <= Blocks(x) + NameBlock(name)
  {
  }

  method Rename(item: Node, s: string, h: Heap, ghost x: Tree)
    requires x.node == item && Root(x)
    modifies h, item`name
    ensures Root(Renamed(x, item.name)) && fresh(Blocks(Renamed(x, item.name)) - Blocks(x))
    ensures h.live == old(h.live) + NameBlock(item.name)
    ensures item.name != null ==> fresh(item.name)
    ensures if item.name == null then h.failures > old(h.failures) else item.name.text == s && h.failures == old(h.failures)
  {
    hide Blocks, ForestNodes, LowerNodes, KidNodes, Separate, AllHold, Linked;
    AllAllocated(x);
    assert allocated(Blocks(x));
    Apart(x);
    item.name := h.StrDup(s);
    RenamedSeparate(x, item.name);
    assert AllHold(x.kids) && Linked(x.kids);
  }

  /**
   `cJSON_AddItemToObject`, for any item: a name that it had is freed, it gets the new one, and it becomes the last
   child. Adding NULL does nothing.
   */
  method AddItemToObject(object_: Node, name: string, item: Node?, h: Heap, ghost t: Tree, ghost x: Tree)
    requires t.node == object_ && Root(t)
    requires item != null ==> x.node == item && Root(x) && Blocks(x) !! Blocks(t) && Blocks(x) <= h.live
    modifies h, object_`child, KidNodes(t.kids)`next, KidNodes(t.kids)`prev
    modifies (if item == null then {} else {item})`name, (if item == null then {} else {item})`prev
    ensures item == null ==> Root(t) && h.live == old(h.live) && h.failures == old(h.failures)
    ensures item != null ==>
      && Root(With(t, t.kids + [Renamed(x, item.name)]))
      && h.live == old(h.live) - NameBlock(x.data.name) + NameBlock(item.name)
      && (if item.name == null then h.failures > old(h.failures)
          else item.name.text == name && fresh(item.name) && h.failures == old(h.failures))
  {
    hide Blocks, ForestNodes, LowerNodes, KidNodes, AllHold, Linked, Separate;
    if item == null {
      return;
    }
    AllAllocated(t);
    assert allocated(Blocks(t));
    NodesOwned(t);
    NodesOwned(x);
    Apart(t);
    ItemNamed(item, name, h, x);
    RenamedBlocks(x, item.name);
    AllAllocated(t);
    AllAllocated(Renamed(x, item.name));
    AddItemToArray(object_, item, t, Renamed(x, item.name));
  }

  /** The old name freed and the new one copied. */
  method ItemNamed(item: Node, name: string, h: Heap, ghost x: Tree)
    requires x.node == item && Root(x) && Blocks(x) <= h.live
    modifies h, item`name
    ensures Root(Renamed(x, item.name)) && (item.name != null ==> fresh(item.name))
    ensures h.live == old(h.live) - NameBlock(x.data.name) + NameBlock(item.name)
    ensures if item.name == null then h.failures > old(h.failures)
            else item.name.text == name && h.failures == old(h.failures)
  {
    hide Blocks, ForestNodes, LowerNodes, KidNodes, Separate, AllHold, Linked;
    AllAllocated(x);
    assert allocated(Blocks(x));
    RenamedBlocks(x, null);
    if item.name != null {
      h.Free(item.name);
    }
    AllAllocated(x);
    Rename(item, name, h, x);
  }

  // ---------- replacing by name ----------

  /**
   `cJSON_ReplaceItemInObject`: the first match is deleted, and the new item stands in its place under the name that
   was looked for. A name that the new item had is given up without being freed.
   */
  method ReplaceItemInObject(object_: Node, s: string, newitem: Node, h: Heap, ghost t: Tree, ghost x: Tree)
    requires t.node == object_ && Holds(t) && Separate(t) && Blocks(t) <= h.live
    requires x.node == newitem && Root(x) && Blocks(x) !! Blocks(t)
    modifies h, object_`child, newitem`next, newitem`prev, newitem`name, KidNodes(t.kids)`next, KidNodes(t.kids)`prev
    ensures var i, y := FirstMatch(t.kids, s), Renamed(x, newitem.name);
      if i < |t.kids| then
        && Holds(With(t, t.kids[i := y])) && Separate(With(t, t.kids[i := y]))
        && h.live == old(h.live) - Blocks(t.kids[i]) + NameBlock(newitem.name)
        && (if newitem.name == null then h.failures > old(h.failures) else newitem.name.text == s && h.failures == old(h.failures))
      else Holds(t) && Root(x) && h.live == old(h.live) && h.failures == old(h.failures)
  {
    hide Blocks, ForestNodes, LowerNodes, KidNodes, Separate, AllHold, Linked;
    AllAllocated(t);
    AllAllocated(x);
    assert allocated(Blocks(t)) && allocated(Blocks(x));
    NodesOwned(t);
    NodesOwned(x);
    BlockOfKid(t, FirstMatch(t.kids, s));
    var c, i := Find(object_.child, s, t.kids);
    if c != null {
      Rename(newitem, s, h, x);
      AllAllocated(t);
      ReplaceItemInArray(object_, i, newitem, h, t, Renamed(x, newitem.name));
    }
  }

  lemma NodesOwned(t: Tree)
    ensures t.node in Blocks(t) && forall x | x in ForestNodes(t.kids) :: x in Blocks(t)
    ensures forall x | x in KidNodes(t.kids) :: x in Blocks(t)
    ensures forall x | x in LowerNodes(t.kids) :: x in Blocks(t)
  {
    hide Blocks, ForestNodes;
    RootBlock(t);
    OwnBlocks(t);
    ForestNodesAreBlocks(t.kids);
  }

  lemma BlockOfKid(t: Tree, i: nat)
    ensures i < |t.kids| ==> Blocks(t.kids[i]) <= Blocks(t)
  {
    hide Blocks;
    if i < |t.kids| {
      BlocksInside(t.kids, i);
      OwnBlocks(t);
    }
  }

  // ---------- the object as a list of members ----------

  /** The tree is an object with these members, and can be printed. */
  ghost predicate Says(t: Tree, ms: seq<Member>) {
    t.data.kind == KObject && Members(t.kids) == ms && Ready(t)
  }

  lemma KidReady(t: Tree, k: nat)
    requires Ready(t) && t.data.kind == KObject && k < |t.kids|
    ensures Ready(t.kids[k]) && t.kids[k].data.name != null && NulFree(t.kids[k].data.name.text)
  {
  }

  lemma SaysMore(t: Tree, x: Tree, ms: seq<Member>)
    requires Says(t, ms) && Ready(x) && x.data.name != null && NulFree(x.data.name.text)
    ensures Says(With(t, t.kids + [x]), ms + [Member(x.data.name.text, Value(x))])
  {
    var g := t.kids + [x];
    forall k | 0 <= k < |g|
      ensures Ready(g[k]) && g[k].data.name != null && NulFree(g[k].data.name.text)
    {
      if k < |t.kids| {
        KidReady(t, k);
        assert g[k] == t.kids[k];
      }
    }
    assert Members(g) == Members(t.kids) + [Member(x.data.name.text, Value(x))];
  }

  lemma OneMoreKid(f: seq<Tree>, x: Tree)
    ensures KidNodes(f + [x]) == KidNodes(f) + {x.node}
  {
    var g := f + [x];
    assert g[|f|] == x && forall k | 0 <= k < |f| :: g[k] == f[k];
    forall n | n in KidNodes(f)
      ensures n in KidNodes(g)
    {
      var k :| 0 <= k < |f| && f[k].node == n;
      assert g[k].node == n;
    }
    assert x.node in KidNodes(g) by {
      assert g[|f|].node == x.node;
    }
  }

  /** What became of a member: it is there, it was left out, or it is there without its name or its string. */
  datatype Adding = Added | LeftOut | Broken

  /** What adding a member does to the picture of an object, whether or not there was memory for all of it. */
  ghost predicate Wider(t: Tree, u: Tree) {
    u.node == t.node && u.data == t.data && Blocks(t) <= Blocks(u)
  }

  /** `cJSON_AddStringToObject`. */
  method AddString(object_: Node, name: string, s: string, h: Heap, ghost t: Tree) returns (r: Adding, ghost u: Tree)
    requires t.node == object_ && Root(t) && Blocks(t) <= h.live && NulFree(name) && NulFree(s)
    modifies h, object_`child, KidNodes(t.kids)`next, KidNodes(t.kids)`prev
    ensures Root(u) && Wider(t, u) && fresh(Blocks(u) - Blocks(t)) && h.live == old(h.live) + Blocks(u)
    ensures forall n | n in KidNodes(u.kids) :: n in KidNodes(t.kids) || fresh(n)
    ensures r == LeftOut ==> u == t
    ensures r == Added ==> forall ms | Says(t, ms) :: Says(u, ms + [Member(name, Str(s))])
    ensures if r == Added then h.failures == old(h.failures) else h.failures > old(h.failures)
  {
    hide Blocks, ForestNodes, LowerNodes, KidNodes, AllHold, Linked, Separate, Says;
    AllAllocated(t);
    assert allocated(Blocks(t));
    u, r := t, LeftOut;
    var item := CreateString(s, h);
    if item == null {
      return;
    }
    ghost var x := Bare(item, item.GetData());
    AllAllocated(t);
    AddItemToObject(object_, name, item, h, t, x);
    u := AfterAdding(t, x, item.name);
    r := if item.name != null && item.valuestring != null then Added else Broken;
    if r == Added {
      SaysAnyMore(t, Renamed(x, item.name));
    }
  }

  /** `cJSON_AddNumberToObject`. */
  method AddNumber(object_: Node, name: string, num: real, h: Heap, ghost t: Tree) returns (r: Adding, ghost u: Tree)
    requires t.node == object_ && Root(t) && Blocks(t) <= h.live && NulFree(name)
    modifies h, object_`child, KidNodes(t.kids)`next, KidNodes(t.kids)`prev
    ensures Root(u) && Wider(t, u) && fresh(Blocks(u) - Blocks(t)) && h.live == old(h.live) + Blocks(u)
    ensures forall n | n in KidNodes(u.kids) :: n in KidNodes(t.kids) || fresh(n)
    ensures r == LeftOut ==> u == t
    ensures r == Added ==> Members(u.kids) == Members(t.kids) + [Member(name, Num(num))]
    ensures r == Added && Int32(num) ==> forall ms | Says(t, ms) :: Says(u, ms + [Member(name, Num(num))])
    ensures if r == Added then h.failures == old(h.failures) else h.failures > old(h.failures)
  {
    hide Blocks, ForestNodes, LowerNodes, KidNodes, AllHold, Linked, Separate, Says;
    AllAllocated(t);
    assert allocated(Blocks(t));
    u, r := t, LeftOut;
    var item := CreateNumber(num, h);
    if item == null {
      return;
    }
    ghost var x := Bare(item, item.GetData());
    AllAllocated(t);
    AddItemToObject(object_, name, item, h, t, x);
    u := AfterAdding(t, x, item.name);
    r := if item.name != null then Added else Broken;
    if r == Added {
      MembersMore(t, Renamed(x, item.name));
      if Int32(num) {
        TruncateWhole(num.Floor);
        SaysAnyMore(t, Renamed(x, item.name));
      }
    }
  }

  /** The picture of an object after adding an item that had no name. */
  lemma AfterAdding(t: Tree, x: Tree, name: Chars?) returns (u: Tree)
    requires x.kids == [] && x.data.name == null && Separate(x)
    ensures u == With(t, t.kids + [Renamed(x, name)]) && Blocks(u) == Blocks(t) + (Blocks(x) + NameBlock(name))
    ensures KidNodes(u.kids) == KidNodes(t.kids) + {x.node}
  {
    hide Blocks, KidNodes, Separate;
    u := With(t, t.kids + [Renamed(x, name)]);
    RenamedBlocks(x, name);
    AppendBlocks(t, Renamed(x, name));
    OneMoreKid(t.kids, Renamed(x, name));
  }

  lemma MembersMore(t: Tree, x: Tree)
    requires x.data.name != null
    ensures Members(t.kids + [x]) == Members(t.kids) + [Member(x.data.name.text, Value(x))]
  {
    hide Value;
    var g := t.kids + [x];
    assert forall k | 0 <= k < |t.kids| :: g[k] == t.kids[k];
  }

  lemma SaysAnyMore(t: Tree, x: Tree)
    requires Ready(x) && x.data.name != null && NulFree(x.data.name.text)
    ensures forall ms | Says(t, ms) :: Says(With(t, t.kids + [x]), ms + [Member(x.data.name.text, Value(x))])
  {
    forall ms | Says(t, ms)
      ensures Says(With(t, t.kids + [x]), ms + [Member(x.data.name.text, Value(x))])
    {
      SaysMore(t, x, ms);
    }
  }
}
