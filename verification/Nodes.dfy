/**
 The `cJSON` nodes on the heap. A `Tree` is a ghost picture of a node and everything below it; `Holds` says that
 the heap agrees with the picture, `Separate` that no two parts of the picture share a block.
 */
module Nodes {
  import opened Json

  datatype Kind = KFalse | KTrue | KNull | KNumber | KString | KArray | KObject

  /** A string allocated on the heap and written once, before it can be reached from a node. */
  class Chars {
    const text: string

    constructor (s: string)
      ensures text == s
    {
      text := s;
    }
  }

  class Node {
    var next: Node?
    var prev: Node?
    var child: Node?
    var kind: Kind
    var valuestring: Chars?
    var valueint: int
    var valuedouble: real
    var name: Chars?

    /** A node as `memset` leaves it. */
    constructor ()
      ensures next == null && prev == null && child == null && GetData() == Data(KFalse, null, 0, 0.0, null)
    {
      next, prev, child := null, null, null;
      kind, valuestring, valueint, valuedouble, name := KFalse, null, 0, 0.0, null;
    }

    ghost function GetData(): Data
      reads `kind, `valuestring, `valueint, `valuedouble, `name
    {
      Data(kind, valuestring, valueint, valuedouble, name)
    }

    ghost predicate Alone()
      reads this
    {
      next == null && prev == null
    }
  }

  /**
   The allocator. `live` is the set of blocks handed out and not yet freed, and only a live block may be freed, so
   a verified caller frees no block twice. Any allocation may fail; `failures` counts those that do.
   */
  class Heap {
    ghost var live: set<object>
    ghost var failures: nat

    constructor ()
      ensures live == {} && failures == 0
    {
      live, failures := {}, 0;
    }

    method NewItem() returns (n: Node?)
      modifies this
      ensures n == null ==> failures > old(failures) && live == old(live)
      ensures n != null ==> fresh(n) && failures == old(failures) && live == old(live) + {n}
      ensures n != null ==> n.Alone() && n.child == null && n.GetData() == Data(KFalse, null, 0, 0.0, null)
    {
      var ok: bool := *;
      if ok {
        n := new Node();
        live := live + {n};
      } else {
        n := null;
        failures := failures + 1;
      }
    }

    method StrDup(s: string) returns (c: Chars?)
      modifies this
      ensures c == null ==> failures > old(failures) && live == old(live)
      ensures c != null ==> fresh(c) && c.text == s && failures == old(failures) && live == old(live) + {c}
    {
      var ok: bool := *;
      if ok {
        c := new Chars(s);
        live := live + {c};
      } else {
        c := null;
        failures := failures + 1;
      }
    }

    /** A buffer for `n` bytes; its contents are arbitrary. */
    method Malloc(n: nat) returns (a: array?<char>)
      modifies this
      ensures a == null ==> failures > old(failures) && live == old(live)
      ensures a != null ==> fresh(a) && a.Length == n && failures == old(failures) && live == old(live) + {a}
    {
      var ok: bool := *;
      if ok {
        a := new char[n];
        live := live + {a};
      } else {
        a := null;
        failures := failures + 1;
      }
    }

    /** A table of `n` pointers; its contents are arbitrary. */
    method MallocTable(n: nat) returns (a: array?<array?<char>>)
      modifies this
      ensures a == null ==> failures > old(failures) && live == old(live)
      ensures a != null ==> fresh(a) && a.Length == n && failures == old(failures) && live == old(live) + {a}
    {
      var ok: bool := *;
      if ok {
        a := new array?<char>[n];
        live := live + {a};
      } else {
        a := null;
        failures := failures + 1;
      }
    }

    /** An allocation that cannot succeed. */
    method Refuse()
      modifies this
      ensures live == old(live) && failures > old(failures)
    {
      failures := failures + 1;
    }

    /** A buffer that is written and from now on only read: the same block, seen as the text in front of its NUL. */
    method Seal(a: array<char>, n: nat) returns (c: Chars)
      requires a in live && n < a.Length && a[n] == '\0'
      modifies this
      ensures fresh(c) && c.text == a[..n] && live == old(live) - {a} + {c} && failures == old(failures)
    {
      c := new Chars(a[..n]);
      live := live - {a} + {c};
    }

    method Free(o: object)
      requires o in live
      modifies this
      ensures live == old(live) - {o} && failures == old(failures)
    {
      live := live - {o};
    }
  }

  // ---------- pictures of trees ----------

  datatype Data = Data(kind: Kind, str: Chars?, whole: int, num: real, name: Chars?)

  datatype Tree = Tree(node: Node, data: Data, kids: seq<Tree>)

  ghost function KidNodes(f: seq<Tree>): set<Node> {
    set k | 0 <= k < |f| :: f[k].node
  }

  /** The nodes strictly below the roots of `f`. */
  ghost function LowerNodes(f: seq<Tree>): set<Node>
    decreases f, 0
  {
    set k: nat, x | k < |f| && x in ForestNodes(f[k].kids) :: x
  }

  ghost function ForestNodes(f: seq<Tree>): set<Node>
    decreases f, 1
  {
    KidNodes(f) + LowerNodes(f)
  }

  ghost function DataBlocks(d: Data): set<object> {
    (if d.str == null then {} else {d.str}) + (if d.name == null then {} else {d.name})
  }

  ghost function Blocks(t: Tree): set<object>
    decreases t
  {
    {t.node} + DataBlocks(t.data) + ForestBlocks(t.kids)
  }

  ghost function ForestBlocks(f: seq<Tree>): set<object>
    decreases f
  {
    set k: nat, x | k < |f| && x in Blocks(f[k]) :: x
  }

  lemma BlocksInside(f: seq<Tree>, k: nat)
    requires k < |f|
    ensures Blocks(f[k]) <= ForestBlocks(f)
  {
    hide Blocks;
  }

  lemma Owner(f: seq<Tree>, b: object) returns (k: nat)
    requires b in ForestBlocks(f)
    ensures k < |f| && b in Blocks(f[k])
  {
    hide Blocks;
    k :| k < |f| && b in Blocks(f[k]);
  }

  lemma ForestBlocksAppend(f: seq<Tree>, x: Tree)
    ensures ForestBlocks(f + [x]) == ForestBlocks(f) + Blocks(x)
  {
    hide Blocks, ForestBlocks;
    var g := f + [x];
    forall b | b in ForestBlocks(g)
      ensures b in ForestBlocks(f) + Blocks(x)
    {
      var k := Owner(g, b);
      if k < |f| {
        BlocksInside(f, k);
      }
    }
    forall b | b in ForestBlocks(f)
      ensures b in ForestBlocks(g)
    {
      var k := Owner(f, b);
      BlocksInside(g, k);
    }
    BlocksInside(g, |f|);
  }

  /** No block occurs twice. */
  ghost predicate Separate(t: Tree)
    decreases t
  {
    && (t.data.str != null ==> t.data.str != t.data.name)
    && ({t.node} + DataBlocks(t.data)) !! ForestBlocks(t.kids)
    && SeparateForest(t.kids)
  }

  ghost predicate SeparateForest(f: seq<Tree>)
    decreases f
  {
    && (forall k | 0 <= k < |f| :: Separate(f[k]))
    && (forall j, k | 0 <= j < k < |f| :: Blocks(f[j]) !! Blocks(f[k]))
  }

  ghost function Head(f: seq<Tree>): Node? {
    if f == [] then null else f[0].node
  }

  ghost function NodeAt(f: seq<Tree>, k: int): Node? {
    if 0 <= k < |f| then f[k].node else null
  }

  /** The heap is as the picture says; the root's own `next` and `prev` are not part of it. */
  ghost predicate Holds(t: Tree)
    reads t.node`kind, t.node`valuestring, t.node`valueint, t.node`valuedouble, t.node`name, t.node`child
    reads ForestNodes(t.kids)
    decreases t
  {
    && t.node.GetData() == t.data
    && t.node.child == Head(t.kids)
    && Linked(t.kids)
    && AllHold(t.kids)
  }

  /** Siblings: `next` and `prev` are inverse, and NULL at the ends. */
  ghost predicate Linked(f: seq<Tree>)
    reads KidNodes(f)`next, KidNodes(f)`prev
  {
    NextLinked(f) && PrevLinked(f)
  }

  ghost predicate NextLinked(f: seq<Tree>)
    reads KidNodes(f)`next
  {
    forall k {:trigger f[k].node.next} | 0 <= k < |f| :: f[k].node.next == NodeAt(f, k + 1)
  }

  ghost predicate PrevLinked(f: seq<Tree>)
    reads KidNodes(f)`prev
  {
    forall k {:trigger f[k].node.prev} | 0 <= k < |f| :: f[k].node.prev == NodeAt(f, k - 1)
  }

  ghost predicate AllHold(f: seq<Tree>)
    reads KidNodes(f)`kind, KidNodes(f)`valuestring, KidNodes(f)`valueint, KidNodes(f)`valuedouble
    reads KidNodes(f)`name, KidNodes(f)`child
    reads LowerNodes(f)
    decreases f
  {
    forall k | 0 <= k < |f| :: Holds(f[k])
  }

  /** A tree of its own. */
  ghost predicate Root(t: Tree)
    reads t.node, ForestNodes(t.kids)
  {
    Holds(t) && Separate(t) && t.node.Alone()
  }

  lemma {:induction false} ForestNodesAreBlocks(f: seq<Tree>)
    ensures forall x | x in KidNodes(f) :: x in ForestBlocks(f)
    ensures forall x | x in LowerNodes(f) :: x in ForestBlocks(f)
    ensures forall x | x in ForestNodes(f) :: x in ForestBlocks(f)
    decreases f
  {
    forall x | x in KidNodes(f)
      ensures x in ForestBlocks(f)
    {
      var k: nat :| k < |f| && x == f[k].node;
      assert x in Blocks(f[k]);
    }
    forall x | x in LowerNodes(f)
      ensures x in ForestBlocks(f)
    {
      var k: nat :| k < |f| && x in ForestNodes(f[k].kids);
      ForestNodesAreBlocks(f[k].kids);
      assert x in Blocks(f[k]);
    }
  }

  // ---------- the value of a tree ----------

  ghost function Value(t: Tree): Json
    decreases t
  {
    match t.data.kind
    case KFalse => False
    case KTrue => True
    case KNull => Null
    case KNumber => Num(t.data.num)
    case KString => Str(TextOf(t.data.str))
    case KArray => Arr(Values(t.kids))
    case KObject => Obj(Members(t.kids))
  }

  ghost function TextOf(c: Chars?): string {
    if c == null then "" else c.text
  }

  ghost function Values(f: seq<Tree>): (vs: seq<Json>)
    ensures |vs| == |f| && forall k | 0 <= k < |f| :: vs[k] == Value(f[k])
    decreases f
  {
    seq(|f|, k requires 0 <= k < |f| => Value(f[k]))
  }

  ghost function Members(f: seq<Tree>): (ms: seq<Member>)
    ensures |ms| == |f| && forall k | 0 <= k < |f| :: ms[k] == Member(TextOf(f[k].data.name), Value(f[k]))
    decreases f
  {
    seq(|f|, k requires 0 <= k < |f| => Member(TextOf(f[k].data.name), Value(f[k])))
  }
}
