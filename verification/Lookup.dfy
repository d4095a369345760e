/** Finding, adding, detaching, deleting and replacing the children of an object by name. */
module Lookup {
  import opened CText
  import opened Nodes
  import opened Deletion
  import opened Edits

  /** `tolower` in the C locale. */
  function Lower(c: char): char {
    if 'A' <= c <= 'Z' then (c as int + 32) as char else c
  }

  /** What a C comparison without regard to case sees of a text: everything before the first NUL. */
  function Folded(s: string): string {
    if s == "" || s[0] == '\0' then "" else [Lower(s[0])] + Folded(s[1..])
  }

  /** The same character, or the two cases of one letter. */
  ghost predicate SameLetter(c: char, d: char) {
    c == d || CapitalOf(c, d) || CapitalOf(d, c)
  }

  ghost predicate CapitalOf(c: char, d: char) {
    'A' <= c <= 'Z' && 'a' <= d <= 'z' && c as int - 'A' as int == d as int - 'a' as int
  }

  lemma LowerAlike(c: char, d: char)
    ensures Lower(c) == Lower(d) <==> SameLetter(c, d)
  {
  }

  /** No place where two texts differ other than in case, up to the first end of one of them. */
  ghost predicate EqualUpToCase(s: string, t: string) {
    forall i: nat | GoesOn(s, t, i) :: SameLetter(At(s, i), At(t, i))
  }

  ghost predicate GoesOn(s: string, t: string, i: nat) {
    forall j: nat | j < i :: At(s, j) != '\0' && At(t, j) != '\0'
  }

  /** Texts that fold to the same are texts that are equal up to case. */
  lemma {:induction false} FoldedAlike(s: string, t: string)
    ensures Folded(s) == Folded(t) <==> EqualUpToCase(s, t)
    decreases |s|
  {
    hide Lower, SameLetter, CapitalOf;
    FoldedHeads(s, t);
    var c, d := At(s, 0), At(t, 0);
    assert GoesOn(s, t, 0);
    if c != '\0' && d != '\0' {
      FoldedAlike(s[1..], t[1..]);
      forall i: nat
        ensures GoesOn(s, t, i + 1) <==> GoesOn(s[1..], t[1..], i)
        ensures At(s, i + 1) == At(s[1..], i) && At(t, i + 1) == At(t[1..], i)
      {
        GoesOnLater(s, t, i);
      }
      EqualLater(s, t);
    } else {
      EndsAtOnce(s, t);
    }
  }

  lemma EndsAtOnce(s: string, t: string)
    requires At(s, 0) == '\0' || At(t, 0) == '\0'
    ensures EqualUpToCase(s, t) <==> At(s, 0) == At(t, 0)
  {
    AlikeNul(At(s, 0), At(t, 0));
    hide SameLetter;
    assert GoesOn(s, t, 0);
    assert forall i: nat | i > 0 :: !GoesOn(s, t, i);
  }

  lemma FoldedHeads(s: string, t: string)
    ensures var c, d := At(s, 0), At(t, 0);
      Folded(s) == Folded(t)
      <==> if c == '\0' || d == '\0' then c == d == '\0' else SameLetter(c, d) && Folded(s[1..]) == Folded(t[1..])
  {
    hide SameLetter, Lower;
    if At(s, 0) != '\0' && At(t, 0) != '\0' {
      LowerAlike(s[0], t[0]);
      SameHead(Lower(s[0]), Folded(s[1..]), Lower(t[0]), Folded(t[1..]));
    }
  }

  lemma GoesOnLater(s: string, t: string, i: nat)
    requires At(s, 0) != '\0' && At(t, 0) != '\0'
    ensures GoesOn(s, t, i + 1) <==> GoesOn(s[1..], t[1..], i)
    ensures At(s, i + 1) == At(s[1..], i) && At(t, i + 1) == At(t[1..], i)
  {
    assert forall j: nat :: At(s[1..], j) == At(s, j + 1) && At(t[1..], j) == At(t, j + 1);
    if GoesOn(s[1..], t[1..], i) {
      forall j: nat | j < i + 1
        ensures At(s, j) != '\0' && At(t, j) != '\0'
      {
        assert j > 0 ==> At(s[1..], j - 1) == At(s, j);
      }
    }
  }

  lemma EqualLater(s: string, t: string)
    requires At(s, 0) != '\0' && At(t, 0) != '\0'
    requires forall i: nat :: GoesOn(s, t, i + 1) <==> GoesOn(s[1..], t[1..], i)
    ensures EqualUpToCase(s, t) <==> SameLetter(At(s, 0), At(t, 0)) && EqualUpToCase(s[1..], t[1..])
  {
    hide SameLetter, GoesOn;
    assert forall j: nat :: At(s[1..], j) == At(s, j + 1) && At(t[1..], j) == At(t, j + 1);
    assert GoesOn(s, t, 0) by {
      GoesOnAtStart(s, t);
    }
    if SameLetter(At(s, 0), At(t, 0)) && EqualUpToCase(s[1..], t[1..]) {
      forall i: nat | GoesOn(s, t, i)
        ensures SameLetter(At(s, i), At(t, i))
      {
        assert i > 0 ==> GoesOn(s[1..], t[1..], i - 1) by {
          assert i > 0 ==> GoesOn(s, t, i - 1 + 1);
        }
      }
    }
    if EqualUpToCase(s, t) {
      forall i: nat | GoesOn(s[1..], t[1..], i)
        ensures SameLetter(At(s[1..], i), At(t[1..], i))
      {
        assert GoesOn(s, t, i + 1);
      }
    }
  }

  lemma GoesOnAtStart(s: string, t: string)
    ensures GoesOn(s, t, 0)
  {
  }

  lemma AlikeNul(c: char, d: char)
    requires c == '\0' || d == '\0'
    ensures SameLetter(c, d) <==> c == d
  {
  }

  lemma FoldedStep(s: string, i: nat)
    requires i <= |s|
    ensures Folded(s[i..]) == if At(s, i) == '\0' then "" else [Lower(At(s, i))] + Folded(s[i + 1..])
  {
    if i < |s| {
      assert s[i..][1..] == s[i + 1..];
    }
  }

  lemma SameHead(c: char, s: string, d: char, t: string)
    ensures [c] + s == [d] + t <==> c == d && s == t
  {
    assert ([c] + s)[0] == c && ([d] + t)[0] == d;
    assert ([c] + s)[1..] == s && ([d] + t)[1..] == t;
  }

  lemma LowerNul(c: char)
    ensures Lower(c) == '\0' <==> c == '\0'
  {
  }

  /** `cJSON_strcasecmp`: 0 for texts that are equal up to case. A name may be NULL; the text looked for is not. */
  method StrCaseCmp(s1: Chars?, s2: string) returns (r: int)
    ensures r == 0 <==> s1 != null && Folded(s1.text) == Folded(s2)
    ensures r == 0 <==> s1 != null && EqualUpToCase(s1.text, s2)
  {
    hide Folded, Lower, EqualUpToCase;
    if s1 == null {
      return 1;
    }
    FoldedAlike(s1.text, s2);
    var a := s1.text;
    var i := 0;
    assert a[0..] == a && s2[0..] == s2;
    while Lower(At(a, i)) == Lower(At(s2, i))
      invariant i <= |a| && i <= |s2|
      invariant Folded(a) == Folded(s2) <==> Folded(a[i..]) == Folded(s2[i..])
      decreases |a| - i
    {
      FoldedStep(a, i);
      FoldedStep(s2, i);
      LowerNul(At(a, i));
      LowerNul(At(s2, i));
      if At(a, i) == '\0' {
        return 0;
      }
      SameHead(Lower(At(a, i)), Folded(a[i + 1..]), Lower(At(s2, i)), Folded(s2[i + 1..]));
      i := i + 1;
    }
    FoldedStep(a, i);
    FoldedStep(s2, i);
    if At(a, i) != '\0' && At(s2, i) != '\0' {
      SameHead(Lower(At(a, i)), Folded(a[i + 1..]), Lower(At(s2, i)), Folded(s2[i + 1..]));
    }
    return Lower(At(a, i)) as int - Lower(At(s2, i)) as int;
  }

  ghost predicate Matches(t: Tree, s: string) {
    t.data.name != null && Folded(t.data.name.text) == Folded(s)
  }

  /** The place of the first child whose name matches, or the number of children. */
  ghost function FirstMatch(f: seq<Tree>, s: string): (i: nat)
    ensures i <= |f| && (i < |f| ==> Matches(f[i], s))
    ensures forall k | 0 <= k < i :: !Matches(f[k], s)
  {
    if f == [] || Matches(f[0], s) then 0 else 1 + FirstMatch(f[1..], s)
  }

  lemma MatchOf(f: seq<Tree>, s: string)
    ensures var i := FirstMatch(f, s);
      && i <= |f| && (i < |f| ==> Matches(f[i], s)) && forall k | 0 <= k < i :: !Matches(f[k], s)
  {
  }

  lemma FirstMatchUnique(f: seq<Tree>, s: string, i: nat)
    requires i <= |f| && (i < |f| ==> Matches(f[i], s))
    requires forall k | 0 <= k < i :: !Matches(f[k], s)
    ensures FirstMatch(f, s) == i
  {
  }

  /** `while (c && cJSON_strcasecmp(c->string, string)) i++, c = c->next`. */
  method Find(first: Node?, s: string, ghost f: seq<Tree>) returns (c: Node?, i: nat)
    requires first == Head(f) && Linked(f) && AllHold(f)
    ensures i == FirstMatch(f, s) && c == NodeAt(f, i)
  {
    c, i := first, 0;
    while c != null
      invariant i <= |f| && c == NodeAt(f, i)
      invariant forall k | 0 <= k < i :: !Matches(f[k], s)
      decreases |f| - i
    {
      assert c.GetData() == f[i].data;
      var r := StrCaseCmp(c.name, s);
      if r == 0 {
        break;
      }
      c, i := c.next, i + 1;
    }
    FirstMatchUnique(f, s, i);
  }

  /** `cJSON_GetObjectItem`: the first child whose name is equal up to case, or NULL. */
  method GetObjectItem(object_: Node, s: string, ghost t: Tree) returns (c: Node?)
    requires t.node == object_ && Holds(t)
    ensures c == NodeAt(t.kids, FirstMatch(t.kids, s))
  {
    var i;
    c, i := Find(object_.child, s, t.kids);
  }

  /** `cJSON_GetArraySize`. */
  method GetArraySize(parent: Node, ghost t: Tree) returns (n: nat)
    requires t.node == parent && Holds(t)
    ensures n == |t.kids|
  {
    var c := parent.child;
    n := 0;
    while c != null
      invariant n <= |t.kids| && c == NodeAt(t.kids, n)
      decreases |t.kids| - n
    {
      n, c := n + 1, c.next;
    }
  }

  /** `cJSON_DetachItemFromObject`: exactly the child that a lookup finds. */
  method DetachItemFromObject(object_: Node, s: string, ghost t: Tree) returns (c: Node?)
    requires t.node == object_ && Holds(t) && Separate(t)
    modifies object_`child, KidNodes(t.kids)`next, KidNodes(t.kids)`prev
    ensures var i := FirstMatch(t.kids, s);
      if i < |t.kids| then
        && c == t.kids[i].node && Root(t.kids[i])
        && Holds(With(t, Without(t.kids, i))) && Separate(With(t, Without(t.kids, i)))
        && Blocks(t.kids[i]) !! Blocks(With(t, Without(t.kids, i)))
      else c == null && Holds(t)
  {
    hide Blocks, ForestNodes, LowerNodes, KidNodes, Separate, AllHold, Linked, Without;
    AllAllocated(t);
    var i;
    c, i := Find(object_.child, s, t.kids);
    if c != null {
      c := DetachItemFromArray(object_, i, t);
    }
  }

  /** `cJSON_DeleteItemFromArray`: the child at a place is taken out and all of its blocks are freed. */
  method DeleteItemFromArray(parent: Node, which: int, h: Heap, ghost t: Tree)
    requires t.node == parent && Holds(t) && Separate(t) && Blocks(t) <= h.live
    modifies h, parent`child, KidNodes(t.kids)`next, KidNodes(t.kids)`prev
    ensures var i := Position(which);
      if i < |t.kids| then
        && Holds(With(t, Without(t.kids, i))) && Separate(With(t, Without(t.kids, i)))
        && h.live == old(h.live) - Blocks(t.kids[i])
      else Holds(t) && h.live == old(h.live)
    ensures h.failures == old(h.failures)
  {
    hide Blocks, ForestNodes, LowerNodes, KidNodes, Separate, AllHold, Linked, Without;
    var c := DetachItemFromArray(parent, which, t);
    ghost var i := Position(which);
    if i < |t.kids| {
      BlocksInside(t.kids, i);
      OwnBlocks(t);
      AllAllocated(With(t, Without(t.kids, i)));
    }
    AllAllocated(t);
    Delete(c, h, if i < |t.kids| then t.kids[i] else t);
  }

  /** `cJSON_DeleteItemFromObject`. */
  method DeleteItemFromObject(object_: Node, s: string, h: Heap, ghost t: Tree)
    requires t.node == object_ && Holds(t) && Separate(t) && Blocks(t) <= h.live
    modifies h, object_`child, KidNodes(t.kids)`next, KidNodes(t.kids)`prev
    ensures var i := FirstMatch(t.kids, s);
      if i < |t.kids| then
        && Holds(With(t, Without(t.kids, i))) && Separate(With(t, Without(t.kids, i)))
        && h.live == old(h.live) - Blocks(t.kids[i])
      else Holds(t) && h.live == old(h.live)
    ensures h.failures == old(h.failures)
  {
    hide Blocks, ForestNodes, LowerNodes, KidNodes, Separate, AllHold, Linked, Without;
    var c := DetachItemFromObject(object_, s, t);
    ghost var i := FirstMatch(t.kids, s);
    if i < |t.kids| {
      BlocksInside(t.kids, i);
      OwnBlocks(t);
      AllAllocated(With(t, Without(t.kids, i)));
    }
    AllAllocated(t);
    Delete(c, h, if i < |t.kids| then t.kids[i] else t);
  }

  lemma WithoutParts(f: seq<Tree>, i: nat)
    requires i < |f|
    ensures Without(f, i) == f[..i] + f[i + 1..]
  {
  }

  /** Looking the same name up again finds the next match, if there is one: only the first was taken. */
  lemma DetachedNext(f: seq<Tree>, s: string)
    requires FirstMatch(f, s) < |f|
    ensures var i := FirstMatch(f, s);
      FirstMatch(Without(f, i), s) == i + FirstMatch(f[i + 1..], s)
  {
    hide Matches, FirstMatch, Without;
    var i, after := FirstMatch(f, s), f[FirstMatch(f, s) + 1..];
    var g, j := Without(f, i), FirstMatch(after, s);
    WithoutParts(f, i);
    MatchOf(f, s);
    MatchOf(after, s);
    forall k | 0 <= k < i + j
      ensures !Matches(g[k], s)
    {
      if k < i {
        assert g[k] == f[..i][k] == f[k];
      } else {
        assert g[k] == after[k - i];
      }
    }
    assert j < |after| ==> g[i + j] == after[j];
    FirstMatchUnique(g, s, i + j);
  }
}
