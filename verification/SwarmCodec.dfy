/** The encoders and decoders of the swarm messages, on the heap. */
module SwarmCodec {
  import opened Options
  import opened CText
  import opened Json
  import opened Keys
  import opened Parser
  import opened Nodes
  import opened Deletion
  import opened Edits
  import opened PrintText
  import opened PrintBuffer
  import opened Printer
  import opened HeapText
  import opened HeapParser
  import opened Lookup
  import opened Messages
  import opened Swarm

  // ---------- encoding ----------

  /** The members that were asked for, in order, some of them left out. */
  ghost predicate Sublist(ms: seq<Member>, all: seq<Member>) {
    if all == [] then ms == []
    else
      var n, i := |ms|, |all| - 1;
      Sublist(ms, all[..i]) || (n > 0 && ms[n - 1] == all[i] && Sublist(ms[..n - 1], all[..i]))
  }

  lemma SublistMore(ms: seq<Member>, all: seq<Member>, m: Member)
    requires Sublist(ms, all)
    ensures Sublist(ms, all + [m]) && Sublist(ms + [m], all + [m])
  {
    assert (all + [m])[..|all|] == all && (ms + [m])[..|ms|] == ms;
  }

  lemma {:induction false} SublistShorter(ms: seq<Member>, all: seq<Member>)
    requires Sublist(ms, all)
    ensures |ms| <= |all|
    decreases |all|
  {
    if all != [] {
      var n, i := |ms|, |all| - 1;
      if Sublist(ms, all[..i]) {
        SublistShorter(ms, all[..i]);
      } else {
        SublistShorter(ms[..n - 1], all[..i]);
      }
    }
  }

  /** What an encoder has asked for, and what came of it. */
  datatype Draft = Draft(tree: Tree, said: seq<Member>, asked: seq<Member>)

  /**
   The state of an encoder: the object is whole and live, and while `ok`, it has the members of the draft and can be
   printed. Members are missing exactly if an allocation has failed.
   */
  ghost predicate Building(root: Node, ok: bool, d: Draft, h: Heap, base: set<object>, start: nat)
    reads h, d.tree.node, ForestNodes(d.tree.kids)
  {
    && d.tree.node == root && Root(d.tree) && Blocks(d.tree) !! base && h.live == base + Blocks(d.tree)
    && Sublist(d.said, d.asked) && start <= h.failures
    && (if ok then Says(d.tree, d.said) && (h.failures == start <==> d.said == d.asked) else h.failures > start)
  }

  ghost function Extended(d: Draft, u: Tree, r: Adding, m: Member): Draft {
    Draft(u, if r == LeftOut then d.said else d.said + [m], d.asked + [m])
  }

  lemma NextDraft(d: Draft, m: Member)
    requires Sublist(d.said, d.asked)
    ensures Sublist(d.said, d.asked + [m]) && Sublist(d.said + [m], d.asked + [m])
    ensures d.said != d.asked + [m] && (d.said + [m] == d.asked + [m] <==> d.said == d.asked)
  {
    SublistMore(d.said, d.asked, m);
    SublistShorter(d.said, d.asked);
    assert (d.said + [m])[..|d.said|] == d.said && (d.asked + [m])[..|d.asked|] == d.asked;
  }

  method PutString(root: Node, name: string, s: string, h: Heap, so: bool, ghost d: Draft, ghost base: set<object>,
                   ghost start: nat)
    returns (ok: bool, ghost e: Draft)
    requires Building(root, so, d, h, base, start) && allocated(base) && NulFree(name) && NulFree(s)
    modifies h, root`child, KidNodes(d.tree.kids)`next, KidNodes(d.tree.kids)`prev
    ensures Building(root, ok, e, h, base, start) && e.asked == d.asked + [Member(name, Str(s))]
    ensures forall x | x in KidNodes(e.tree.kids) :: x in KidNodes(d.tree.kids) || fresh(x)
  {
    hide Blocks, ForestNodes, LowerNodes, KidNodes, Root, Says, Sublist;
    var r;
    ghost var u;
    r, u := AddString(root, name, s, h, d.tree);
    ok, e := so && r != Broken, Extended(d, u, r, Member(name, Str(s)));
    NextDraft(d, Member(name, Str(s)));
  }

  method PutNumber(root: Node, name: string, n: int, h: Heap, so: bool, ghost d: Draft, ghost base: set<object>,
                   ghost start: nat)
    returns (ok: bool, ghost e: Draft)
    requires Building(root, so, d, h, base, start) && allocated(base) && NulFree(name) && IsInt32(n)
    modifies h, root`child, KidNodes(d.tree.kids)`next, KidNodes(d.tree.kids)`prev
    ensures Building(root, ok, e, h, base, start) && e.asked == d.asked + [Whole(name, n)]
    ensures forall x | x in KidNodes(e.tree.kids) :: x in KidNodes(d.tree.kids) || fresh(x)
  {
    hide Blocks, ForestNodes, LowerNodes, KidNodes, Root, Says, Sublist;
    var r;
    ghost var u;
    r, u := AddNumber(root, name, n as real, h, d.tree);
    ok, e := so && r != Broken, Extended(d, u, r, Whole(name, n));
    NextDraft(d, Whole(name, n));
  }

  datatype Sent = Encoded | NoResource | Unknown

  /** `strncpy`: at most `n` characters, and NULs up to `n` behind a shorter text. */
  method StrNCpy(to: array<char>, from: array<char>, n: nat, ghost s: string)
    requires TextAt(from, 0, s) && NulFree(s) && n <= to.Length && to != from
    modifies to
    ensures |s| < n ==> TextAt(to, 0, s)
    ensures |s| >= n ==> to[..n] == s[..n]
    ensures to[n..] == old(to[n..])
  {
    ghost var source := from[0..|s|] + "\0";
    var k := 0;
    while k < n && from[k] != '\0'
      invariant k <= n && k <= |s| && to[..k] == s[..k] && to[n..] == old(to[n..])
    {
      assert from[k] == source[k];
      to[k] := from[k];
      assert s[..k + 1] == s[..k] + [s[k]];
      k := k + 1;
    }
    assert k < n ==> k == |s| by {
      if k < |s| {
        assert from[k] == source[k];
      }
    }
    var j := k;
    while j < n
      invariant k <= j <= n && to[..k] == s[..k] && to[n..] == old(to[n..])
      invariant forall i | k <= i < j :: to[i] == '\0'
    {
      to[j] := '\0';
      j := j + 1;
    }
    assert s[..|s|] == s;
  }

  /**
   What an encoder has done when it returns. What it sends has some of the members asked for, in order, and all of them
   exactly if no allocation failed; the printed text stays allocated, as nothing frees it. `Unknown` is what follows
   when the object has a member without its name or string, or there is no memory for its text: NULL is read.
   */
  ghost predicate Ends(rc: Sent, said: seq<Member>, asked: seq<Member>, text: array?<char>, sendBuf: array<char>,
                       bufLen: nat, before: seq<char>, h: Heap, base: set<object>, start: nat)
    reads h, sendBuf
  {
    if rc == Encoded then
      && text != null && h.live == base + {text} && Sublist(said, asked) && Printable(Obj(said))
      && (if h.failures == start then said == asked else said != asked && h.failures > start)
      && Copied(sendBuf, bufLen, Render(Obj(said), 0, true), before)
    else
      && h.failures > start && sendBuf[..] == before && (rc == NoResource ==> h.live == base)
  }

  /** A text in a buffer, cut off without a NUL where it does not fit; nothing is written behind. */
  ghost predicate Copied(buf: array<char>, len: nat, s: string, before: seq<char>)
    reads buf
  {
    && len <= buf.Length == |before| && buf[len..] == before[len..]
    && (if |s| < len then TextAt(buf, 0, s) else buf[..len] == s[..len])
  }

  /** The end of every encoder: the object is printed, the text copied, the object deleted. */
  method Finish(root: Node, ok: bool, h: Heap, sendBuf: array<char>, bufLen: nat, ghost d: Draft,
                ghost base: set<object>, ghost start: nat)
    returns (rc: Sent, ghost text: array?<char>)
    requires Building(root, ok, d, h, base, start) && allocated(base) && bufLen <= sendBuf.Length
    modifies h, sendBuf
    ensures Ends(rc, d.said, d.asked, text, sendBuf, bufLen, old(sendBuf[..]), h, base, start)
    ensures rc == Encoded ==> fresh(text)
    ensures rc != NoResource
  {
    hide Blocks, ForestNodes, LowerNodes, KidNodes, Render, Ready, Separate, Holds, TextAt, Sublist;
    text := null;
    if !ok {
      return Unknown, null;
    }
    AllAllocated(d.tree);
    assert allocated(Blocks(d.tree));
    assert Value(d.tree) == Obj(d.said);
    ReadyPrintable(d.tree);
    RenderNulFree(Obj(d.said), 0, true);
    var out := PrintValue(root, 0, true, h, d.tree);
    if out == null {
      return Unknown, null;
    }
    AllAllocated(d.tree);
    StrNCpy(sendBuf, out, bufLen, Render(Obj(d.said), 0, true));
    AllAllocated(d.tree);
    Delete(root, h, d.tree);
    return Encoded, out;
  }

  /** The empty object that every encoder begins with. */
  method Start(h: Heap) returns (root: Node?)
    modifies h
    ensures root == null ==> h.live == old(h.live) && h.failures > old(h.failures)
    ensures root != null ==> fresh(root) && Building(root, true, EmptyDraft(root), h, old(h.live), old(h.failures))
  {
    hide Blocks;
    root := CreateObject(h);
    if root != null {
      ghost var t := EmptyDraft(root).tree;
      assert Members(t.kids) == [] && ReadyForest(t.kids) && Named(t.kids);
    }
  }

  ghost function EmptyDraft(root: Node): (d: Draft)
    ensures KidNodes(d.tree.kids) == {}
  {
    Draft(Bare(root, Data(KObject, null, 0, 0.0, null)), [], [])
  }

  /** The members that every encoder adds first. */
  method PutHeader(root: Node, account: string, tag: string, h: Heap, ghost d: Draft, ghost base: set<object>,
                   ghost start: nat)
    returns (ok: bool, ghost e: Draft)
    requires Building(root, true, d, h, base, start) && allocated(base) && NulFree(account) && NulFree(tag)
    requires d.asked == [] && KidNodes(d.tree.kids) == {}
    modifies h, root`child
    ensures Building(root, ok, e, h, base, start) && e.asked == Header(account, tag)
    ensures forall x | x in KidNodes(e.tree.kids) :: fresh(x)
  {
    hide Blocks, ForestNodes, LowerNodes, KidNodes, Root, Says, Building;
    ok, e := PutString(root, CMD, CMD_SWARM, h, true, d, base, start);
    ok, e := PutString(root, ACCOUNT, account, h, ok, e, base, start);
    ok, e := PutString(root, TYPE, tag, h, ok, e, base, start);
    assert e.asked == Header(account, tag);
  }

  ghost function Header(account: string, tag: string): seq<Member> {
    [Member(CMD, Str(CMD_SWARM)), Member(ACCOUNT, Str(account)), Member(TYPE, Str(tag))]
  }

  /** `ubtRobot_Msg_Encode_SwarmReachXYZ`, `...SwarmReachXYZAck` and `...SwarmQueryXYZ`, which differ in the type only. */
  method EncodeXYZ(k: Action, account: string, port: int, f: Fields, h: Heap, sendBuf: array<char>, bufLen: nat)
    returns (rc: Sent, ghost text: array?<char>, ghost said: seq<Member>)
    requires k == ReachXYZ || k == ReachXYZAck || k == QueryXYZ
    requires NulFree(account) && IsInt32(port) && Int32s(f) && bufLen <= sendBuf.Length
    modifies h, sendBuf
    ensures Ends(rc, said, MembersOf(k, account, port, f), text, sendBuf, bufLen, old(sendBuf[..]), h, old(h.live),
                 old(h.failures))
    ensures rc == Encoded ==> fresh(text)
  {
    hide Blocks, ForestNodes, LowerNodes, KidNodes, Root, Says, Building, Render, Tag, Sublist;
    ghost var base, start := h.live, h.failures;
    var root := Start(h);
    if root == null {
      return NoResource, null, [];
    }
    ghost var d := EmptyDraft(root);
    TagsApart(k, k);
    var ok;
    ok, d := PutHeader(root, account, Tag(k), h, d, base, start);
    ok, d := PutNumber(root, ID, f.id, h, ok, d, base, start);
    ok, d := PutNumber(root, PORT, port, h, ok, d, base, start);
    ok, d := PutNumber(root, SEQUENCE, f.seqNo, h, ok, d, base, start);
    assert d.asked == MembersOf(k, account, port, f);
    rc, text := Finish(root, ok, h, sendBuf, bufLen, d, base, start);
    said := d.said;
  }

  /** `ubtRobot_Msg_Encode_SwarmActionEnd`. */
  method EncodeActionEnd(account: string, port: int, f: Fields, h: Heap, sendBuf: array<char>, bufLen: nat)
    returns (rc: Sent, ghost text: array?<char>, ghost said: seq<Member>)
    requires NulFree(account) && IsInt32(port) && Int32s(f) && bufLen <= sendBuf.Length
    modifies h, sendBuf
    ensures Ends(rc, said, MembersOf(ActionEnd, account, port, f), text, sendBuf, bufLen, old(sendBuf[..]), h,
                 old(h.live), old(h.failures))
    ensures rc == Encoded ==> fresh(text)
  {
    hide Blocks, ForestNodes, LowerNodes, KidNodes, Root, Says, Building, Render, Tag, Sublist;
    ghost var base, start := h.live, h.failures;
    var root := Start(h);
    if root == null {
      return NoResource, null, [];
    }
    ghost var d := EmptyDraft(root);
    TagsApart(ActionEnd, ActionEnd);
    var ok;
    ok, d := PutHeader(root, account, Tag(ActionEnd), h, d, base, start);
    ok, d := PutNumber(root, PORT, port, h, ok, d, base, start);
    ok, d := PutNumber(root, SEQUENCE, f.seqNo, h, ok, d, base, start);
    ok, d := PutNumber(root, ID, f.id, h, ok, d, base, start);
    assert d.asked == MembersOf(ActionEnd, account, port, f);
    rc, text := Finish(root, ok, h, sendBuf, bufLen, d, base, start);
    said := d.said;
  }

  ghost function Coordinates(f: Fields): seq<Member> {
    [Whole(X, f.x), Whole(Y, f.y), Whole(Z, f.z), Whole(Z, f.z), Whole(ORDER, f.order)]
  }

  /** The coordinates, with `z` twice. */
  method PutCoordinates(root: Node, f: Fields, h: Heap, so: bool, ghost d: Draft, ghost base: set<object>,
                        ghost start: nat)
    returns (ok: bool, ghost e: Draft)
    requires Building(root, so, d, h, base, start) && allocated(base) && Int32s(f)
    modifies h, root`child, KidNodes(d.tree.kids)`next, KidNodes(d.tree.kids)`prev
    ensures Building(root, ok, e, h, base, start) && e.asked == d.asked + Coordinates(f)
    ensures forall x | x in KidNodes(e.tree.kids) :: x in KidNodes(d.tree.kids) || fresh(x)
  {
    hide Blocks, ForestNodes, LowerNodes, KidNodes, Root, Says, Building;
    ok, e := PutNumber(root, X, f.x, h, so, d, base, start);
    ok, e := PutNumber(root, Y, f.y, h, ok, e, base, start);
    ok, e := PutNumber(root, Z, f.z, h, ok, e, base, start);
    ok, e := PutNumber(root, Z, f.z, h, ok, e, base, start);
    ok, e := PutNumber(root, ORDER, f.order, h, ok, e, base, start);
    assert e.asked == d.asked + Coordinates(f);
  }

  /** `ubtRobot_Msg_Encode_SwarmGotoXYZ`; `z` is added twice, and the port not at all. */
  method EncodeGotoXYZ(account: string, port: int, f: Fields, h: Heap, sendBuf: array<char>, bufLen: nat)
    returns (rc: Sent, ghost text: array?<char>, ghost said: seq<Member>)
    requires NulFree(account) && IsInt32(port) && Int32s(f) && bufLen <= sendBuf.Length
    modifies h, sendBuf
    ensures Ends(rc, said, MembersOf(GotoXYZ, account, port, f), text, sendBuf, bufLen, old(sendBuf[..]), h,
                 old(h.live), old(h.failures))
    ensures rc == Encoded ==> fresh(text)
  {
    hide Blocks, ForestNodes, LowerNodes, KidNodes, Root, Says, Building, Render, Tag, Sublist;
    ghost var base, start := h.live, h.failures;
    var root := Start(h);
    if root == null {
      return NoResource, null, [];
    }
    ghost var d := EmptyDraft(root);
    TagsApart(GotoXYZ, GotoXYZ);
    var ok;
    ok, d := PutHeader(root, account, Tag(GotoXYZ), h, d, base, start);
    ok, d := PutNumber(root, ID, f.id, h, ok, d, base, start);
    ok, d := PutCoordinates(root, f, h, ok, d, base, start);
    ok, d := PutNumber(root, SEQUENCE, f.seqNo, h, ok, d, base, start);
    assert d.asked == MembersOf(GotoXYZ, account, port, f);
    rc, text := Finish(root, ok, h, sendBuf, bufLen, d, base, start);
    said := d.said;
  }

  // ---------- decoding ----------

  lemma {:induction false} MatchInMembers(f: seq<Tree>, name: string)
    requires forall k | 0 <= k < |f| :: f[k].data.name != null
    ensures var i := FirstMatch(f, name);
      GetItem(Members(f), name) == if i < |f| then Some(Value(f[i])) else None
  {
    hide Value, Folded;
    if f != [] {
      assert Members(f)[1..] == Members(f[1..]);
      MatchInMembers(f[1..], name);
    }
  }

  /** The child found on the heap is the item found in the value. */
  lemma FoundItem(t: Tree, name: string)
    requires Typed(t)
    ensures var i := FirstMatch(t.kids, name);
      ItemOf(Value(t), name) == if i < |t.kids| then Some(Value(t.kids[i])) else None
    ensures forall k | 0 <= k < |t.kids| :: Typed(t.kids[k])
  {
    if t.data.kind == KObject {
      MatchInMembers(t.kids, name);
    } else {
      FirstMatchUnique(t.kids, name, |t.kids|);
    }
  }

  lemma UpToNulStep(s: string, i: nat)
    requires i <= |s|
    ensures UpToNul(s[i..]) == if At(s, i) == '\0' then "" else [At(s, i)] + UpToNul(s[i + 1..])
  {
    if i < |s| {
      assert s[i..][1..] == s[i + 1..];
    }
  }

  /** `strcmp`, as far as its result is compared with 0. */
  method StrEqual(a: string, b: string) returns (same: bool)
    ensures same <==> UpToNul(a) == UpToNul(b)
  {
    var i := 0;
    assert a[0..] == a && b[0..] == b;
    while At(a, i) == At(b, i)
      invariant i <= |a| && i <= |b|
      invariant UpToNul(a) == UpToNul(b) <==> UpToNul(a[i..]) == UpToNul(b[i..])
      decreases |a| - i
    {
      UpToNulStep(a, i);
      UpToNulStep(b, i);
      if At(a, i) == '\0' {
        return true;
      }
      SameHead(At(a, i), UpToNul(a[i + 1..]), At(b, i), UpToNul(b[i + 1..]));
      i := i + 1;
    }
    UpToNulStep(a, i);
    UpToNulStep(b, i);
    if At(a, i) != '\0' && At(b, i) != '\0' {
      SameHead(At(a, i), UpToNul(a[i + 1..]), At(b, i), UpToNul(b[i + 1..]));
    }
    same := false;
  }

  method CheckString(root: Node, name: string, expected: string, ghost t: Tree) returns (pass: bool)
    requires t.node == root && Holds(t) && Typed(t) && UpToNul(expected) == expected
    ensures pass <==> Passes(Value(t), name, expected)
  {
    FoundItem(t, name);
    AllAllocated(t);
    var node := GetObjectItem(root, name, t);
    pass := true;
    if node != null {
      FoundNode(t, FirstMatch(t.kids, name));
      if node.kind == KString {
        pass := StrEqual(node.valuestring.text, expected);
      }
    }
  }

  /** A child on the heap and in the picture. */
  lemma FoundNode(t: Tree, k: nat)
    requires Holds(t) && k < |t.kids| && Typed(t.kids[k])
    ensures var x := t.kids[k];
      && x.node.GetData() == x.data
      && (x.data.kind == KString ==> x.data.str != null && Value(x) == Str(x.data.str.text))
      && (x.data.kind == KNumber ==> Value(x) == Num(x.data.num) && x.data.whole == Truncate(x.data.num))
      && (Value(x).Str? <==> x.data.kind == KString) && (Value(x).Num? <==> x.data.kind == KNumber)
  {
    assert AllHold(t.kids) && Holds(t.kids[k]);
  }

  method ReadNumber(root: Node, name: string, before: int, ghost t: Tree) returns (n: int)
    requires t.node == root && Holds(t) && Typed(t)
    ensures n == NumberIn(Value(t), name, before)
  {
    hide Truncate;
    FoundItem(t, name);
    AllAllocated(t);
    var node := GetObjectItem(root, name, t);
    n := before;
    if node != null {
      FoundNode(t, FirstMatch(t.kids, name));
      if node.kind == KNumber {
        n := node.valueint;
      }
    }
  }

  /** The places a decoder's pointers lead to. */
  class Outputs {
    var seqNo: int
    var id: int
    var x: int
    var y: int
    var z: int
    var order: int

    constructor ()
    {
    }

    ghost function View(): Fields
      reads this
    {
      Fields(seqNo, id, x, y, z, order)
    }
  }

  /**
   The decoders, for the message of kind `k`: `ubtRobot_Msg_Decode_SwarmReachXYZ`, `...ReachXYZAck`, `...QueryXYZ`,
   `...ActionEnd`, and with the coordinates `...GotoXYZ`. Every block of the parsed tree is freed again.
   */
  method Decode(k: Action, recv: string, out: Outputs, h: Heap) returns (rc: Rc)
    modifies out, h
    ensures match rc
      case Unspecified => ParseText(recv, false) == Undefined
      case DecodeFailed =>
        && (h.failures > old(h.failures) || ParseText(recv, false) == Rejected)
        && out.View() == old(out.View()) && h.live == old(h.live)
      case _ =>
        && ParseText(recv, false).Parsed? && (rc, out.View()) == Decoded(k, ParseText(recv, false).value, old(out.View()))
        && h.live == old(h.live) && h.failures == old(h.failures)
  {
    hide Blocks, ForestNodes, LowerNodes, KidNodes, Separate, Typed, Value, ParseText, Passes, NumberIn, Holds, Tag;
    var root, c;
    ghost var o;
    root, c, o := ParseWithOpts(recv, false, h);
    if root == null {
      return if c.Stray? then Unspecified else DecodeFailed;
    }
    ghost var t := o.value;
    AllAllocated(t);
    TagsApart(k, k);
    UpToNulWhole(Tag(k));
    UpToNulWhole(CMD_SWARM);
    var pass := CheckString(root, CMD, CMD_SWARM, t);
    if pass {
      pass := CheckString(root, TYPE, Tag(k), t);
    }
    rc := Failed;
    if pass {
      rc := Success;
      DecodeNumbers(k, root, out, t);
    }
    AllAllocated(t);
    Delete(root, h, t);
  }

  method DecodeNumbers(k: Action, root: Node, out: Outputs, ghost t: Tree)
    requires t.node == root && Holds(t) && Typed(t) && Root(t)
    modifies out
    ensures Root(t)
    ensures Passes(Value(t), CMD, CMD_SWARM) && Passes(Value(t), TYPE, Tag(k)) ==>
      (Success, out.View()) == Decoded(k, Value(t), old(out.View()))
  {
    hide Blocks, ForestNodes, LowerNodes, KidNodes, Separate, Typed, Value, Passes, NumberIn, Holds, Tag;
    AllAllocated(t);
    out.seqNo := ReadNumber(root, SEQUENCE, out.seqNo, t);
    out.id := ReadNumber(root, ID, out.id, t);
    if k == GotoXYZ {
      DecodeCoordinates(root, out, t);
    }
  }

  method DecodeCoordinates(root: Node, out: Outputs, ghost t: Tree)
    requires t.node == root && Holds(t) && Typed(t) && Root(t)
    modifies out`x, out`y, out`z, out`order
    ensures Root(t)
    ensures out.x == NumberIn(Value(t), X, old(out.x)) && out.y == NumberIn(Value(t), Y, old(out.y))
    ensures out.z == NumberIn(Value(t), Z, old(out.z)) && out.order == NumberIn(Value(t), ORDER, old(out.order))
  {
    hide Blocks, ForestNodes, LowerNodes, KidNodes, Separate, Typed, Value, NumberIn, Holds;
    AllAllocated(t);
    out.x := ReadNumber(root, X, out.x, t);
    out.y := ReadNumber(root, Y, out.y, t);
    out.z := ReadNumber(root, Z, out.z, t);
    out.order := ReadNumber(root, ORDER, out.order, t);
  }
}
