/** `cJSON_PrintBuffered`: printing into one growing buffer. The text is the one that `Render` gives. */
module BufferPrinter {
  import opened CText
  import opened Json
  import opened Nodes
  import opened Edits
  import opened PrintText
  import opened StringPrinter
  import opened PrintBuffer

  /** How every printing step may change the buffer and the allocator. */
  ghost predicate Carried(p: Buffer, was: array?<char>, live0: set<object>, live: set<object>, failed: bool)
    reads p
  {
    && p.Valid() && Kept(p.buffer, was, live, live0)
    && (was == null ==> p.buffer == null)
    && (p.buffer == null && was != null ==> failed)
  }

  // ---------- steps ----------

  /** Room for some bytes, some characters written at the offset, and the offset moved behind them. */
  method Emit(p: Buffer, room: nat, s: string, nul: bool, h: Heap, ghost pre: string) returns (ok: bool)
    requires p.Valid() && Block(p.buffer) <= h.live && room > 0 && |s| + (if nul then 1 else 0) <= room
    requires p.buffer != null ==> Done(p) == pre
    modifies p, Block(p.buffer), h
    ensures Carried(p, old(p.buffer), old(h.live), h.live, h.failures > old(h.failures))
    ensures p.buffer == old(p.buffer) || p.buffer == null || fresh(p.buffer)
    ensures (ok <==> p.buffer != null) && old(h.failures) <= h.failures
    ensures ok ==> Done(p) == pre + s && p.offset == old(p.offset) + |s| && h.failures == old(h.failures)
  {
    ok := Ensure(p, room, h);
    if ok {
      assert p.buffer[..p.offset] == pre;
      Write(p, p.offset, s, nul);
      p.offset := p.offset + |s|;
    }
  }

  /** A leaf, or a closing bracket: a text and its NUL at the offset, which stays where it is. */
  method Leaf(p: Buffer, room: nat, s: string, h: Heap, ghost pre: string) returns (at: int)
    requires p.Valid() && Block(p.buffer) <= h.live && |s| < room
    requires p.buffer != null ==> Done(p) == pre
    modifies p, Block(p.buffer), h
    ensures Carried(p, old(p.buffer), old(h.live), h.live, h.failures > old(h.failures))
    ensures p.buffer == old(p.buffer) || p.buffer == null || fresh(p.buffer)
    ensures at == (if p.buffer == null then -1 else p.offset) && old(h.failures) <= h.failures
    ensures p.buffer != null ==>
      && Done(p) == pre && TextAt(p.buffer, p.offset, s) && p.offset == old(p.offset) && h.failures == old(h.failures)
  {
    var ok := Ensure(p, room, h);
    at := -1;
    if ok {
      assert p.buffer[..p.offset] == pre;
      Write(p, p.offset, s, true);
      at := p.offset;
      assert p.buffer[..at] == p.buffer[..at + |s|][..at];
    }
  }

  /** `print_string_ptr` into the buffer. */
  method PrintString(p: Buffer, s: string, h: Heap, ghost pre: string) returns (at: int)
    requires p.Valid() && Block(p.buffer) <= h.live
    requires p.buffer != null ==> Done(p) == pre
    modifies p, Block(p.buffer), h
    ensures Carried(p, old(p.buffer), old(h.live), h.live, h.failures > old(h.failures))
    ensures p.buffer == old(p.buffer) || p.buffer == null || fresh(p.buffer)
    ensures at == (if p.buffer == null then -1 else p.offset) && old(h.failures) <= h.failures
    ensures p.buffer != null ==>
      && Done(p) == pre && TextAt(p.buffer, p.offset, Quote(s)) && p.offset == old(p.offset)
      && h.failures == old(h.failures)
  {
    hide Quote;
    var flag, size := QuotedSize(s);
    var ok := Ensure(p, size, h);
    at := -1;
    if ok {
      at := p.offset;
      assert p.buffer[..at] == pre;
      Compose(p.buffer, at, s, flag);
      assert p.buffer[..at] == p.buffer[..at + |Quote(s)|][..at];
    }
  }

  /** The offset moved behind the text that was just printed. */
  method Advance(p: Buffer, h: Heap, ghost pre: string, ghost start: int, ghost s: string)
    requires p.Valid() && NulFree(s) && |pre| == start
    requires p.buffer != null ==>
      && TextAt(p.buffer, start, s) && start <= p.offset <= start + |s| && p.buffer[..start] == pre
    modifies p`offset
    ensures p.Valid() && (p.buffer != null ==> Done(p) == pre + s && p.offset == start + |s|)
  {
    Update(p, start, s);
    if p.buffer != null {
      assert p.buffer[..start + |s|] == p.buffer[..start] + p.buffer[start..start + |s|];
    }
  }

  // ---------- what the loops have written ----------

  /** The text of an array before its element `k`. */
  ghost function ItemsBefore(vs: seq<Json>, k: nat, depth: nat, fmt: bool): string
    requires k <= |vs|
  {
    if k == 0 then "["
    else ItemsBefore(vs, k - 1, depth, fmt) + Render(vs[k - 1], depth, fmt) + When(k < |vs|, "," + When(fmt, " "))
  }

  lemma {:induction false} ItemsBeforeRest(vs: seq<Json>, k: nat, depth: nat, fmt: bool)
    requires k < |vs|
    ensures ItemsBefore(vs, k, depth, fmt) + RenderItems(vs[k..], depth, fmt) == "[" + RenderItems(vs, depth, fmt)
  {
    if k == 0 {
      assert vs[0..] == vs;
    } else {
      ItemsBeforeRest(vs, k - 1, depth, fmt);
      var a, r, c := ItemsBefore(vs, k - 1, depth, fmt), Render(vs[k - 1], depth, fmt), "," + When(fmt, " ");
      var t := RenderItems(vs[k..], depth, fmt);
      assert vs[k - 1..][1..] == vs[k..] && vs[k - 1..][0] == vs[k - 1];
      Assoc(a + r, c, t);
      Assoc(a, r, c + t);
      Assoc(",", When(fmt, " "), t);
    }
  }

  lemma ItemsBeforeAll(vs: seq<Json>, depth: nat, fmt: bool)
    requires vs != []
    ensures ItemsBefore(vs, |vs|, depth, fmt) + "]" == "[" + RenderItems(vs, depth, fmt)
  {
    var n := |vs|;
    ItemsBeforeRest(vs, n - 1, depth, fmt);
    assert vs[n - 1..] == [vs[n - 1]];
    var a, r := ItemsBefore(vs, n - 1, depth, fmt), Render(vs[n - 1], depth, fmt);
    assert a + r + "" == a + r;
    Assoc(a, r, "]");
  }

  /** The text of an object before its member `k`. */
  ghost function MembersBefore(ms: seq<Member>, k: nat, depth: nat, fmt: bool): string
    requires k <= |ms|
  {
    if k == 0 then "{" + When(fmt, "\n")
    else
      MembersBefore(ms, k - 1, depth, fmt) + RenderMember(ms[k - 1], depth, fmt)
      + (When(k < |ms|, ",") + When(fmt, "\n"))
  }

  lemma {:induction false} MembersBeforeRest(ms: seq<Member>, k: nat, depth: nat, fmt: bool)
    requires k < |ms|
    ensures MembersBefore(ms, k, depth, fmt) + RenderMembers(ms[k..], depth, fmt)
         == "{" + When(fmt, "\n") + RenderMembers(ms, depth, fmt)
  {
    if k == 0 {
      assert ms[0..] == ms;
    } else {
      MembersBeforeRest(ms, k - 1, depth, fmt);
      var a, r, c := MembersBefore(ms, k - 1, depth, fmt), RenderMember(ms[k - 1], depth, fmt), "," + When(fmt, "\n");
      var t := RenderMembers(ms[k..], depth, fmt);
      assert ms[k - 1..][1..] == ms[k..] && ms[k - 1..][0] == ms[k - 1];
      Assoc(a + r, c, t);
      Assoc(a, r, c + t);
      Assoc(",", When(fmt, "\n"), t);
    }
  }

  lemma MembersBeforeAll(ms: seq<Member>, depth: nat, fmt: bool)
    requires ms != []
    ensures MembersBefore(ms, |ms|, depth, fmt) + (When(fmt, Tabs(depth - 1)) + "}")
         == "{" + When(fmt, "\n") + RenderMembers(ms, depth, fmt)
  {
    hide MembersBefore, RenderMember, RenderMembers, Tabs, When;
    var n := |ms|;
    MembersBeforeRest(ms, n - 1, depth, fmt);
    MembersBeforeLast(ms, depth, fmt);
    LastMemberText(ms, depth, fmt);
    var a, r, e := MembersBefore(ms, n - 1, depth, fmt), RenderMember(ms[n - 1], depth, fmt), When(fmt, Tabs(depth - 1)) + "}";
    Assoc(a + r, When(fmt, "\n"), e);
    Assoc(a, r, When(fmt, "\n") + e);
  }

  lemma MembersBeforeLast(ms: seq<Member>, depth: nat, fmt: bool)
    requires ms != []
    ensures var n := |ms|;
      MembersBefore(ms, n, depth, fmt)
      == MembersBefore(ms, n - 1, depth, fmt) + RenderMember(ms[n - 1], depth, fmt) + When(fmt, "\n")
  {
    hide RenderMember;
    assert When(false, ",") + When(fmt, "\n") == When(fmt, "\n");
  }

  lemma LastMemberText(ms: seq<Member>, depth: nat, fmt: bool)
    requires ms != []
    ensures var m := ms[|ms| - 1];
      RenderMembers(ms[|ms| - 1..], depth, fmt)
      == RenderMember(m, depth, fmt) + (When(fmt, "\n") + (When(fmt, Tabs(depth - 1)) + "}"))
  {
    hide RenderMember, Tabs;
    assert ms[|ms| - 1..] == [ms[|ms| - 1]];
    Assoc(When(fmt, "\n"), When(fmt, Tabs(depth - 1)), "}");
    assert When(fmt, "\n") + When(fmt, Tabs(depth - 1)) == When(fmt, "\n" + Tabs(depth - 1));
  }

  // ---------- the printer ----------

  /** After printing `s` behind `pre`: the text is there, and the offset at its start or somewhere inside it. */
  ghost predicate Printed(p: Buffer, pre: string, s: string)
    reads p, Block(p.buffer)
  {
    p.buffer != null ==>
      && TextAt(p.buffer, |pre|, s) && |pre| <= p.offset <= |pre| + |s| && p.buffer[..|pre|] == pre
  }

  ghost predicate Before(p: Buffer, pre: string)
    reads p, Block(p.buffer)
  {
    p.Valid() && (p.buffer != null ==> Done(p) == pre)
  }

  lemma {:induction false} DecimalLength(n: nat, k: nat)
    requires n < Power(k) && k > 0
    ensures |Decimal(n)| <= k
    decreases k
  {
    if n >= 10 {
      DecimalLength(n / 10, k - 1);
    }
  }

  ghost function Power(k: nat): nat {
    if k == 0 then 1 else 10 * Power(k - 1)
  }

  lemma IntLength(n: int)
    requires -0x8000_0000 <= n < 0x8000_0000
    ensures |IntText(n)| <= 11
  {
    assert Power(5) == 10_0000 && Power(10) == 100_0000_0000;
    DecimalLength(if n < 0 then -n else n, 10);
  }

  /** `print_number` into the buffer, for an int32. */
  method PrintNumber(item: Node, p: Buffer, h: Heap, ghost pre: string) returns (at: int)
    requires Before(p, pre) && Block(p.buffer) <= h.live
    requires item.valuedouble == item.valueint as real && -0x8000_0000 <= item.valueint < 0x8000_0000
    modifies p, Block(p.buffer), h
    ensures Carried(p, old(p.buffer), old(h.live), h.live, h.failures > old(h.failures))
    ensures p.buffer == old(p.buffer) || p.buffer == null || fresh(p.buffer)
    ensures Printed(p, pre, IntText(item.valueint)) && old(h.failures) <= h.failures
    ensures at == if p.buffer == null then -1 else |pre|
    ensures p.buffer != null ==> h.failures == old(h.failures)
  {
    var d := item.valuedouble;
    if d == 0.0 {
      at := Leaf(p, 2, "0", h, pre);
      assert IntText(0) == "0";
    } else {
      IntLength(item.valueint);
      at := Leaf(p, 21, IntText(item.valueint), h, pre);
    }
  }

  /**
   `print_value` into the buffer, behind the text `pre`. The text of `Render` and a NUL stand behind `pre`, which is
   unchanged; or there was no memory, and the buffer is gone. The pointer returned is that of the text, except that
   a formatted object that is not empty returns its depth, as the loop counter overwrites the saved offset.
   */
  method PrintTo(item: Node, depth: nat, fmt: bool, p: Buffer, h: Heap, ghost t: Tree, ghost pre: string)
    returns (at: int)
    requires t.node == item && Holds(t) && Ready(t)
    requires Before(p, pre) && Block(p.buffer) <= h.live
    modifies p, Block(p.buffer), h
    ensures Carried(p, old(p.buffer), old(h.live), h.live, h.failures > old(h.failures))
    ensures p.buffer == old(p.buffer) || p.buffer == null || fresh(p.buffer)
    ensures Printed(p, pre, Render(Value(t), depth, fmt)) && old(h.failures) <= h.failures
    ensures at == if p.buffer == null then -1
                  else if t.data.kind == KObject && t.kids != [] && fmt then depth
                  else |pre|
    ensures p.buffer != null ==> h.failures == old(h.failures)
    decreases t, 1
  {
    hide Quote, IntText, ReadyForest, Named, KidNodes, LowerNodes, ForestNodes, Linked, AllHold, TextAt;
    match item.kind
    case KNull => at := Leaf(p, 5, "null", h, pre);
    case KFalse => at := Leaf(p, 6, "false", h, pre);
    case KTrue => at := Leaf(p, 5, "true", h, pre);
    case KNumber => at := PrintNumber(item, p, h, pre);
    case KString => at := PrintString(p, item.valuestring.text, h, pre);
    case KArray => at := PrintArrayTo(item, depth, fmt, p, h, t, pre);
    case KObject => at := PrintObjectTo(item, depth, fmt, p, h, t, pre);
  }

  lemma Kid(t: Tree, k: nat)
    requires k < |t.kids| && Holds(t) && Ready(t)
    ensures var x := t.kids[k];
      && Holds(x) && Ready(x) && x.node.next == NodeAt(t.kids, k + 1)
      && (t.data.kind == KObject ==> x.node.name == x.data.name && x.data.name != null && NulFree(x.data.name.text))
  {
  }

  method PrintArrayTo(item: Node, depth: nat, fmt: bool, p: Buffer, h: Heap, ghost t: Tree, ghost pre: string)
    returns (at: int)
    requires t.node == item && Holds(t) && Ready(t) && t.data.kind == KArray
    requires Before(p, pre) && Block(p.buffer) <= h.live
    modifies p, Block(p.buffer), h
    ensures Carried(p, old(p.buffer), old(h.live), h.live, h.failures > old(h.failures))
    ensures p.buffer == old(p.buffer) || p.buffer == null || fresh(p.buffer)
    ensures Printed(p, pre, Render(Value(t), depth, fmt)) && old(h.failures) <= h.failures
    ensures at == if p.buffer == null then -1 else |pre|
    ensures p.buffer != null ==> h.failures == old(h.failures)
    decreases t, 0
  {
    hide ItemsBefore, Render, Value, Values, Ready, TextAt, KidNodes, LowerNodes, ForestNodes, Linked, AllHold;
    AllAllocated(t);
    ArrayText(t, depth, fmt);
    if item.child == null {
      at := Leaf(p, 3, "[]", h, pre);
      return;
    }
    at := -1;
    var i := p.offset;
    ghost var vs := Values(t.kids);
    var ok := Emit(p, 1, "[", false, h, pre);
    if !ok {
      return;
    }
    ok := PrintItems(item.child, depth + 1, fmt, p, h, t, vs, pre);
    if !ok {
      return;
    }
    ghost var body := ItemsBefore(vs, |vs|, depth + 1, fmt);
    at := Leaf(p, 2, "]", h, pre + body);
    if at >= 0 {
      Closed(p, pre, body, "]");
      at := i;
    }
  }

  lemma ArrayText(t: Tree, depth: nat, fmt: bool)
    requires t.data.kind == KArray
    ensures t.kids == [] ==> Render(Value(t), depth, fmt) == "[]"
    ensures t.kids != [] ==>
      ItemsBefore(Values(t.kids), |t.kids|, depth + 1, fmt) + "]" == Render(Value(t), depth, fmt)
    ensures ItemsBefore(Values(t.kids), 0, depth + 1, fmt) == "["
  {
    if t.kids != [] {
      ItemsBeforeAll(Values(t.kids), depth + 1, fmt);
    }
  }

  lemma Closed(p: Buffer, pre: string, body: string, end: string)
    requires p.Valid() && p.buffer != null && Done(p) == pre + body && TextAt(p.buffer, p.offset, end)
    ensures Printed(p, pre, body + end)
  {
    var n := |pre|;
    assert p.buffer[..n] == p.buffer[..p.offset][..n];
    assert p.buffer[n..n + |body + end|] == p.buffer[..p.offset][n..] + p.buffer[p.offset..p.offset + |end|];
  }

  method PrintItems(first: Node, depth: nat, fmt: bool, p: Buffer, h: Heap, ghost t: Tree, ghost vs: seq<Json>,
                    ghost pre: string)
    returns (ok: bool)
    requires t.kids != [] && first == t.kids[0].node && Holds(t) && Ready(t) && vs == Values(t.kids)
    requires Before(p, pre + ItemsBefore(vs, 0, depth, fmt)) && Block(p.buffer) <= h.live
    modifies p, Block(p.buffer), h
    ensures Carried(p, old(p.buffer), old(h.live), h.live, h.failures > old(h.failures))
    ensures p.buffer == old(p.buffer) || p.buffer == null || fresh(p.buffer)
    ensures Before(p, pre + ItemsBefore(vs, |vs|, depth, fmt)) && (!ok ==> p.buffer == null)
    ensures old(h.failures) <= h.failures && (p.buffer != null ==> h.failures == old(h.failures))
    decreases t, 0, 1
  {
    hide ItemsBefore, Values, Ready, Holds, TextAt, Done;
    var child: Node? := first;
    ghost var k: nat := 0;
    ok := true;
    while child != null
      invariant k <= |t.kids| && child == NodeAt(t.kids, k) && Holds(t)
      invariant Carried(p, old(p.buffer), old(h.live), h.live, h.failures > old(h.failures))
      invariant p.buffer == old(p.buffer) || p.buffer == null || fresh(p.buffer)
      invariant Before(p, pre + ItemsBefore(vs, k, depth, fmt))
      invariant old(h.failures) <= h.failures && (p.buffer != null ==> h.failures == old(h.failures))
      decreases |t.kids| - k
    {
      Kid(t, k);
      AllAllocated(t);
      ok := PrintItem(child, depth, fmt, p, h, t, k, vs, pre);
      if !ok {
        return;
      }
      Kid(t, k);
      child, k := child.next, k + 1;
    }
  }

  method PrintItem(child: Node, depth: nat, fmt: bool, p: Buffer, h: Heap, ghost t: Tree, ghost k: nat,
                   ghost vs: seq<Json>, ghost pre: string)
    returns (ok: bool)
    requires k < |t.kids| && child == t.kids[k].node && Holds(t) && Ready(t) && vs == Values(t.kids)
    requires Before(p, pre + ItemsBefore(vs, k, depth, fmt)) && Block(p.buffer) <= h.live
    modifies p, Block(p.buffer), h
    ensures Holds(t)
    ensures Carried(p, old(p.buffer), old(h.live), h.live, h.failures > old(h.failures))
    ensures p.buffer == old(p.buffer) || p.buffer == null || fresh(p.buffer)
    ensures Before(p, pre + ItemsBefore(vs, k + 1, depth, fmt)) && (!ok ==> p.buffer == null)
    ensures old(h.failures) <= h.failures && (p.buffer != null ==> h.failures == old(h.failures))
    decreases t, 0, 0
  {
    hide ItemsBefore, Ready, Holds, TextAt, Done, Render, KidNodes, LowerNodes, ForestNodes;
    AllAllocated(t);
    Kid(t, k);
    KidText(t, k, depth, fmt);
    ghost var before, x := pre + ItemsBefore(vs, k, depth, fmt), Render(vs[k], depth, fmt);
    var at := PrintTo(child, depth, fmt, p, h, t.kids[k], before);
    Advance(p, h, before, |before|, x);
    Kid(t, k);
    ItemStep(vs, k, depth, fmt, pre);
    ok := true;
    if child.next != null {
      ok := Emit(p, if fmt then 3 else 2, if fmt then ", " else ",", true, h, before + x);
    }
  }

  lemma KidText(t: Tree, k: nat, depth: nat, fmt: bool)
    requires k < |t.kids| && Ready(t)
    ensures NulFree(Render(Value(t.kids[k]), depth, fmt))
  {
    ReadyPrintable(t.kids[k]);
    RenderNulFree(Value(t.kids[k]), depth, fmt);
  }

  lemma ItemStep(vs: seq<Json>, k: nat, depth: nat, fmt: bool, pre: string)
    requires k < |vs|
    ensures pre + ItemsBefore(vs, k + 1, depth, fmt)
         == pre + ItemsBefore(vs, k, depth, fmt) + Render(vs[k], depth, fmt)
            + (if k + 1 == |vs| then "" else if fmt then ", " else ",")
    ensures pre + ItemsBefore(vs, k, depth, fmt) + Render(vs[k], depth, fmt) + ""
         == pre + ItemsBefore(vs, k, depth, fmt) + Render(vs[k], depth, fmt)
  {
    hide Render;
    var a, r := ItemsBefore(vs, k, depth, fmt), Render(vs[k], depth, fmt);
    var c := When(k + 1 < |vs|, "," + When(fmt, " "));
    Assoc(pre, a, r);
    Assoc(pre, a + r, c);
    assert c == if k + 1 == |vs| then "" else if fmt then ", " else ",";
  }

  method PrintObjectTo(item: Node, depth: nat, fmt: bool, p: Buffer, h: Heap, ghost t: Tree, ghost pre: string)
    returns (at: int)
    requires t.node == item && Holds(t) && Ready(t) && t.data.kind == KObject
    requires Before(p, pre) && Block(p.buffer) <= h.live
    modifies p, Block(p.buffer), h
    ensures Carried(p, old(p.buffer), old(h.live), h.live, h.failures > old(h.failures))
    ensures p.buffer == old(p.buffer) || p.buffer == null || fresh(p.buffer)
    ensures Printed(p, pre, Render(Value(t), depth, fmt)) && old(h.failures) <= h.failures
    ensures at == if p.buffer == null then -1 else if t.kids != [] && fmt then depth else |pre|
    ensures p.buffer != null ==> h.failures == old(h.failures)
    decreases t, 0
  {
    hide MembersBefore, Render, Value, Members, Ready, TextAt, Tabs;
    AllAllocated(t);
    ObjectText(t, depth, fmt);
    if item.child == null {
      at := Leaf(p, if fmt then depth + 4 else 3, "{" + When(fmt, "\n" + Tabs(depth - 1)) + "}", h, pre);
      return;
    }
    at := PrintObjectBody(item.child, depth + 1, fmt, p, h, t, pre);
  }

  /** The rest of `print_object`, for an object that is not empty and `depth` already counted up. */
  method PrintObjectBody(first: Node, depth: nat, fmt: bool, p: Buffer, h: Heap, ghost t: Tree, ghost pre: string)
    returns (at: int)
    requires t.kids != [] && first == t.kids[0].node && Holds(t) && Ready(t) && t.data.kind == KObject && depth > 0
    requires Before(p, pre) && Block(p.buffer) <= h.live
    modifies p, Block(p.buffer), h
    ensures Carried(p, old(p.buffer), old(h.live), h.live, h.failures > old(h.failures))
    ensures p.buffer == old(p.buffer) || p.buffer == null || fresh(p.buffer)
    ensures Printed(p, pre, Render(Value(t), depth - 1, fmt)) && old(h.failures) <= h.failures
    ensures at == if p.buffer == null then -1 else if fmt then depth - 1 else |pre|
    ensures p.buffer != null ==> h.failures == old(h.failures)
    decreases t, 0, 4
  {
    hide MembersBefore, Render, Value, Members, Ready, TextAt, Tabs, Holds;
    ObjectText(t, depth - 1, fmt);
    at := -1;
    var i := p.offset;
    ghost var ms := Members(t.kids);
    var ok := PrintOpening(first, depth, fmt, p, h, t, ms, pre);
    if !ok {
      return;
    }
    ghost var body := MembersBefore(ms, |ms|, depth, fmt);
    var end := When(fmt, Tabs(depth - 1)) + "}";
    at := Leaf(p, if fmt then depth + 1 else 2, end, h, pre + body);
    if at >= 0 {
      Closed(p, pre, body, end);
      at := if fmt then depth - 1 else i;
    }
  }

  /** The opening brace and the members. */
  method PrintOpening(first: Node, depth: nat, fmt: bool, p: Buffer, h: Heap, ghost t: Tree, ghost ms: seq<Member>,
                      ghost pre: string)
    returns (ok: bool)
    requires t.kids != [] && first == t.kids[0].node && Holds(t) && Ready(t) && t.data.kind == KObject && depth > 0
    requires Before(p, pre) && Block(p.buffer) <= h.live && ms == Members(t.kids)
    modifies p, Block(p.buffer), h
    ensures Carried(p, old(p.buffer), old(h.live), h.live, h.failures > old(h.failures))
    ensures p.buffer == old(p.buffer) || p.buffer == null || fresh(p.buffer)
    ensures Before(p, pre + MembersBefore(ms, |ms|, depth, fmt)) && (!ok ==> p.buffer == null)
    ensures old(h.failures) <= h.failures && (p.buffer != null ==> h.failures == old(h.failures))
    decreases t, 0, 3
  {
    hide MembersBefore, Members, Ready, Holds, TextAt, Done;
    AllAllocated(t);
    MembersBeforeNone(ms, depth, fmt);
    ok := Emit(p, if fmt then 3 else 2, "{" + When(fmt, "\n"), true, h, pre);
    if ok {
      ok := PrintMembers(first, depth, fmt, p, h, t, ms, pre);
    }
  }

  lemma MembersBeforeNone(ms: seq<Member>, depth: nat, fmt: bool)
    ensures MembersBefore(ms, 0, depth, fmt) == "{" + When(fmt, "\n")
  {
  }

  lemma ObjectText(t: Tree, depth: nat, fmt: bool)
    requires t.data.kind == KObject
    ensures t.kids == [] ==>
      && Render(Value(t), depth, fmt) == "{" + When(fmt, "\n" + Tabs(depth - 1)) + "}"
      && |Render(Value(t), depth, fmt)| < if fmt then depth + 4 else 3
    ensures t.kids != [] ==>
      MembersBefore(Members(t.kids), |t.kids|, depth + 1, fmt) + (When(fmt, Tabs(depth)) + "}")
      == Render(Value(t), depth, fmt)
  {
    hide MembersBefore, RenderMembers, Members;
    assert Value(t) == Obj(Members(t.kids)) && |Members(t.kids)| == |t.kids|;
    if t.kids != [] {
      MembersBeforeAll(Members(t.kids), depth + 1, fmt);
    }
  }

  method PrintMembers(first: Node, depth: nat, fmt: bool, p: Buffer, h: Heap, ghost t: Tree, ghost ms: seq<Member>,
                      ghost pre: string)
    returns (ok: bool)
    requires t.data.kind == KObject && depth > 0
    requires t.kids != [] && first == t.kids[0].node && Holds(t) && Ready(t) && ms == Members(t.kids)
    requires Before(p, pre + MembersBefore(ms, 0, depth, fmt)) && Block(p.buffer) <= h.live
    modifies p, Block(p.buffer), h
    ensures Carried(p, old(p.buffer), old(h.live), h.live, h.failures > old(h.failures))
    ensures p.buffer == old(p.buffer) || p.buffer == null || fresh(p.buffer)
    ensures Before(p, pre + MembersBefore(ms, |ms|, depth, fmt)) && (!ok ==> p.buffer == null)
    ensures old(h.failures) <= h.failures && (p.buffer != null ==> h.failures == old(h.failures))
    decreases t, 0, 2
  {
    hide MembersBefore, Members, Ready, Holds, TextAt, Done;
    var child: Node? := first;
    ghost var k: nat := 0;
    ok := true;
    while child != null
      invariant k <= |t.kids| && child == NodeAt(t.kids, k) && Holds(t)
      invariant Carried(p, old(p.buffer), old(h.live), h.live, h.failures > old(h.failures))
      invariant p.buffer == old(p.buffer) || p.buffer == null || fresh(p.buffer)
      invariant Before(p, pre + MembersBefore(ms, k, depth, fmt))
      invariant old(h.failures) <= h.failures && (p.buffer != null ==> h.failures == old(h.failures))
      decreases |t.kids| - k
    {
      Kid(t, k);
      AllAllocated(t);
      ok := PrintMember(child, depth, fmt, p, h, t, k, ms, pre);
      if !ok {
        return;
      }
      Kid(t, k);
      child, k := child.next, k + 1;
    }
  }

  /** The indentation, the name and the colon of a member. */
  method PrintName(name: string, depth: nat, fmt: bool, p: Buffer, h: Heap, ghost before: string) returns (ok: bool)
    requires depth > 0 && NulFree(name) && Before(p, before) && Block(p.buffer) <= h.live
    modifies p, Block(p.buffer), h
    ensures Carried(p, old(p.buffer), old(h.live), h.live, h.failures > old(h.failures))
    ensures p.buffer == old(p.buffer) || p.buffer == null || fresh(p.buffer)
    ensures Before(p, before + When(fmt, Tabs(depth)) + Quote(name) + (":" + When(fmt, "\t")))
    ensures !ok ==> p.buffer == null
    ensures old(h.failures) <= h.failures && (p.buffer != null ==> h.failures == old(h.failures))
  {
    hide TextAt, Tabs, Quote;
    ghost var b := before + When(fmt, Tabs(depth));
    if fmt {
      ok := Emit(p, depth, Tabs(depth), false, h, before);
      if !ok {
        return;
      }
    } else {
      assert before + "" == before;
    }
    var at := PrintString(p, name, h, b);
    QuoteNulFree(name);
    Advance(p, h, b, |b|, Quote(name));
    ok := Emit(p, if fmt then 2 else 1, ":" + When(fmt, "\t"), false, h, b + Quote(name));
  }

  method PrintMember(child: Node, depth: nat, fmt: bool, p: Buffer, h: Heap, ghost t: Tree, ghost k: nat,
                     ghost ms: seq<Member>, ghost pre: string)
    returns (ok: bool)
    requires t.data.kind == KObject && depth > 0
    requires k < |t.kids| && child == t.kids[k].node && Holds(t) && Ready(t) && ms == Members(t.kids)
    requires Before(p, pre + MembersBefore(ms, k, depth, fmt)) && Block(p.buffer) <= h.live
    modifies p, Block(p.buffer), h
    ensures Holds(t)
    ensures Carried(p, old(p.buffer), old(h.live), h.live, h.failures > old(h.failures))
    ensures p.buffer == old(p.buffer) || p.buffer == null || fresh(p.buffer)
    ensures Before(p, pre + MembersBefore(ms, k + 1, depth, fmt)) && (!ok ==> p.buffer == null)
    ensures old(h.failures) <= h.failures && (p.buffer != null ==> h.failures == old(h.failures))
    decreases t, 0, 1
  {
    hide MembersBefore, Ready, Holds, TextAt, Done, Render, Tabs, Quote;
    AllAllocated(t);
    Kid(t, k);
    MembersBeforeStep(ms, k, depth, fmt, pre);
    ghost var name := ms[k].key;
    ghost var b := pre + MembersBefore(ms, k, depth, fmt);
    ok := PrintName(child.name.text, depth, fmt, p, h, b);
    if !ok {
      return;
    }
    Kid(t, k);
    ghost var before := b + When(fmt, Tabs(depth)) + Quote(name) + (":" + When(fmt, "\t"));
    ok := PrintMemberValue(child, depth, fmt, p, h, t, k, ms, before);
  }

  /** The value of a member, and the comma and line end behind it. */
  method PrintMemberValue(child: Node, depth: nat, fmt: bool, p: Buffer, h: Heap, ghost t: Tree, ghost k: nat,
                          ghost ms: seq<Member>, ghost before: string)
    returns (ok: bool)
    requires k < |t.kids| && child == t.kids[k].node && Holds(t) && Ready(t) && ms == Members(t.kids)
    requires Before(p, before) && Block(p.buffer) <= h.live
    modifies p, Block(p.buffer), h
    ensures Holds(t)
    ensures Carried(p, old(p.buffer), old(h.live), h.live, h.failures > old(h.failures))
    ensures p.buffer == old(p.buffer) || p.buffer == null || fresh(p.buffer)
    ensures Before(p, before + Render(ms[k].value, depth, fmt) + (When(k + 1 < |ms|, ",") + When(fmt, "\n")))
    ensures !ok ==> p.buffer == null
    ensures old(h.failures) <= h.failures && (p.buffer != null ==> h.failures == old(h.failures))
    decreases t, 0, 0
  {
    hide Ready, Holds, TextAt, Done, Render, KidNodes, LowerNodes, ForestNodes;
    AllAllocated(t);
    Kid(t, k);
    KidText(t, k, depth, fmt);
    ghost var x := Render(ms[k].value, depth, fmt);
    var at := PrintTo(child, depth, fmt, p, h, t.kids[k], before);
    Advance(p, h, before, |before|, x);
    Kid(t, k);
    var more := child.next != null;
    var room := (if fmt then 1 else 0) + (if more then 1 else 0);
    ok := Emit(p, room + 1, When(more, ",") + When(fmt, "\n"), true, h, before + x);
  }

  lemma MembersBeforeStep(ms: seq<Member>, k: nat, depth: nat, fmt: bool, pre: string)
    requires k < |ms|
    ensures pre + MembersBefore(ms, k + 1, depth, fmt)
         == pre + MembersBefore(ms, k, depth, fmt) + When(fmt, Tabs(depth)) + Quote(ms[k].key)
            + (":" + When(fmt, "\t")) + Render(ms[k].value, depth, fmt)
            + (When(k + 1 < |ms|, ",") + When(fmt, "\n"))
  {
    hide Render, Quote, Tabs;
    var a, tabs, q, gap := MembersBefore(ms, k, depth, fmt), When(fmt, Tabs(depth)), Quote(ms[k].key), When(fmt, "\t");
    var r, c := Render(ms[k].value, depth, fmt), When(k + 1 < |ms|, ",") + When(fmt, "\n");
    var m := RenderMember(ms[k], depth, fmt);
    assert m == tabs + q + ":" + gap + r;
    Assoc(tabs + q, ":", gap);
    Assoc(tabs + q, ":" + gap, r);
    Assoc(tabs, q, ":" + gap + r);
    var b := pre + a;
    Assoc(b, tabs, q);
    Assoc(b + tabs, q, ":" + gap);
    Assoc(b + tabs, q + (":" + gap), r);
    Assoc(q, ":" + gap, r);
    Assoc(b, tabs, q + (":" + gap + r));
    Assoc(pre, a, m);
    Assoc(pre, a + m, c);
  }

  /**
   `cJSON_PrintBuffered`, with any first size. The string returned is the text of `Render`, which is what
   `cJSON_Print` and `cJSON_PrintUnformatted` return, in one new block; without memory there is no block.
   */
  method PrintBuffered(item: Node, prebuffer: nat, fmt: bool, h: Heap, ghost t: Tree) returns (out: array?<char>)
    requires t.node == item && Holds(t) && Ready(t)
    modifies h
    ensures out == null ==> h.failures > old(h.failures) && h.live == old(h.live)
    ensures out != null ==>
      && fresh(out) && TextAt(out, 0, Render(Value(t), 0, fmt))
      && h.live == old(h.live) + {out} && h.failures == old(h.failures)
  {
    hide Render, Value, Ready;
    AllAllocated(t);
    var p := new Buffer();
    p.buffer := h.Malloc(prebuffer);
    p.length := prebuffer;
    p.offset := 0;
    var at := PrintTo(item, 0, fmt, p, h, t, "");
    assert p.buffer != null ==> at == 0;
    out := if at < 0 then null else p.buffer;
  }
}
