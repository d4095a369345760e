/**
 `cJSON_Print` and `cJSON_PrintUnformatted`: every value is printed into a block of its own, whose size is added up
 before it is allocated.
 */
module Printer {
  import opened CText
  import opened Json
  import opened Nodes
  import opened Edits
  import opened PrintText
  import opened StringPrinter
  import opened PrintBuffer
  import opened BufferPrinter
  import opened Tables

  /** One new block with the text, or no memory and nothing new. */
  ghost predicate Made(out: array?<char>, s: string, live: set<object>, live0: set<object>, failures: nat,
                       failures0: nat)
    reads Block(out)
  {
    if out == null then failures > failures0 && live == live0
    else TextAt(out, 0, s) && live == live0 + {out} && failures == failures0
  }

  // ---------- leaves ----------

  /** A block of `room` bytes with a text in it. */
  method NewText(room: nat, s: string, h: Heap) returns (out: array?<char>)
    requires |s| < room
    modifies h
    ensures fresh(Block(out)) && Made(out, s, h.live, old(h.live), h.failures, old(h.failures))
  {
    out := h.Malloc(room);
    if out != null {
      var end := PutText(out, 0, s);
      out[end] := '\0';
      assert out[0..0 + |s|] == out[..end];
    }
  }

  method PrintQuoted(s: string, h: Heap) returns (out: array?<char>)
    modifies h
    ensures fresh(Block(out)) && Made(out, Quote(s), h.live, old(h.live), h.failures, old(h.failures))
  {
    hide Quote;
    var flag, size := QuotedSize(s);
    out := h.Malloc(size);
    if out != null {
      Compose(out, 0, s, flag);
      assert out[0..0 + |Quote(s)|] == out[..0 + |Quote(s)|];
    }
  }

  method PrintWhole(item: Node, h: Heap) returns (out: array?<char>)
    requires item.valuedouble == item.valueint as real && -0x8000_0000 <= item.valueint < 0x8000_0000
    modifies h
    ensures fresh(Block(out)) && Made(out, IntText(item.valueint), h.live, old(h.live), h.failures, old(h.failures))
  {
    var d := item.valuedouble;
    if d == 0.0 {
      assert IntText(0) == "0";
      out := NewText(2, "0", h);
    } else {
      IntLength(item.valueint);
      out := NewText(21, IntText(item.valueint), h);
    }
  }

  // ---------- values ----------

  /** `print_value` without a buffer. */
  method PrintValue(item: Node, depth: nat, fmt: bool, h: Heap, ghost t: Tree) returns (out: array?<char>)
    requires t.node == item && Holds(t) && Ready(t)
    modifies h
    ensures fresh(Block(out))
    ensures Made(out, Render(Value(t), depth, fmt), h.live, old(h.live), h.failures, old(h.failures))
    decreases t, 2
  {
    match item.kind
    case KNull => out := NewText(5, "null", h);
    case KFalse => out := NewText(6, "false", h);
    case KTrue => out := NewText(5, "true", h);
    case KNumber => out := PrintWhole(item, h);
    case KString => out := PrintQuoted(item.valuestring.text, h);
    case KArray => out := PrintArray(item, depth, fmt, h, t);
    case KObject => out := PrintObject(item, depth, fmt, h, t);
  }

  /** The loop that counts the children. */
  method CountKids(item: Node, ghost t: Tree) returns (n: nat)
    requires t.node == item && Holds(t)
    ensures n == |t.kids|
  {
    n := 0;
    var child := item.child;
    while child != null
      invariant n <= |t.kids| && child == NodeAt(t.kids, n)
      decreases |t.kids| - n
    {
      assert t.kids[n].node.next == NodeAt(t.kids, n + 1);
      n, child := n + 1, child.next;
    }
  }

  /** The texts of the values in an array or an object. */
  ghost function Rendered(vs: seq<Json>, depth: nat, fmt: bool): (xs: seq<string>)
    ensures |xs| == |vs| && forall k | 0 <= k < |vs| :: xs[k] == Render(vs[k], depth, fmt)
  {
    seq(|vs|, k requires 0 <= k < |vs| => Render(vs[k], depth, fmt))
  }

  // ---------- arrays ----------

  /** The `len` of `print_array` after `k` elements. */
  ghost function ItemsLen(xs: seq<string>, k: nat, fmt: bool): nat
    requires k <= |xs|
  {
    if k == 0 then 5 else ItemsLen(xs, k - 1, fmt) + |xs[k - 1]| + 2 + if fmt then 1 else 0
  }

  /** What is written up to any element, the closing bracket and a NUL fit into the `len` measured. */
  lemma {:induction false} ItemsFit(vs: seq<Json>, xs: seq<string>, k: nat, depth: nat, fmt: bool)
    requires xs == Rendered(vs, depth, fmt) && k <= |vs|
    ensures |ItemsBefore(vs, k, depth, fmt)| + 4 <= ItemsLen(xs, k, fmt) <= ItemsLen(xs, |xs|, fmt)
  {
    ItemsLenGrows(xs, k, fmt);
    if k > 0 {
      ItemsFit(vs, xs, k - 1, depth, fmt);
    }
  }

  lemma {:induction false} ItemsLenGrows(xs: seq<string>, k: nat, fmt: bool)
    requires k <= |xs|
    ensures ItemsLen(xs, k, fmt) <= ItemsLen(xs, |xs|, fmt)
    decreases |xs| - k
  {
    if k < |xs| {
      ItemsLenGrows(xs, k + 1, fmt);
    }
  }

  method PrintArray(item: Node, depth: nat, fmt: bool, h: Heap, ghost t: Tree) returns (out: array?<char>)
    requires t.node == item && Holds(t) && Ready(t) && t.data.kind == KArray
    modifies h
    ensures fresh(Block(out))
    ensures Made(out, Render(Value(t), depth, fmt), h.live, old(h.live), h.failures, old(h.failures))
    decreases t, 1
  {
    hide Render, Value, Values, Ready, Holds, TextAt, Owns, Texts, Rendered, ItemsBefore, ItemsLen;
    AllAllocated(t);
    ArrayText(t, depth, fmt);
    var n := CountKids(item, t);
    if n == 0 {
      out := NewText(3, "[]", h);
      return;
    }
    ghost var base := h.live;
    out := null;
    var entries := h.MallocTable(n);
    if entries == null {
      return;
    }
    FirstChild(t);
    ghost var vs := Values(t.kids);
    ghost var xs := Rendered(vs, depth + 1, fmt);
    var len, fail := CollectItems(item.child, depth + 1, fmt, h, entries, t, xs);
    OnlyTexts(entries[..], h, entries);
    if !fail {
      out := h.Malloc(len);
    }
    if out == null {
      FreeAll(entries, h, base);
      return;
    }
    OwnsBeside(h.live, base + {entries}, entries[..], out);
    KidTexts(t, depth + 1, fmt);
    ComposeItems(out, entries, depth + 1, fmt, h, vs, xs, base + {entries} + {out});
    h.Free(entries);
  }

  lemma KidTexts(t: Tree, depth: nat, fmt: bool)
    requires Ready(t)
    ensures forall k | 0 <= k < |t.kids| :: NulFree(Rendered(Values(t.kids), depth, fmt)[k])
  {
    forall k | 0 <= k < |t.kids|
      ensures NulFree(Rendered(Values(t.kids), depth, fmt)[k])
    {
      KidText(t, k, depth, fmt);
    }
  }

  lemma FirstChild(t: Tree)
    requires Holds(t) && t.kids != []
    ensures t.node.child == t.kids[0].node
  {
  }

  lemma OwnsBeside(live: set<object>, base: set<object>, es: seq<array?<char>>, o: object)
    requires Owns(live - {o}, base, es) && o !in live - {o} && o in live
    ensures Owns(live, base + {o}, es)
  {
  }

  /** One value printed into its entry, and its length. */
  method PrintEntry(child: Node, i: nat, depth: nat, fmt: bool, h: Heap, entries: array<array?<char>>,
                    ghost base: set<object>, ghost t: Tree, ghost xs: seq<string>)
    returns (ret: array?<char>, n: nat)
    requires i < |t.kids| && child == t.kids[i].node && Holds(t) && Ready(t)
    requires |xs| == entries.Length == |t.kids| && xs[i] == Render(Value(t.kids[i]), depth, fmt)
    requires Owns(h.live, base, entries[..]) && Texts(entries[..], xs) && entries[i] == null
    modifies h, entries
    ensures Holds(t) && entries[..] == old(entries[..])[i := ret]
    ensures Owns(h.live, base, entries[..]) && Texts(entries[..], xs)
    ensures ret != null ==> n == |xs[i]|
    ensures fresh(Block(ret)) && Made(ret, xs[i], h.live, old(h.live), h.failures, old(h.failures))
    decreases t, 0, 0
  {
    hide Render, Value, Ready, Holds, TextAt, Owns, Texts, BlocksIn;
    AllAllocated(t);
    Kid(t, i);
    KidText(t, i, depth, fmt);
    OnlyTexts(entries[..], h, entries);
    ghost var es, live := entries[..], h.live;
    ret := PrintValue(child, depth, fmt, h, t.kids[i]);
    OwnsMore(live, base, es, i, ret, h.live);
    n := 0;
    if ret != null {
      n := StrLen(ret, xs[i]);
    }
    OneMoreText(es, xs, i, ret);
    OnlyTexts(es[i := ret], h, entries);
    entries[i] := ret;
    assert entries[..] == es[i := ret];
  }

  /** The loop that prints every element into the table and adds up the sizes; it stops at a failure. */
  method CollectItems(first: Node, depth: nat, fmt: bool, h: Heap, entries: array<array?<char>>, ghost t: Tree,
                      ghost xs: seq<string>)
    returns (len: nat, fail: bool)
    requires t.kids != [] && first == t.kids[0].node && Holds(t) && Ready(t)
    requires xs == Rendered(Values(t.kids), depth, fmt) && entries.Length == |xs|
    modifies h, entries
    ensures Owns(h.live, old(h.live), entries[..]) && Texts(entries[..], xs)
    ensures if fail then h.failures > old(h.failures) else Full(entries[..]) && len == ItemsLen(xs, |xs|, fmt) && h.failures == old(h.failures)
    decreases t, 0, 1
  {
    hide Render, Value, Values, Ready, Holds, TextAt, Owns, Texts, BlocksIn, Rendered, KidNodes, LowerNodes, ForestNodes;
    AllAllocated(t);
    Clear(entries);
    OwnsNothing(h.live, entries[..]);
    NoTexts(entries[..], xs);
    len, fail := 5, false;
    var child: Node?, i := first, 0;
    while child != null && !fail
      invariant i <= |xs| && child == NodeAt(t.kids, i) && Holds(t)
      invariant Owns(h.live, old(h.live), entries[..]) && Texts(entries[..], xs)
      invariant Empty(entries[i..]) && (!fail ==> Full(entries[..i]) && len == ItemsLen(xs, i, fmt))
      invariant if fail then h.failures > old(h.failures) else h.failures == old(h.failures)
      decreases |xs| - i
    {
      ghost var es := entries[..];
      assert es[i] == entries[i..][0];
      var ret, n := PrintEntry(child, i, depth, fmt, h, entries, old(h.live), t, xs);
      Kid(t, i);
      if ret != null {
        len := len + n + 2 + if fmt then 1 else 0;
      } else {
        fail := true;
      }
      child, i := child.next, i + 1;
      assert entries[..i] == es[..i - 1] + [ret] && entries[i..] == es[i - 1..][1..];
    }
    assert entries[..|xs|] == entries[..];
  }

  /** The loop that puts the text together and frees the entries. */
  method ComposeItems(out: array<char>, entries: array<array?<char>>, depth: nat, fmt: bool, h: Heap,
                      ghost vs: seq<Json>, ghost xs: seq<string>, ghost base: set<object>)
    requires vs != [] && xs == Rendered(vs, depth, fmt) && out.Length == ItemsLen(xs, |xs|, fmt)
    requires Owns(h.live, base, entries[..]) && out in base && Texts(entries[..], xs) && Full(entries[..])
    requires forall k | 0 <= k < |xs| :: NulFree(xs[k])
    modifies h, out
    ensures TextAt(out, 0, ItemsBefore(vs, |vs|, depth, fmt) + "]") && h.live == base && h.failures == old(h.failures)
  {
    hide Render, ItemsBefore, ItemsLen, TextAt, Owns, Texts, BlocksIn;
    SameSize(entries[..], xs);
    ItemsFit(vs, xs, 0, depth, fmt);
    ItemsFit(vs, xs, |vs|, depth, fmt);
    NothingBefore(vs, depth, fmt);
    var n := entries.Length;
    NotAnEntry(h.live, base, entries[..], 0, out);
    OnlyTexts(entries[..], h, entries);
    out[0], out[1] := '[', '\0';
    var ptr := 1;
    ghost var rest := entries[..];
    for i := 0 to n
      invariant ptr == |ItemsBefore(vs, i, depth, fmt)| <= out.Length && out[..ptr] == ItemsBefore(vs, i, depth, fmt)
      invariant |rest| == n && Owns(h.live, base, rest) && Texts(rest, xs) && h.failures == old(h.failures)
      invariant Empty(rest[..i]) && rest[i..] == entries[i..]
    {
      assert rest[i] == rest[i..][0] == entries[i..][0];
      NotAnEntry(h.live, base, rest, i, out);
      OnlyTexts(rest, h, entries);
      ThisText(rest, xs, i);
      ptr := ComposeItem(out, entries[i], i, ptr, i != n - 1, depth, fmt, vs, xs);
      OwnsFreed(h.live, base, rest, i);
      h.Free(entries[i]);
      OneMoreText(rest, xs, i, null);
      assert rest[i := null][..i + 1] == rest[..i] + [null];
      assert rest[i := null][i + 1..] == rest[i..][1..];
      rest := rest[i := null];
    }
    assert rest[..n] == rest;
    OwnsNoMore(h.live, base, rest);
    ptr := PutText(out, ptr, "]");
    out[ptr] := '\0';
    Finished(out, ptr, ItemsBefore(vs, |vs|, depth, fmt) + "]");
  }

  lemma Finished(out: array<char>, end: nat, s: string)
    requires end < out.Length && out[..end] == s && out[end] == '\0'
    ensures TextAt(out, 0, s)
  {
    assert out[0..0 + |s|] == out[..end];
  }

  lemma NothingBefore(vs: seq<Json>, depth: nat, fmt: bool)
    ensures ItemsBefore(vs, 0, depth, fmt) == "["
  {
  }

  /** One element copied behind the others, with the separator where another one follows. */
  method ComposeItem(out: array<char>, entry: array<char>, i: nat, at: nat, more: bool, depth: nat, fmt: bool,
                     ghost vs: seq<Json>, ghost xs: seq<string>)
    returns (ptr: nat)
    requires i < |vs| && xs == Rendered(vs, depth, fmt) && more == (i != |vs| - 1)
    requires TextAt(entry, 0, xs[i]) && NulFree(xs[i]) && entry != out
    requires out.Length == ItemsLen(xs, |xs|, fmt)
    requires at == |ItemsBefore(vs, i, depth, fmt)| <= out.Length && out[..at] == ItemsBefore(vs, i, depth, fmt)
    modifies out
    ensures ptr == |ItemsBefore(vs, i + 1, depth, fmt)| <= out.Length
    ensures out[..ptr] == ItemsBefore(vs, i + 1, depth, fmt)
  {
    hide Render, ItemsLen, ItemsBefore;
    ItemsFit(vs, xs, i + 1, depth, fmt);
    ItemStep(vs, i, depth, fmt, "");
    ghost var before := ItemsBefore(vs, i, depth, fmt);
    assert "" + before == before;
    assert "" + ItemsBefore(vs, i + 1, depth, fmt) == ItemsBefore(vs, i + 1, depth, fmt);
    ptr := AppendText(out, at, entry, xs[i]);
    if more {
      ptr := PutText(out, ptr, if fmt then ", " else ",");
      out[ptr] := '\0';
    }
  }

  // ---------- objects ----------

  /** The `len` of `print_object` after `k` members; `depth` is already counted up. */
  ghost function MembersLen(qs: seq<string>, xs: seq<string>, k: nat, depth: nat, fmt: bool): nat
    requires k <= |qs| == |xs|
  {
    if k == 0 then 7 + if fmt then depth else 0
    else MembersLen(qs, xs, k - 1, depth, fmt) + |xs[k - 1]| + |qs[k - 1]| + 2 + if fmt then 2 + depth else 0
  }

  /** The names and the values of an object as they are printed. */
  ghost predicate PrintedPairs(ms: seq<Member>, qs: seq<string>, xs: seq<string>, depth: nat, fmt: bool) {
    && |ms| == |qs| == |xs|
    && (forall k | 0 <= k < |ms| :: qs[k] == Quote(ms[k].key) && NulFree(qs[k]))
    && (forall k | 0 <= k < |ms| :: xs[k] == Render(ms[k].value, depth, fmt) && NulFree(xs[k]))
  }

  /** What is written up to any member, the closing line and a NUL fit into the `len` measured. */
  lemma {:induction false} MembersFit(ms: seq<Member>, qs: seq<string>, xs: seq<string>, k: nat, depth: nat, fmt: bool)
    requires PrintedPairs(ms, qs, xs, depth, fmt) && k <= |ms| && depth > 0
    ensures |MembersBefore(ms, k, depth, fmt)| + 6 + (if fmt then depth - 1 else 0)
         <= MembersLen(qs, xs, k, depth, fmt) <= MembersLen(qs, xs, |xs|, depth, fmt)
  {
    hide Render, Quote;
    MembersLenGrows(qs, xs, k, depth, fmt);
    if k > 0 {
      MembersFit(ms, qs, xs, k - 1, depth, fmt);
      MemberSize(ms[k - 1], depth, fmt);
    }
  }

  lemma MemberSize(m: Member, depth: nat, fmt: bool)
    ensures |RenderMember(m, depth, fmt)|
         == |Quote(m.key)| + |Render(m.value, depth, fmt)| + 1 + if fmt then depth + 1 else 0
  {
    hide Render, Quote;
  }

  lemma {:induction false} MembersLenGrows(qs: seq<string>, xs: seq<string>, k: nat, depth: nat, fmt: bool)
    requires k <= |xs| == |qs|
    ensures MembersLen(qs, xs, k, depth, fmt) <= MembersLen(qs, xs, |xs|, depth, fmt)
    decreases |xs| - k
  {
    if k < |xs| {
      MembersLenGrows(qs, xs, k + 1, depth, fmt);
    }
  }

  method PrintObject(item: Node, depth: nat, fmt: bool, h: Heap, ghost t: Tree) returns (out: array?<char>)
    requires t.node == item && Holds(t) && Ready(t) && t.data.kind == KObject
    modifies h
    ensures fresh(Block(out))
    ensures Made(out, Render(Value(t), depth, fmt), h.live, old(h.live), h.failures, old(h.failures))
    decreases t, 1
  {
    hide Render, Value, Members, Ready, Holds, TextAt, MembersBefore, Tabs;
    AllAllocated(t);
    ObjectText(t, depth, fmt);
    var n := CountKids(item, t);
    if n == 0 {
      out := NewText(if fmt then depth + 4 else 3, "{" + When(fmt, "\n" + Tabs(depth - 1)) + "}", h);
      return;
    }
    out := null;
    var entries := h.MallocTable(n);
    if entries == null {
      return;
    }
    var names := h.MallocTable(n);
    if names == null {
      h.Free(entries);
      return;
    }
    FirstChild(t);
    out := PrintMembersInto(item.child, depth + 1, fmt, h, names, entries, t, old(h.live));
  }

  lemma ObjectPieces(t: Tree, depth: nat, fmt: bool) returns (ms: seq<Member>, qs: seq<string>, xs: seq<string>)
    requires t.data.kind == KObject && Ready(t)
    ensures ms == Members(t.kids) && PrintedPairs(ms, qs, xs, depth, fmt)
  {
    ms := Members(t.kids);
    qs := seq(|ms|, k requires 0 <= k < |ms| => Quote(ms[k].key));
    xs := seq(|ms|, k requires 0 <= k < |ms| => Render(ms[k].value, depth, fmt));
    forall k | 0 <= k < |ms|
      ensures NulFree(qs[k]) && NulFree(xs[k])
    {
      assert Ready(t.kids[k]);
      QuoteNulFree(ms[k].key);
      KidText(t, k, depth, fmt);
    }
  }

  /** The rest of `print_object`, from the two tables on. */
  method PrintMembersInto(first: Node, depth: nat, fmt: bool, h: Heap, names: array<array?<char>>,
                          entries: array<array?<char>>, ghost t: Tree, ghost base: set<object>)
    returns (out: array?<char>)
    requires t.kids != [] && first == t.kids[0].node && Holds(t) && Ready(t) && t.data.kind == KObject && depth > 0
    requires names != entries && names.Length == entries.Length == |t.kids|
    requires names !in base && entries !in base && h.live == base + {entries} + {names}
    modifies h, names, entries
    ensures fresh(Block(out))
    ensures Made(out, Render(Value(t), depth - 1, fmt), h.live, base, h.failures, old(h.failures))
    decreases t, 0, 4
  {
    hide Render, Value, Members, Ready, Holds, TextAt, MembersBefore, MembersLen, Tabs, Owns, OwnsBoth, BlocksIn, Texts;
    hide PrintedPairs;
    ghost var all := h.live;
    ObjectText(t, depth - 1, fmt);
    ghost var ms, qs, xs := ObjectPieces(t, depth, fmt);
    var len, fail := CollectMembers(first, depth, fmt, h, names, entries, t, ms, qs, xs);
    OnlyTexts(names[..], h, entries);
    OnlyTexts(entries[..], h, entries);
    out := null;
    if !fail {
      out := h.Malloc(len);
    }
    if out == null {
      FreeBoth(names, entries, h, base);
      return;
    }
    BothBeside(h.live, all, names[..], entries[..], out);
    ComposeMembers(out, names, entries, depth, fmt, h, ms, qs, xs, all + {out});
    h.Free(names);
    h.Free(entries);
  }

  lemma BothBeside(live: set<object>, base: set<object>, ns: seq<array?<char>>, es: seq<array?<char>>, o: object)
    requires OwnsBoth(live - {o}, base, ns, es) && o in live
    ensures OwnsBoth(live, base + {o}, ns, es)
  {
  }

  /** One name quoted into its entry, and its length. */
  method QuoteEntry(name: string, i: nat, h: Heap, names: array<array?<char>>, ghost base: set<object>,
                    ghost qs: seq<string>)
    returns (str: array?<char>, n: nat)
    requires i < names.Length == |qs| && qs[i] == Quote(name) && NulFree(qs[i])
    requires Owns(h.live, base, names[..]) && Texts(names[..], qs) && names[i] == null
    modifies h, names
    ensures names[..] == old(names[..])[i := str]
    ensures Owns(h.live, base, names[..]) && Texts(names[..], qs)
    ensures str != null ==> n == |qs[i]|
    ensures fresh(Block(str)) && Made(str, qs[i], h.live, old(h.live), h.failures, old(h.failures))
  {
    hide Quote, TextAt, Owns, Texts, BlocksIn;
    OnlyTexts(names[..], h, names);
    ghost var es, live := names[..], h.live;
    str := PrintQuoted(name, h);
    OwnsMore(live, base, es, i, str, h.live);
    n := 0;
    if str != null {
      n := StrLen(str, qs[i]);
    }
    OneMoreText(es, qs, i, str);
    OnlyTexts(es[i := str], h, names);
    names[i] := str;
    assert names[..] == es[i := str];
  }

  /** One member: its name and its value, whether or not the name could be printed. */
  method CollectMember(child: Node, i: nat, depth: nat, fmt: bool, h: Heap, names: array<array?<char>>,
                       entries: array<array?<char>>, ghost base: set<object>, ghost t: Tree, ghost ms: seq<Member>,
                       ghost qs: seq<string>, ghost xs: seq<string>)
    returns (size: nat, ok: bool)
    requires i < |t.kids| && child == t.kids[i].node && Holds(t) && Ready(t) && t.data.kind == KObject
    requires ms == Members(t.kids) && PrintedPairs(ms, qs, xs, depth, fmt)
    requires names != entries && names.Length == entries.Length == |t.kids|
    requires OwnsBoth(h.live, base, names[..], entries[..]) && Texts(names[..], qs) && Texts(entries[..], xs)
    requires names[i] == null && entries[i] == null
    modifies h, names, entries
    ensures Holds(t)
    ensures names[..] == old(names[..])[i := names[i]] && entries[..] == old(entries[..])[i := entries[i]]
    ensures OwnsBoth(h.live, base, names[..], entries[..]) && Texts(names[..], qs) && Texts(entries[..], xs)
    ensures ok <==> names[i] != null && entries[i] != null
    ensures ok ==> size == |xs[i]| + |qs[i]| + 2 + if fmt then 2 + depth else 0
    ensures if ok then h.failures == old(h.failures) else h.failures > old(h.failures)
    decreases t, 0, 1
  {
    hide Render, Value, Ready, Holds, TextAt, Owns, Texts, BlocksIn, KidNodes, LowerNodes, ForestNodes, Quote;
    AllAllocated(t);
    Kid(t, i);
    OnlyTexts(entries[..], h, names);
    OwnsSwapped(h.live, base, names[..], entries[..]);
    var str, n := QuoteEntry(child.name.text, i, h, names, base + BlocksIn(entries[..]), qs);
    OwnsSwapped(h.live, base, entries[..], names[..]);
    OnlyTexts(names[..], h, entries);
    var ret, m := PrintEntry(child, i, depth, fmt, h, entries, base + BlocksIn(names[..]), t, xs);
    ok := str != null && ret != null;
    size := if ok then m + n + 2 + if fmt then 2 + depth else 0 else 0;
  }

  /** The loop that prints every member into the tables and adds up the sizes; a failure does not stop it. */
  method CollectMembers(first: Node, depth: nat, fmt: bool, h: Heap, names: array<array?<char>>,
                        entries: array<array?<char>>, ghost t: Tree, ghost ms: seq<Member>, ghost qs: seq<string>,
                        ghost xs: seq<string>)
    returns (len: nat, fail: bool)
    requires t.kids != [] && first == t.kids[0].node && Holds(t) && Ready(t) && t.data.kind == KObject
    requires ms == Members(t.kids) && PrintedPairs(ms, qs, xs, depth, fmt)
    requires names != entries && names.Length == entries.Length == |t.kids|
    modifies h, names, entries
    ensures OwnsBoth(h.live, old(h.live), names[..], entries[..]) && Texts(names[..], qs) && Texts(entries[..], xs)
    ensures fail ==> h.failures > old(h.failures)
    ensures !fail ==> Full(names[..]) && Full(entries[..]) && len == MembersLen(qs, xs, |xs|, depth, fmt)
    ensures !fail ==> h.failures == old(h.failures)
    decreases t, 0, 2
  {
    hide Render, Value, Members, Ready, Holds, TextAt, Owns, OwnsBoth, Texts, BlocksIn, PrintedPairs;
    hide KidNodes, LowerNodes, ForestNodes;
    AllAllocated(t);
    Clear(names);
    Clear(entries);
    OwnsNothing(h.live, names[..]);
    OwnsNeither(h.live, names[..], entries[..]);
    SameSizes(ms, qs, xs, depth, fmt);
    NoTexts(names[..], qs);
    NoTexts(entries[..], xs);
    len, fail := 7 + if fmt then depth else 0, false;
    var child: Node?, i := first, 0;
    while child != null
      invariant i <= |t.kids| && child == NodeAt(t.kids, i) && Holds(t)
      invariant OwnsBoth(h.live, old(h.live), names[..], entries[..])
      invariant Texts(names[..], qs) && Texts(entries[..], xs)
      invariant Empty(names[i..]) && Empty(entries[i..])
      invariant !fail ==> Full(names[..i]) && Full(entries[..i]) && len == MembersLen(qs, xs, i, depth, fmt)
      invariant if fail then h.failures > old(h.failures) else h.failures == old(h.failures)
      decreases |t.kids| - i
    {
      ghost var ns, es := names[..], entries[..];
      assert ns[i] == names[i..][0] && es[i] == entries[i..][0];
      var size, ok := CollectMember(child, i, depth, fmt, h, names, entries, old(h.live), t, ms, qs, xs);
      Kid(t, i);
      if ok {
        len := len + size;
      } else {
        fail := true;
      }
      OneFurther(ns, names[..], i);
      OneFurther(es, entries[..], i);
      child, i := child.next, i + 1;
    }
    assert names[..|t.kids|] == names[..] && entries[..|t.kids|] == entries[..];
  }

  lemma OwnsNeither(live: set<object>, ns: seq<array?<char>>, es: seq<array?<char>>)
    requires Empty(ns) && Empty(es)
    ensures OwnsBoth(live, live, ns, es)
  {
  }

  lemma SameSizes(ms: seq<Member>, qs: seq<string>, xs: seq<string>, depth: nat, fmt: bool)
    requires PrintedPairs(ms, qs, xs, depth, fmt)
    ensures |ms| == |qs| == |xs|
  {
  }

  lemma OneFurther(es: seq<array?<char>>, es': seq<array?<char>>, i: nat)
    requires i < |es| == |es'| && es' == es[i := es'[i]] && Empty(es[i..])
    ensures Empty(es'[i + 1..]) && (Full(es[..i]) && es'[i] != null ==> Full(es'[..i + 1]))
  {
    assert es'[..i + 1] == es[..i] + [es'[i]] && es'[i + 1..] == es[i..][1..];
  }

  /** The loop that puts the text together and frees the names and the values. */
  method ComposeMembers(out: array<char>, names: array<array?<char>>, entries: array<array?<char>>, depth: nat,
                        fmt: bool, h: Heap, ghost ms: seq<Member>, ghost qs: seq<string>, ghost xs: seq<string>,
                        ghost base: set<object>)
    requires ms != [] && PrintedPairs(ms, qs, xs, depth, fmt) && depth > 0 && out.Length == MembersLen(qs, xs, |xs|, depth, fmt)
    requires OwnsBoth(h.live, base, names[..], entries[..]) && out in base
    requires Texts(names[..], qs) && Texts(entries[..], xs) && Full(names[..]) && Full(entries[..])
    modifies h, out
    ensures TextAt(out, 0, MembersBefore(ms, |ms|, depth, fmt) + (When(fmt, Tabs(depth - 1)) + "}"))
    ensures h.live == base && h.failures == old(h.failures)
  {
    hide Render, MembersBefore, MembersLen, TextAt, Owns, OwnsBoth, Texts, BlocksIn, Quote, Tabs, PrintedPairs, NulFree;
    SameSizes(ms, qs, xs, depth, fmt);
    SameSize(names[..], qs);
    SameSize(entries[..], xs);
    MembersFit(ms, qs, xs, 0, depth, fmt);
    MembersFit(ms, qs, xs, |ms|, depth, fmt);
    MembersBeforeNone(ms, depth, fmt);
    ghost var ns, es := names[..], entries[..];
    NeitherEntry(h.live, base, ns, es, 0, out);
    OnlyTexts(ns, h, entries);
    OnlyTexts(es, h, entries);
    var ptr := PutText(out, 0, "{" + When(fmt, "\n"));
    out[ptr] := '\0';
    assert [] + ("{" + When(fmt, "\n")) == "{" + When(fmt, "\n");
    for i := 0 to names.Length
      invariant ptr == |MembersBefore(ms, i, depth, fmt)| <= out.Length
      invariant out[..ptr] == MembersBefore(ms, i, depth, fmt)
      invariant |ns| == |es| == |ms| && OwnsBoth(h.live, base, ns, es) && h.failures == old(h.failures)
      invariant Texts(ns, qs) && Texts(es, xs)
      invariant Empty(ns[..i]) && ns[i..] == names[i..] && Empty(es[..i]) && es[i..] == entries[i..]
    {
      assert ns[i] == ns[i..][0] == names[i] && es[i] == es[i..][0] == entries[i];
      ptr, ns, es := ComposeOne(out, names, entries, i, ptr, depth, fmt, h, ms, qs, xs, ns, es, base);
    }
    assert ns[..|ms|] == ns && es[..|ms|] == es;
    OwnsNeitherMore(h.live, base, ns, es);
    ptr := PutText(out, ptr, When(fmt, Tabs(depth - 1)));
    ptr := PutText(out, ptr, "}");
    Assoc(MembersBefore(ms, |ms|, depth, fmt), When(fmt, Tabs(depth - 1)), "}");
    out[ptr] := '\0';
    Finished(out, ptr, MembersBefore(ms, |ms|, depth, fmt) + (When(fmt, Tabs(depth - 1)) + "}"));
  }

  /** One turn of that loop. */
  method ComposeOne(out: array<char>, names: array<array?<char>>, entries: array<array?<char>>, i: nat, at: nat,
                    depth: nat, fmt: bool, h: Heap, ghost ms: seq<Member>, ghost qs: seq<string>, ghost xs: seq<string>,
                    ghost ns0: seq<array?<char>>, ghost es0: seq<array?<char>>, ghost base: set<object>)
    returns (ptr: nat, ghost ns: seq<array?<char>>, ghost es: seq<array?<char>>)
    requires i < |ms| == names.Length == entries.Length == |ns0| == |es0| && PrintedPairs(ms, qs, xs, depth, fmt) && depth > 0
    requires out.Length == MembersLen(qs, xs, |xs|, depth, fmt) && out in base && OwnsBoth(h.live, base, ns0, es0)
    requires Texts(ns0, qs) && Texts(es0, xs) && ns0[i] == names[i] != null && es0[i] == entries[i] != null
    requires Empty(ns0[..i]) && Empty(es0[..i])
    requires at == |MembersBefore(ms, i, depth, fmt)| <= out.Length && out[..at] == MembersBefore(ms, i, depth, fmt)
    modifies h, out
    ensures ptr == |MembersBefore(ms, i + 1, depth, fmt)| <= out.Length
    ensures out[..ptr] == MembersBefore(ms, i + 1, depth, fmt)
    ensures ns == ns0[i := null] && es == es0[i := null] && OwnsBoth(h.live, base, ns, es) && h.failures == old(h.failures)
    ensures Texts(ns, qs) && Texts(es, xs)
    ensures Empty(ns[..i + 1]) && ns[i + 1..] == ns0[i + 1..] && Empty(es[..i + 1]) && es[i + 1..] == es0[i + 1..]
  {
    hide Render, MembersBefore, MembersLen, TextAt, Owns, OwnsBoth, Texts, BlocksIn, Quote, Tabs, PrintedPairs, NulFree;
    ns, es := ns0, es0;
    NeitherEntry(h.live, base, ns, es, i, out);
    OnlyTexts(ns, h, entries);
    OnlyTexts(es, h, entries);
    SameSizes(ms, qs, xs, depth, fmt);
    ThisText(ns, qs, i);
    ThisText(es, xs, i);
    ptr := ComposeMember(out, names[i], entries[i], i, at, i != names.Length - 1, depth, fmt, ms, qs, xs);
    OneMoreText(ns, qs, i, null);
    OneMoreText(es, xs, i, null);
    OnlyTexts(ns[i := null], h, entries);
    OnlyTexts(es[i := null], h, entries);
    ns := FreeEntry(names, i, h, base, ns, es);
    OwnsSwapped(h.live, base, ns, es);
    es := FreeEntry(entries, i, h, base, es, ns);
    OwnsSwapped(h.live, base, es, ns);
  }

  lemma NeitherEntry(live: set<object>, base: set<object>, ns: seq<array?<char>>, es: seq<array?<char>>, i: nat, o: object)
    requires OwnsBoth(live, base, ns, es) && o in base && i < |ns| == |es|
    ensures o !in BlocksIn(ns) && o !in BlocksIn(es) && o != ns[i] && o != es[i]
  {
    NotAnEntry(live, base + BlocksIn(ns), es, i, o);
    NotAnEntry(base + BlocksIn(ns), base, ns, i, o);
  }

  lemma OwnsNeitherMore(live: set<object>, base: set<object>, ns: seq<array?<char>>, es: seq<array?<char>>)
    requires OwnsBoth(live, base, ns, es) && Empty(ns) && Empty(es)
    ensures live == base
  {
    OwnsNoMore(live, base + BlocksIn(ns), es);
    OwnsNoMore(base + BlocksIn(ns), base, ns);
  }

  /** One member copied behind the others: indentation, name, colon, value, comma and line end. */
  method ComposeMember(out: array<char>, name: array<char>, entry: array<char>, i: nat, at: nat, more: bool, depth: nat,
                       fmt: bool, ghost ms: seq<Member>, ghost qs: seq<string>, ghost xs: seq<string>)
    returns (ptr: nat)
    requires i < |ms| && PrintedPairs(ms, qs, xs, depth, fmt) && depth > 0 && more == (i != |ms| - 1)
    requires TextAt(name, 0, qs[i]) && TextAt(entry, 0, xs[i]) && name != out && entry != out
    requires out.Length == MembersLen(qs, xs, |xs|, depth, fmt)
    requires at == |MembersBefore(ms, i, depth, fmt)| <= out.Length && out[..at] == MembersBefore(ms, i, depth, fmt)
    modifies out
    ensures ptr == |MembersBefore(ms, i + 1, depth, fmt)| <= out.Length
    ensures out[..ptr] == MembersBefore(ms, i + 1, depth, fmt)
  {
    hide Render, MembersLen, MembersBefore, Quote, Tabs, TextAt;
    MembersFit(ms, qs, xs, i + 1, depth, fmt);
    MembersBeforeStep(ms, i, depth, fmt, "");
    ghost var before := MembersBefore(ms, i, depth, fmt);
    assert "" + before == before;
    assert "" + MembersBefore(ms, i + 1, depth, fmt) == MembersBefore(ms, i + 1, depth, fmt);
    ptr := PutText(out, at, When(fmt, Tabs(depth)));
    ptr := AppendText(out, ptr, name, qs[i]);
    ptr := PutText(out, ptr, ":" + When(fmt, "\t"));
    ptr := AppendText(out, ptr, entry, xs[i]);
    out[ptr] := '\0';
    ptr := PutText(out, ptr, When(more, ",") + When(fmt, "\n"));
    out[ptr] := '\0';
  }
}
