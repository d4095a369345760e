/** Tables of printed texts, each text in a block of its own. */
module Tables {
  import opened CText
  import opened Nodes
  import opened PrintBuffer

  /** The blocks in a table. */
  ghost function BlocksIn(es: seq<array?<char>>): set<object> {
    set x: object | x in es
  }

  ghost predicate NoneTwice(es: seq<array?<char>>) {
    forall j, k | 0 <= j < k < |es| :: es[j] != null ==> es[j] != es[k]
  }

  /** Besides `base`, exactly the blocks in the table are live, and none of them is in the table twice. */
  ghost predicate Owns(live: set<object>, base: set<object>, es: seq<array?<char>>) {
    live == base + BlocksIn(es) && BlocksIn(es) !! base && NoneTwice(es)
  }

  /** The text of every entry that is there. */
  ghost predicate Texts(es: seq<array?<char>>, xs: seq<string>)
    reads BlocksIn(es)
  {
    |es| == |xs| && forall k | 0 <= k < |es| && es[k] != null :: TextAt(es[k], 0, xs[k])
  }

  ghost predicate Empty(es: seq<array?<char>>) {
    forall k | 0 <= k < |es| :: es[k] == null
  }

  ghost predicate Full(es: seq<array?<char>>) {
    forall k | 0 <= k < |es| :: es[k] != null
  }

  lemma OwnsNothing(live: set<object>, es: seq<array?<char>>)
    requires Empty(es)
    ensures BlocksIn(es) == {} && Owns(live, live, es)
  {
  }

  lemma OwnsNoMore(live: set<object>, base: set<object>, es: seq<array?<char>>)
    requires Owns(live, base, es) && Empty(es)
    ensures live == base
  {
    OwnsNothing(live, es);
  }

  lemma OwnsMore(live: set<object>, base: set<object>, es: seq<array?<char>>, i: nat, x: array?<char>, live': set<object>)
    requires Owns(live, base, es) && i < |es| && es[i] == null
    requires if x == null then live' == live else x !in live && live' == live + {x}
    ensures Owns(live', base, es[i := x])
  {
    var fs := es[i := x];
    assert BlocksIn(fs) == BlocksIn(es) + Block(x) by {
      assert fs[i] == x;
      forall o | o in BlocksIn(es)
        ensures o in BlocksIn(fs)
      {
        var k: nat :| k < |es| && o == es[k];
        assert fs[k] == es[k];
      }
    }
    forall j, k | 0 <= j < k < |fs| && fs[j] != null
      ensures fs[j] != fs[k]
    {
      assert j != i ==> fs[j] in BlocksIn(es);
      assert k != i && fs[k] != null ==> fs[k] in BlocksIn(es);
    }
  }

  lemma OwnsFreed(live: set<object>, base: set<object>, es: seq<array?<char>>, i: nat)
    requires Owns(live, base, es) && i < |es| && es[i] != null
    ensures es[i] in live && Owns(live - {es[i]}, base, es[i := null])
  {
    var fs := es[i := null];
    assert es[i] in BlocksIn(es);
    assert BlocksIn(fs) == BlocksIn(es) - {es[i]} by {
      forall o | o in BlocksIn(es) - {es[i]}
        ensures o in BlocksIn(fs)
      {
        var k: nat :| k < |es| && o == es[k];
        assert fs[k] == es[k];
      }
      forall o | o in BlocksIn(fs)
        ensures o in BlocksIn(es) - {es[i]}
      {
        var k: nat :| k < |fs| && o == fs[k];
        assert fs[k] == es[k] && k != i;
        assert if k < i then es[k] != es[i] else es[i] != es[k];
      }
    }
  }

  /** The same for two tables together. */
  ghost predicate OwnsBoth(live: set<object>, base: set<object>, ns: seq<array?<char>>, es: seq<array?<char>>) {
    Owns(live, base + BlocksIn(ns), es) && Owns(base + BlocksIn(ns), base, ns)
  }

  lemma OwnsSwapped(live: set<object>, base: set<object>, ns: seq<array?<char>>, es: seq<array?<char>>)
    requires OwnsBoth(live, base, ns, es)
    ensures OwnsBoth(live, base, es, ns)
  {
  }

  /** Entries are texts: neither the allocator nor a table is one. */
  lemma OnlyTexts(es: seq<array?<char>>, h: Heap, table: array<array?<char>>)
    ensures h !in BlocksIn(es) && table !in BlocksIn(es) && allocated(es) && allocated(BlocksIn(es))
  {
  }

  lemma NotAnEntry(live: set<object>, base: set<object>, es: seq<array?<char>>, i: nat, o: object)
    requires Owns(live, base, es) && o in base && i < |es|
    ensures o !in BlocksIn(es) && o != es[i]
  {
    assert es[i] != null ==> es[i] in BlocksIn(es);
  }

  lemma NoTexts(es: seq<array?<char>>, xs: seq<string>)
    requires |es| == |xs| && Empty(es)
    ensures Texts(es, xs)
  {
  }

  lemma OneMoreText(es: seq<array?<char>>, xs: seq<string>, i: nat, x: array?<char>)
    requires Texts(es, xs) && i < |es| && (x != null ==> TextAt(x, 0, xs[i]))
    ensures Texts(es[i := x], xs)
  {
  }

  lemma SameSize(es: seq<array?<char>>, xs: seq<string>)
    requires Texts(es, xs)
    ensures |es| == |xs|
  {
  }

  lemma ThisText(es: seq<array?<char>>, xs: seq<string>, i: nat)
    requires Texts(es, xs) && i < |es|
    ensures |es| == |xs| && (es[i] != null ==> TextAt(es[i], 0, xs[i]))
  {
  }

  /** `memset` of a table. */
  method Clear(entries: array<array?<char>>)
    modifies entries
    ensures Empty(entries[..])
  {
    for i := 0 to entries.Length
      invariant Empty(entries[..i])
    {
      entries[i] := null;
    }
    assert entries[..entries.Length] == entries[..];
  }

  /** Every entry that is there is freed, and the table behind them. */
  method FreeAll(entries: array<array?<char>>, h: Heap, ghost base: set<object>)
    requires Owns(h.live, base + {entries}, entries[..]) && entries !in base
    modifies h
    ensures h.live == base && h.failures == old(h.failures)
  {
    ghost var rest := entries[..];
    for i := 0 to entries.Length
      invariant |rest| == entries.Length && Owns(h.live, base + {entries}, rest) && h.failures == old(h.failures)
      invariant forall k | 0 <= k < i :: rest[k] == null
      invariant forall k | i <= k < |rest| :: rest[k] == entries[k]
    {
      if entries[i] != null {
        OwnsFreed(h.live, base + {entries}, rest, i);
        h.Free(entries[i]);
        rest := rest[i := null];
      }
    }
    OwnsNothing(h.live, rest);
    h.Free(entries);
  }

  /** `strlen`. */
  method StrLen(a: array<char>, ghost s: string) returns (n: nat)
    requires TextAt(a, 0, s) && NulFree(s)
    ensures n == |s|
  {
    n := 0;
    while a[n] != '\0'
      invariant n <= |s| && TextAt(a, 0, s)
      decreases |s| - n
    {
      assert n == |s| || a[n] == s[n];
      n := n + 1;
    }
  }

  /** The failure path of an object: every name and every value that is there is freed, and both tables. */
  method FreeBoth(names: array<array?<char>>, entries: array<array?<char>>, h: Heap, ghost base: set<object>)
    requires names.Length == entries.Length && names != entries && names !in base && entries !in base
    requires OwnsBoth(h.live, base + {entries} + {names}, names[..], entries[..])
    modifies h
    ensures h.live == base && h.failures == old(h.failures)
  {
    ghost var all := base + {entries} + {names};
    ghost var ns, es := names[..], entries[..];
    for i := 0 to names.Length
      invariant |ns| == |es| == names.Length && OwnsBoth(h.live, all, ns, es) && h.failures == old(h.failures)
      invariant Empty(ns[..i]) && ns[i..] == names[i..] && Empty(es[..i]) && es[i..] == entries[i..]
    {
      hide Owns, OwnsBoth;
      assert ns[i] == ns[i..][0] && es[i] == es[i..][0];
      ns := FreeEntry(names, i, h, all, ns, es);
      OwnsSwapped(h.live, all, ns, es);
      es := FreeEntry(entries, i, h, all, es, ns);
      OwnsSwapped(h.live, all, es, ns);
    }
    assert ns[..names.Length] == ns && es[..names.Length] == es;
    OwnsNoMore(h.live, all + BlocksIn(ns), es);
    OwnsNoMore(all + BlocksIn(ns), all, ns);
    h.Free(names);
    h.Free(entries);
  }

  /** One entry freed, if it is there; `es` is what is left of the table. */
  method FreeEntry(entries: array<array?<char>>, i: nat, h: Heap, ghost base: set<object>, ghost es: seq<array?<char>>,
                   ghost others: seq<array?<char>>)
    returns (ghost left: seq<array?<char>>)
    requires i < entries.Length == |es| && es[i] == entries[i] && OwnsBoth(h.live, base, es, others)
    requires Empty(es[..i])
    modifies h
    ensures left == es[i := null] && OwnsBoth(h.live, base, left, others) && h.failures == old(h.failures)
    ensures Empty(left[..i + 1]) && left[i + 1..] == es[i + 1..]
  {
    left := es[i := null];
    assert left[..i + 1] == es[..i] + [null];
    OwnsSwapped(h.live, base, es, others);
    if entries[i] != null {
      OwnsFreed(h.live, base + BlocksIn(others), es, i);
      h.Free(entries[i]);
    } else {
      assert left == es;
    }
    OwnsSwapped(h.live, base, others, left);
  }

  /** A text copied behind what is there: its length taken, its characters copied. */
  method AppendText(to: array<char>, at: nat, from: array<char>, ghost s: string) returns (end: nat)
    requires TextAt(from, 0, s) && NulFree(s) && at + |s| <= to.Length && to != from
    modifies to
    ensures end == at + |s| && to[..end] == old(to[..at]) + s
  {
    var tmplen := StrLen(from, s);
    assert from[..tmplen] == from[0..0 + |s|];
    CopyTo(to, at, from, tmplen);
    end := at + tmplen;
  }
}
