/** Facts about the printed text that both printers rely on. */
module PrintText {
  import opened CText
  import opened Json
  import opened Nodes

  /** A tree both printers can print in the plain integer form: its strings are there, its numbers are int32. */
  ghost predicate Ready(t: Tree)
    decreases t
  {
    && (t.data.kind == KNumber ==> t.data.num == t.data.whole as real && -0x8000_0000 <= t.data.whole < 0x8000_0000)
    && (t.data.kind == KString ==> t.data.str != null && NulFree(t.data.str.text))
    && ReadyForest(t.kids)
    && (t.data.kind == KObject ==> Named(t.kids))
  }

  ghost predicate ReadyForest(f: seq<Tree>)
    decreases f
  {
    forall k | 0 <= k < |f| :: Ready(f[k])
  }

  ghost predicate Named(f: seq<Tree>) {
    forall k | 0 <= k < |f| :: f[k].data.name != null && NulFree(f[k].data.name.text)
  }

  lemma {:induction false} ReadyPrintable(t: Tree)
    requires Ready(t)
    ensures Printable(Value(t))
    decreases t
  {
    forall k | 0 <= k < |t.kids|
      ensures Printable(Value(t.kids[k]))
    {
      ReadyPrintable(t.kids[k]);
    }
    match t.data.kind
    case KArray => AllItems(Values(t.kids));
    case KObject => AllMembers(Members(t.kids));
    case _ =>
  }

  lemma {:induction false} AllItems(vs: seq<Json>)
    requires forall k | 0 <= k < |vs| :: Printable(vs[k])
    ensures PrintableItems(vs)
  {
    if vs != [] {
      AllItems(vs[1..]);
    }
  }

  lemma {:induction false} AllMembers(ms: seq<Member>)
    requires forall k | 0 <= k < |ms| :: PrintableMember(ms[k])
    ensures PrintableMembers(ms)
  {
    if ms != [] {
      AllMembers(ms[1..]);
    }
  }

  // ---------- no NUL in a printed text ----------

  lemma NulFreeBoth(s: string, t: string)
    requires NulFree(s) && NulFree(t)
    ensures NulFree(s + t)
  {
  }

  lemma {:induction false} EscapeNulFree(s: string)
    requires NulFree(s)
    ensures NulFree(EscapeText(s))
  {
    if s != "" {
      EscapeNulFree(s[1..]);
      NulFreeBoth(EscapeChar(s[0]), EscapeText(s[1..]));
    }
  }

  lemma {:induction false} TabsNulFree(n: int)
    ensures NulFree(Tabs(n))
  {
    if n > 0 {
      TabsNulFree(n - 1);
    }
  }

  lemma {:induction false} RenderNulFree(v: Json, depth: nat, fmt: bool)
    requires Printable(v)
    ensures NulFree(Render(v, depth, fmt))
    decreases v, 0
  {
    match v
    case Str(s) => QuoteNulFree(s);
    case Arr(items) =>
      if items != [] {
        RenderItemsNulFree(items, depth + 1, fmt);
      }
    case Obj(members) =>
      TabsNulFree(depth - 1);
      if members != [] {
        RenderMembersNulFree(members, depth + 1, fmt);
      }
    case Num(n) => IntTextNulFree(n.Floor);
    case _ =>
  }

  lemma QuoteNulFree(s: string)
    requires NulFree(s)
    ensures NulFree(Quote(s))
  {
    EscapeNulFree(s);
  }

  lemma IntTextNulFree(n: int)
    ensures NulFree(IntText(n))
  {
    var m := if n < 0 then -n else n;
    assert forall i | 0 <= i < |Decimal(m)| :: IsDigit(Decimal(m)[i]);
  }

  lemma {:induction false} RenderItemsNulFree(items: seq<Json>, depth: nat, fmt: bool)
    requires items != [] && PrintableItems(items)
    ensures NulFree(RenderItems(items, depth, fmt))
    decreases items, 0
  {
    RenderNulFree(items[0], depth, fmt);
    if |items| > 1 {
      RenderItemsNulFree(items[1..], depth, fmt);
      NulFreeBoth("," + When(fmt, " "), RenderItems(items[1..], depth, fmt));
      NulFreeBoth(Render(items[0], depth, fmt), "," + When(fmt, " ") + RenderItems(items[1..], depth, fmt));
    }
  }

  lemma {:induction false} RenderMemberNulFree(m: Member, depth: nat, fmt: bool)
    requires PrintableMember(m)
    ensures NulFree(RenderMember(m, depth, fmt))
    decreases m, 1
  {
    RenderNulFree(m.value, depth, fmt);
    QuoteNulFree(m.key);
    TabsNulFree(depth);
    NulFreeBoth(When(fmt, Tabs(depth)) + Quote(m.key) + ":" + When(fmt, "\t"), Render(m.value, depth, fmt));
  }

  lemma {:induction false} RenderMembersNulFree(members: seq<Member>, depth: nat, fmt: bool)
    requires members != [] && PrintableMembers(members)
    ensures NulFree(RenderMembers(members, depth, fmt))
    decreases members, 0
  {
    RenderMemberNulFree(members[0], depth, fmt);
    TabsNulFree(depth - 1);
    if |members| > 1 {
      RenderMembersNulFree(members[1..], depth, fmt);
      NulFreeBoth("," + When(fmt, "\n"), RenderMembers(members[1..], depth, fmt));
      NulFreeBoth(RenderMember(members[0], depth, fmt), "," + When(fmt, "\n") + RenderMembers(members[1..], depth, fmt));
    }
  }
}
