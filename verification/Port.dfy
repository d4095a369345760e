/**
 The port that `_ubtCommWithRobot` writes into a printed message, by cutting and joining the text: in place of the
 number that follows the first occurrence of `port`, or in front of the first member when there is none.
 */
module Port {
  import opened Options
  import opened CText
  import opened Json
  import opened Keys
  import opened Parser
  import opened Grammar
  import opened Completeness
  import opened RoundTrip
  import opened PrintBuffer
  import opened StringPrinter

  /** How far the cursor moves from the name: `sizeof` of a pointer, 4 on the robot's processor, and 2. */
  const SKIP: nat := 6

  // ---------- the text ----------

  /** `strstr`: the first place where `pat` stands. */
  function FirstAt(s: string, pat: string): Option<nat> {
    if pat <= s then Some(0)
    else if s == "" then None
    else match FirstAt(s[1..], pat) case None => None case Some(i) => Some(i + 1)
  }

  function SkipDigits(s: string): string {
    if s != "" && IsDigit(s[0]) then SkipDigits(s[1..]) else s
  }

  /** The message sent; None when the cursor leaves the text. */
  function Splice(text: string, port: int): Option<string> {
    match FirstAt(text, PORT)
    case None => if text == "" then None else Some("{ \"" + PORT + "\":" + IntText(port) + ", " + text[1..])
    case Some(i) =>
      var p := i + SKIP;
      if p >= |text| then None else Some(text[..p] + (" " + IntText(port)) + SkipDigits(text[p + 1..]))
  }

  lemma {:induction false} FindFirst(s: string, pat: string)
    ensures match FirstAt(s, pat)
      case Some(i) => i <= |s| && pat <= s[i..] && forall j | 0 <= j < i :: !(pat <= s[j..])
      case None => forall j | 0 <= j <= |s| :: !(pat <= s[j..])
  {
    assert s[0..] == s;
    if !(pat <= s) && s != "" {
      FindFirst(s[1..], pat);
      assert forall j | 1 <= j <= |s| :: s[j..] == s[1..][j - 1..];
    }
  }

  // ---------- the entries of an object ----------

  /** The entries before some point, each with the comma behind it. */
  function Listed(es: seq<Entry>): string {
    if es == [] then "" else EntryText(es[0]) + es[0].after + "," + Listed(es[1..])
  }

  /** The text of an object around entry `k`. */
  lemma {:induction false} SplitAt(es: seq<Entry>, k: nat)
    requires k < |es|
    ensures EntriesText(es) == Listed(es[..k]) + (EntryText(es[k]) + (es[k].after + MembersClose(es[k..], "")))
  {
    hide EntryText;
    if k == 0 {
      assert es[0..] == es && es[..0] == [];
      var last := if |es| == 1 then "}" else "," + EntriesText(es[1..]);
      assert MembersClose(es, "") == last + "";
      Assoc(EntryText(es[0]), es[0].after, last);
    } else {
      SplitAt(es[1..], k - 1);
      assert es[..k][1..] == es[1..][..k - 1] && es[1..][k - 1..] == es[k..] && es[..k][0] == es[0];
      var rest := EntryText(es[k]) + (es[k].after + MembersClose(es[k..], ""));
      var first := EntryText(es[0]) + es[0].after;
      Assoc(first + ",", Listed(es[1..][..k - 1]), rest);
      Assoc(first, ",", EntriesText(es[1..]));
    }
  }

  lemma {:induction false} EntriesUpdate(es: seq<Entry>, k: nat, e: Entry)
    requires k < |es| && ValidEntries(es) && ValidEntry(e)
    ensures ValidEntries(es[k := e]) && DenoteEntries(es[k := e]) == DenoteEntries(es)[k := DenoteEntry(e)]
  {
    hide ValidEntry, DenoteEntry;
    if k == 0 {
      assert es[0 := e][1..] == es[1..];
    } else {
      assert es[k := e][1..] == es[1..][k - 1 := e] && es[k := e][0] == es[0];
      EntriesUpdate(es[1..], k - 1, e);
    }
  }

  /** An object with one entry changed: the text around that entry stays. */
  lemma UpdatedText(es: seq<Entry>, k: nat, e: Entry)
    requires k < |es| && e.after == es[k].after
    ensures EntriesText(es[k := e]) == Listed(es[..k]) + (EntryText(e) + (e.after + MembersClose(es[k..], "")))
  {
    SplitAt(es[k := e], k);
    assert es[k := e][..k] == es[..k] && es[k := e][k..][1..] == es[k..][1..];
  }

  /** The place of the name of member `k` in a printed object. */
  function NameAt(ms: seq<Member>, k: nat, fmt: bool): nat
    requires k < |ms|
  {
    var es := LayoutMembers(ms, 1, fmt);
    1 + |Listed(es[..k])| + |es[k].before| + 1
  }

  lemma {:induction false} PrintedEntry(ms: seq<Member>, k: nat, depth: nat, fmt: bool) returns (after: string)
    requires k < |ms|
    ensures after == When(fmt && k == |ms| - 1, "\n" + Tabs(depth - 1))
    ensures LayoutMembers(ms, depth, fmt)[k] == LayoutMember(ms[k], depth, fmt, after)
  {
    hide LayoutMember;
    if k == 0 {
      after := When(fmt && |ms| == 1, "\n" + Tabs(depth - 1));
    } else {
      after := PrintedEntry(ms[1..], k - 1, depth, fmt);
    }
  }

  lemma PortName()
    ensures StringText(LayoutString(PORT)) == "\"port\""
  {
    LayoutStringText(PORT);
    NothingEscaped(PORT);
  }

  /** The name of an entry for the port and the colon, without the white space before them. */
  const NAME := "\"port\":"

  lemma PortEntryText(e: Entry)
    requires e.key == LayoutString(PORT) && e.beforeColon == ""
    ensures EntryText(e) == (e.before + NAME) + (e.afterColon + Text(e.value))
  {
    hide LayoutString, StringText, Text;
    PortName();
    var b, a, v := e.before, e.afterColon, Text(e.value);
    assert b + "\"port\"" + "" == b + "\"port\"";
    Assoc(b, "\"port\"", ":");
    assert "\"port\"" + ":" == NAME;
    Assoc(b + NAME, a, v);
  }

  lemma {:induction false} DigitsSkipped(ds: string, rest: string)
    requires AllDigits(ds) && !IsDigit(At(rest, 0))
    ensures SkipDigits(ds + rest) == rest
  {
    if ds == "" {
      assert ds + rest == rest;
    } else {
      assert (ds + rest)[1..] == ds[1..] + rest;
      DigitsSkipped(ds[1..], rest);
    }
  }

  /** What is left of the old number: nothing, unless a tab hides its minus sign from the cursor. */
  lemma OldNumberSkipped(fmt: bool, n: int, rest: string)
    requires !IsDigit(At(rest, 0))
    ensures var t := When(fmt, "\t") + IntText(n) + rest;
      t != "" && SkipDigits(t[1..]) == if fmt && n < 0 then IntText(n) + rest else rest
  {
    var x := IntText(n);
    var t := When(fmt, "\t") + x + rest;
    if fmt {
      assert t == "\t" + x + rest && t[1..] == x + rest;
      if n >= 0 {
        DigitsSkipped(x, rest);
      }
    } else {
      assert t == x + rest && t[1..] == x[1..] + rest;
      DigitsSkipped(x[1..], rest);
    }
  }

  /** The printed text around the port of member `k`. */
  lemma TextAround(ms: seq<Member>, k: nat, fmt: bool, n: int)
    requires k < |ms| && ms[k] == Member(PORT, Num(n as real))
    ensures var es := LayoutMembers(ms, 1, fmt);
      var rest := es[k].after + MembersClose(es[k..], "");
      && !IsDigit(At(rest, 0))
      && Render(Obj(ms), 0, fmt)
         == "{" + (Listed(es[..k]) + (((es[k].before + NAME) + (When(fmt, "\t") + IntText(n))) + rest))
  {
    hide Listed, EntryText, LayoutMembers, Render, EntriesText, MembersClose, LayoutString, IntText, NumberText;
    hide LayoutNumber, IsDigit;
    var es := LayoutMembers(ms, 1, fmt);
    var after := PrintedEntry(ms, k, 1, fmt);
    LayoutText(Obj(ms), 0, fmt);
    SplitAt(es, k);
    PortEntryText(es[k]);
    LayoutNumberText(n);
    AfterEntry(es, k, fmt, after);
  }

  /** The message cut at the port and joined again. */
  lemma SplicedText(ms: seq<Member>, k: nat, fmt: bool, n: int, port: int)
    requires k < |ms| && ms[k] == Member(PORT, Num(n as real))
    requires FirstAt(Render(Obj(ms), 0, fmt), PORT) == Some(NameAt(ms, k, fmt))
    ensures var es := LayoutMembers(ms, 1, fmt);
      var e := NewEntry(es[k], port);
      var rest := e.after + MembersClose(es[k..], "");
      Splice(Render(Obj(ms), 0, fmt), port)
      == Some("{" + (Listed(es[..k]) + (EntryText(e) + (When(fmt && n < 0, IntText(n)) + rest))))
  {
    hide Listed, EntryText, LayoutMembers, Render, EntriesText, MembersClose, LayoutString, IntText, Splice, NumberText;
    hide SkipDigits, FirstAt, Layout, Tabs, LayoutNumber, IsDigit;
    var es := LayoutMembers(ms, 1, fmt);
    var after := PrintedEntry(ms, k, 1, fmt);
    var e := NewEntry(es[k], port);
    var text, gap, rest := Render(Obj(ms), 0, fmt), When(fmt, "\t"), e.after + MembersClose(es[k..], "");
    TextAround(ms, k, fmt, n);
    PortEntryText(e);
    LayoutNumberText(port);
    OldNumberSkipped(fmt, n, rest);
    CutAndJoin(text, Listed(es[..k]), e.before, gap + IntText(n), rest, port, When(fmt && n < 0, IntText(n)));
  }

  function NewEntry(e: Entry, port: int): Entry {
    e.(afterColon := " ", value := CNum(LayoutNumber(port)))
  }

  lemma AfterEntry(es: seq<Entry>, k: nat, fmt: bool, after: string)
    requires k < |es| && es[k].after == after && (after == "" || after[0] == '\n')
    ensures !IsDigit(At(es[k].after + MembersClose(es[k..], ""), 0))
  {
    var close := MembersClose(es[k..], "");
    assert At(after + close, 0) == if after == "" then close[0] else after[0];
  }

  /** The cut, on the parts of the text. */
  lemma CutAndJoin(text: string, listed: string, before: string, number: string, rest: string, port: int, left: string)
    requires text == "{" + (listed + (((before + NAME) + number) + rest))
    requires FirstAt(text, PORT) == Some(1 + |listed| + |before| + 1)
    requires number + rest != "" && SkipDigits((number + rest)[1..]) == left + rest
    ensures Splice(text, port)
         == Some("{" + (listed + (((before + NAME) + (" " + IntText(port))) + (left + rest))))
  {
    hide IntText, FirstAt;
    var name, t, j, r := before + NAME, number + rest, " " + IntText(port), left + rest;
    var front := "{" + (listed + name);
    Assoc(name, number, rest);
    Assoc(listed, name, t);
    Assoc("{", listed + name, t);
    assert text == front + t;
    var p := |front|;
    assert text[..p] == front && text[p + 1..] == t[1..];
    Assoc(name, j, r);
    Assoc(listed, name, j + r);
    Assoc("{", listed + name, j + r);
    Assoc(front, j, r);
  }

  // ---------- texts the parser turns down ----------

  lemma MembersSkip(s: string)
    ensures ParseMembers(Skip(s)) == ParseMembers(s)
  {
    SkipTwice(s);
  }

  /** Members in front of bad text do not make it good. */
  lemma {:induction false} RejectedLater(es: seq<Entry>, bad: string)
    requires ValidEntries(es) && ParseMembers(bad) == Rejected
    ensures ParseMembers(Listed(es) + bad) == Rejected
  {
    if es == [] {
      assert Listed(es) + bad == bad;
    } else {
      RejectedLater(es[1..], bad);
      var e, more := es[0], Listed(es[1..]) + bad;
      var tail := e.after + ("," + more);
      Assoc(EntryText(e) + e.after + ",", Listed(es[1..]), bad);
      Assoc(EntryText(e) + e.after, ",", more);
      Assoc(EntryText(e), e.after, "," + more);
      AfterValue(e.after, "," + more);
      WhiteSkips(e.after, "," + more);
      assert ("," + more)[1..] == more;
      ParseMemberComplete(e, tail, EntryText(e) + tail);
      hide ParseMember, EntryText, Listed, Skip, ValidEntry, ValidEntries;
      assert MoreMembers(Skip(tail)) == Rejected;
    }
  }

  /** An object whose members are turned down is turned down. */
  lemma ObjectRejected(t: string, requireNul: bool)
    requires ParseMembers(t) == Rejected && At(Skip(t), 0) != '}'
    ensures ParseText("{" + t, requireNul) == Rejected
  {
    hide ParseMembers, ParseValue, Skip;
    ValueRejected(t);
    SkipStops("{" + t);
  }

  lemma ValueRejected(t: string)
    requires ParseMembers(t) == Rejected && At(Skip(t), 0) != '}'
    ensures ParseValue("{" + t) == Rejected
  {
    hide ParseItems, ParseMembers, Skip;
    MembersSkip(t);
    var s := "{" + t;
    assert s[1..] == t && s[0] == '{';
  }

  /** An entry whose value is followed by something that neither goes on nor ends the object. */
  lemma EntryThenMinus(e: Entry, rest: string)
    requires ValidEntry(e) && At(rest, 0) == '-'
    ensures ParseMembers(EntryText(e) + rest) == Rejected
  {
    ParseMemberComplete(e, rest, EntryText(e) + rest);
    SkipStops(rest);
    hide ParseMember, EntryText, ValidEntry;
  }

  lemma {:induction false} ListedStarts(es: seq<Entry>, e: Entry, rest: string)
    requires ValidEntries(es) && ValidEntry(e)
    ensures At(Skip(Listed(es) + (EntryText(e) + rest)), 0) == '"'
  {
    hide EntryText, ValidEntry;
    var t := EntryText(e) + rest;
    if es == [] {
      assert Listed(es) + t == t;
      EntryStarts(e, rest);
    } else {
      var tail := e.after;
      Assoc(EntryText(es[0]) + es[0].after + ",", Listed(es[1..]), t);
      Assoc(EntryText(es[0]) + es[0].after, ",", Listed(es[1..]) + t);
      Assoc(EntryText(es[0]), es[0].after, "," + (Listed(es[1..]) + t));
      EntryStarts(es[0], es[0].after + ("," + (Listed(es[1..]) + t)));
    }
  }

  // ---------- the message that is sent ----------

  lemma {:induction false} ListedValid(es: seq<Entry>, k: nat)
    requires ValidEntries(es) && k < |es|
    ensures ValidEntries(es[..k]) && ValidEntry(es[k])
  {
    hide ValidEntry;
    if k > 0 {
      ListedValid(es[1..], k - 1);
      assert es[..k][1..] == es[1..][..k - 1] && es[..k][0] == es[0];
    }
  }

  lemma NewEntryValid(e: Entry, port: int)
    requires ValidEntry(e)
    ensures ValidEntry(NewEntry(e, port))
    ensures DenoteEntry(NewEntry(e, port)) == Member(TokensBytes(e.key), Num(port as real))
  {
    hide ValidTokens, TokensBytes, LayoutNumber, NumberValue, ValidNumber;
    LayoutNumberValid(port);
  }

  /**
   A printed message whose first `port` is the name of an integer member: the text sent parses to the same object
   with that member changed. It does not parse at all exactly when the message was formatted and the old port
   negative, as the cursor then stops in front of the minus sign.
   */
  lemma PortReplaced(ms: seq<Member>, k: nat, fmt: bool, n: int, port: int, requireNul: bool)
    requires PrintableMembers(ms) && k < |ms| && ms[k] == Member(PORT, Num(n as real))
    requires FirstAt(Render(Obj(ms), 0, fmt), PORT) == Some(NameAt(ms, k, fmt))
    ensures Splice(Render(Obj(ms), 0, fmt), port).Some?
    ensures ParseText(Splice(Render(Obj(ms), 0, fmt), port).value, requireNul)
         == if fmt && n < 0 then Rejected else Parsed(Obj(ms[k := Member(PORT, Num(port as real))]), "")
  {
    hide Listed, LayoutMembers, Render, EntriesText, MembersClose, LayoutString, IntText, Splice, EntryText, FirstAt;
    hide ValidEntry, DenoteEntry, ParseMembers, ParseText, Skip, DenoteEntries, ValidEntries, PrintableMembers;
    var es := LayoutMembers(ms, 1, fmt);
    var e := NewEntry(es[k], port);
    LayoutMembersValid(ms, 1, fmt);
    ListedValid(es, k);
    NewEntryValid(es[k], port);
    SplicedText(ms, k, fmt, n, port);
    if fmt && n < 0 {
      RejectedPort(es[..k], e, IntText(n) + (e.after + MembersClose(es[k..], "")), requireNul) by {
        NegativeText(n);
      }
    } else {
      var rest := e.after + MembersClose(es[k..], "");
      assert "" + rest == rest;
      EntriesUpdate(es, k, e);
      UpdatedText(es, k, e);
      SameName(ms, k, fmt);
      ParsedObject(es[k := e], requireNul);
    }
  }

  lemma NegativeText(n: int)
    requires n < 0
    ensures IntText(n) != "" && IntText(n)[0] == '-'
  {
  }

  lemma SameName(ms: seq<Member>, k: nat, fmt: bool)
    requires PrintableMembers(ms) && k < |ms|
    ensures ValidTokens(LayoutMembers(ms, 1, fmt)[k].key)
    ensures TokensBytes(LayoutMembers(ms, 1, fmt)[k].key) == ms[k].key
  {
    var after := PrintedEntry(ms, k, 1, fmt);
    NameFree(ms, k);
    LayoutStringValid(ms[k].key);
  }

  lemma {:induction false} NameFree(ms: seq<Member>, k: nat)
    requires PrintableMembers(ms) && k < |ms|
    ensures NulFree(ms[k].key)
  {
    if k > 0 {
      NameFree(ms[1..], k - 1);
    }
  }

  lemma RejectedPort(es: seq<Entry>, e: Entry, rest: string, requireNul: bool)
    requires ValidEntries(es) && ValidEntry(e) && At(rest, 0) == '-'
    ensures ParseText("{" + (Listed(es) + (EntryText(e) + rest)), requireNul) == Rejected
  {
    hide Listed, EntryText, ValidEntry, ParseMembers, ParseText, Skip;
    EntryThenMinus(e, rest);
    RejectedLater(es, EntryText(e) + rest);
    ListedStarts(es, e, rest);
    ObjectRejected(Listed(es) + (EntryText(e) + rest), requireNul);
  }

  lemma ParsedObject(es: seq<Entry>, requireNul: bool)
    requires es != [] && ValidEntries(es)
    ensures ParseText("{" + EntriesText(es), requireNul) == Parsed(Obj(DenoteEntries(es)), "")
  {
    ParseTextComplete("", CObj(es), "", requireNul);
    assert "" + Text(CObj(es)) + "" == Text(CObj(es));
  }

  /** The member that is put in front. */
  function FirstEntry(port: int): Entry {
    Entry(" ", LayoutString(PORT), "", "", CNum(LayoutNumber(port)), "")
  }

  lemma FirstEntryValid(port: int)
    ensures ValidEntry(FirstEntry(port)) && DenoteEntry(FirstEntry(port)) == Member(PORT, Num(port as real))
  {
    hide ValidTokens, TokensBytes, LayoutNumber, NumberValue, ValidNumber, LayoutString;
    LayoutStringValid(PORT);
    LayoutNumberValid(port);
  }

  lemma FirstEntryText(port: int)
    ensures EntryText(FirstEntry(port)) == " \"" + PORT + "\":" + IntText(port)
  {
    hide EntryText, LayoutNumber, LayoutString, IntText, NumberText;
    PortEntryText(FirstEntry(port));
    LayoutNumberText(port);
    assert " " + NAME == " \"" + PORT + "\":";
    assert "" + IntText(port) == IntText(port);
  }

  /**
   A printed message without any `port`: the text sent parses to the same object with the port as its first member.
   It does not parse at all exactly when the object was empty, as a comma then comes before the closing brace.
   */
  lemma PortInserted(ms: seq<Member>, fmt: bool, port: int, requireNul: bool)
    requires PrintableMembers(ms) && FirstAt(Render(Obj(ms), 0, fmt), PORT) == None
    ensures Splice(Render(Obj(ms), 0, fmt), port).Some?
    ensures ParseText(Splice(Render(Obj(ms), 0, fmt), port).value, requireNul)
         == if ms == [] then Rejected else Parsed(Obj([Member(PORT, Num(port as real))] + ms), "")
  {
    hide EntryText, ValidEntry, DenoteEntry, ParseText, LayoutString, IntText, FirstAt;
    var text, e := Render(Obj(ms), 0, fmt), FirstEntry(port);
    FirstEntryValid(port);
    assert text != "" && text[0] == '{';
    Joined(text[1..], port);
    LayoutText(Obj(ms), 0, fmt);
    if ms == [] {
      EmptyRejected(text[1..], fmt, e, requireNul);
    } else {
      var es := LayoutMembers(ms, 1, fmt);
      LayoutMembersValid(ms, 1, fmt);
      assert text[1..] == EntriesText(es);
      InFront(es, e);
      ParsedObject([e] + Spaced(es), requireNul);
    }
  }

  lemma Joined(tail: string, port: int)
    ensures "{ \"" + PORT + "\":" + IntText(port) + ", " + tail
         == "{" + (EntryText(FirstEntry(port)) + ("," + (" " + tail)))
  {
    FirstEntryText(port);
    var x, y := " \"" + PORT + "\":" + IntText(port), IntText(port);
    assert "{" + x == "{ \"" + PORT + "\":" + y;
    Assoc("{" + x, ", ", tail);
    Assoc("{", x, ", " + tail);
    Assoc(",", " ", tail);
  }

  /** The entries with a space in front. */
  function Spaced(es: seq<Entry>): seq<Entry>
    requires es != []
  {
    [es[0].(before := " " + es[0].before)] + es[1..]
  }

  lemma InFront(es: seq<Entry>, e: Entry)
    requires es != [] && ValidEntries(es) && ValidEntry(e) && e.after == ""
    ensures ValidEntries([e] + Spaced(es)) && DenoteEntries([e] + Spaced(es)) == [DenoteEntry(e)] + DenoteEntries(es)
    ensures EntriesText([e] + Spaced(es)) == EntryText(e) + ("," + (" " + EntriesText(es)))
  {
    var ss := Spaced(es);
    assert ([e] + ss)[1..] == ss && ss[1..] == es[1..];
    SpacedText(es[0]);
    hide EntryText;
    var b, last := EntryText(es[0]), if |es| == 1 then "}" else "," + EntriesText(es[1..]);
    Assoc(" ", b, es[0].after);
    Assoc(" ", b + es[0].after, last);
    assert EntryText(e) + "" == EntryText(e);
  }

  lemma SpacedText(e: Entry)
    requires ValidEntry(e)
    ensures var f := e.(before := " " + e.before);
      EntryText(f) == " " + EntryText(e) && ValidEntry(f) && DenoteEntry(f) == DenoteEntry(e)
  {
    hide Valid, Text, StringText, Denote;
    var b, k, m, a, v := e.before, StringText(e.key), e.beforeColon, e.afterColon, Text(e.value);
    Assoc(" ", b, k);
    Assoc(" ", b + k, m);
    Assoc(" ", b + k + m, ":");
    Assoc(" ", b + k + m + ":", a);
    Assoc(" ", b + k + m + ":" + a, v);
  }

  lemma EmptyRejected(tail: string, fmt: bool, e: Entry, requireNul: bool)
    requires ValidEntry(e) && e.after == "" && "{" + tail == Render(Obj([]), 0, fmt)
    ensures ParseText("{" + (EntryText(e) + ("," + (" " + tail))), requireNul) == Rejected
  {
    hide EntryText, ValidEntry, ParseText;
    var ws := When(fmt, "\n");
    assert tail == ("{" + tail)[1..] == ws + "}";
    var bad := " " + tail;
    Assoc(" ", ws, "}");
    WhiteSkips(" " + ws, "}");
    assert ParseMembers(bad) == Rejected;
    hide Skip, ParseMembers;
    RejectedLater([e], bad);
    assert [e][1..] == [] && Listed([]) == "";
    var x := EntryText(e);
    assert Listed([e]) == x + "" + "," + "" == x + ",";
    Assoc(x, ",", bad);
    EntryStarts(e, "," + bad);
    ObjectRejected(x + ("," + bad), requireNul);
  }

  // ---------- the splice in the buffers ----------

  /** The comparison at one place of the text, character by character up to the first difference. */
  method StartsAt(a: array<char>, i: nat, pat: string, ghost s: string) returns (yes: bool)
    requires TextAt(a, 0, s) && NulFree(pat) && i <= |s|
    ensures yes <==> pat <= s[i..]
  {
    var j := 0;
    assert forall x | 0 <= x < |s| :: a[x] == a[0..|s|][x];
    while j < |pat| && a[i + j] == pat[j]
      invariant j <= |pat| && i + j <= |s| && pat[..j] == s[i..i + j]
    {
      j := j + 1;
    }
    yes := j == |pat|;
    if yes {
      assert pat[..j] == pat && s[i..][..j] == s[i..i + j];
    }
  }

  /** `strstr`. */
  method StrStr(a: array<char>, pat: string, ghost s: string) returns (at: Option<nat>)
    requires TextAt(a, 0, s) && NulFree(s) && NulFree(pat) && pat != ""
    ensures at == FirstAt(s, pat)
  {
    FindFirst(s, pat);
    assert forall x | 0 <= x < |s| :: a[x] == a[0..|s|][x];
    var i := 0;
    while true
      invariant i <= |s| && forall j | 0 <= j < i :: !(pat <= s[j..])
      decreases |s| - i
    {
      var yes := StartsAt(a, i, pat, s);
      if yes {
        return Some(i);
      }
      if a[i] == '\0' {
        return None;
      }
      i := i + 1;
    }
  }

  /** `strcpy` of a text from some place on, to some place. */
  method StrCpy(to: array<char>, at: nat, from: array<char>, start: nat, ghost s: string) returns (end: nat)
    requires TextAt(from, start, s) && NulFree(s) && at + |s| < to.Length && to != from
    modifies to
    ensures end == at + |s| && to[..end] == old(to[..at]) + s && to[end] == '\0'
  {
    ghost var source := from[start..start + |s|] + "\0";
    var k := 0;
    while from[start + k] != '\0'
      invariant k <= |s| && to[..at + k] == old(to[..at]) + s[..k]
      decreases |s| - k
    {
      assert from[start + k] == source[k];
      to[at + k] := from[start + k];
      assert to[..at + k + 1] == old(to[..at]) + s[..k] + [s[k]];
      assert s[..k + 1] == s[..k] + [s[k]];
      k := k + 1;
    }
    assert from[start + k] == source[k];
    to[at + k] := '\0';
    end := at + k;
    assert k == |s| && s[..k] == s;
  }

  /** The loop over the digits of the old port. */
  method PastDigits(a: array<char>, start: nat, ghost s: string) returns (q: nat)
    requires TextAt(a, start, s) && NulFree(s)
    ensures start <= q && TextAt(a, q, SkipDigits(s))
  {
    q := start;
    ghost var t := s;
    while a[q] != '\0' && '0' <= a[q] <= '9'
      invariant start <= q && TextAt(a, q, t) && NulFree(t) && SkipDigits(t) == SkipDigits(s)
      decreases |t|
    {
      assert t != "" && t[0] == a[q..q + |t|][0];
      assert a[q + 1..q + 1 + |t[1..]|] == a[q..q + |t|][1..];
      q, t := q + 1, t[1..];
    }
    assert t != "" ==> t[0] == a[q..q + |t|][0];
  }

  /** The splice of `_ubtCommWithRobot`; the message is cut in its own buffer. `out` has room for the result. */
  method SplicePort(buffer: array<char>, port: int, out: array<char>, ghost text: string)
    requires TextAt(buffer, 0, text) && NulFree(text) && buffer != out
    requires Splice(text, port).Some? && |Splice(text, port).value| < out.Length
    modifies buffer, out
    ensures TextAt(out, 0, Splice(text, port).value)
  {
    hide FirstAt, IntText;
    var pStr := StrStr(buffer, PORT, text);
    if pStr.Some? {
      ReplacePort(buffer, pStr.value + SKIP, port, out, text);
    } else {
      var front := "{ \"" + PORT + "\":" + IntText(port) + ", ";
      var n := PutText(out, 0, front);
      assert buffer[1..1 + |text[1..]|] == buffer[0..|text|][1..];
      n := StrCpy(out, n, buffer, 1, text[1..]);
      assert out[0..0 + n] == out[..n];
    }
  }

  method ReplacePort(buffer: array<char>, p: nat, port: int, out: array<char>, ghost text: string)
    requires TextAt(buffer, 0, text) && NulFree(text) && buffer != out && p < |text|
    requires |text[..p] + (" " + IntText(port)) + SkipDigits(text[p + 1..])| < out.Length
    modifies buffer, out
    ensures TextAt(out, 0, text[..p] + (" " + IntText(port)) + SkipDigits(text[p + 1..]))
  {
    hide IntText, SkipDigits, TextAt;
    ghost var rest := SkipDigits(text[p + 1..]);
    CutAt(buffer, p, text);
    var n := StrCpy(out, 0, buffer, 0, text[..p]);
    assert out[..0] == "" && "" + text[..p] == text[..p];
    n := PutText(out, n, " " + IntText(port));
    var q := PastDigits(buffer, p + 1, text[p + 1..]);
    DigitsNulFree(text[p + 1..]);
    n := StrCpy(out, n, buffer, q, rest);
    WholeText(out, n, text[..p] + (" " + IntText(port)) + rest);
  }

  /** `*pStr = '\0'`: the text becomes the texts on either side. */
  method CutAt(buffer: array<char>, p: nat, ghost text: string)
    requires TextAt(buffer, 0, text) && p < |text|
    modifies buffer
    ensures TextAt(buffer, 0, text[..p]) && TextAt(buffer, p + 1, text[p + 1..])
  {
    ghost var was := buffer[..];
    assert was[..|text|] == text && was[|text|] == '\0';
    buffer[p] := '\0';
    CutInTwo(was, text, p);
    assert buffer[..] == was[p := '\0'];
    SameSlice(buffer, 0, p);
    SameSlice(buffer, p + 1, |text|);
  }

  lemma WholeText(a: array<char>, n: nat, s: string)
    requires n < a.Length && a[..n] == s && a[n] == '\0'
    ensures TextAt(a, 0, s)
  {
    assert a[0..0 + n] == a[..n];
  }

  lemma CutInTwo(b: string, text: string, p: nat)
    requires p < |text| < |b| && b[..|text|] == text && b[|text|] == '\0'
    ensures var c := b[p := '\0'];
      c[0..p] == text[..p] && c[p] == '\0' && c[p + 1..|text|] == text[p + 1..] && c[|text|] == '\0'
  {
  }

  lemma SameSlice(a: array<char>, i: nat, j: nat)
    requires i <= j < a.Length
    ensures a[i..j] == a[..][i..j] && a[j] == a[..][j]
  {
  }

  lemma {:induction false} DigitsNulFree(s: string)
    requires NulFree(s)
    ensures NulFree(SkipDigits(s))
  {
    if s != "" {
      DigitsNulFree(s[1..]);
    }
  }
}
