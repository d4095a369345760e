/** The swarm messages as values: what each encoder prints, and what each decoder makes of a parsed text. */
module Swarm {
  import opened Options
  import opened CText
  import opened Json
  import opened Keys
  import opened Parser
  import opened RoundTrip
  import opened HeapText
  import opened Lookup
  import PrintText

  datatype Action = GotoXYZ | ReachXYZ | ReachXYZAck | QueryXYZ | ActionEnd

  function Tag(k: Action): string {
    match k
    case GotoXYZ => "goto_xyz"
    case ReachXYZ => "reach_xyz"
    case ReachXYZAck => "reach_xyz_ack"
    case QueryXYZ => "query_xyz"
    case ActionEnd => "action_end"
  }

  /** What the decoders write through their pointers. */
  datatype Fields = Fields(seqNo: int, id: int, x: int, y: int, z: int, order: int)

  ghost predicate Int32s(f: Fields) {
    && IsInt32(f.seqNo) && IsInt32(f.id) && IsInt32(f.x) && IsInt32(f.y) && IsInt32(f.z) && IsInt32(f.order)
  }

  predicate IsInt32(n: int) {
    -0x8000_0000 <= n < 0x8000_0000
  }

  function Whole(name: string, n: int): Member {
    Member(name, Num(n as real))
  }

  // ---------- encoding ----------

  /** The members of a message, in the order the encoder adds them; `goto_xyz` has `z` twice. */
  function MembersOf(k: Action, account: string, port: int, f: Fields): seq<Member> {
    [Member(CMD, Str(CMD_SWARM)), Member(ACCOUNT, Str(account)), Member(TYPE, Str(Tag(k)))]
    + match k
      case GotoXYZ =>
        [Whole(ID, f.id), Whole(X, f.x), Whole(Y, f.y), Whole(Z, f.z), Whole(Z, f.z), Whole(ORDER, f.order),
         Whole(SEQUENCE, f.seqNo)]
      case ActionEnd => [Whole(PORT, port), Whole(SEQUENCE, f.seqNo), Whole(ID, f.id)]
      case _ => [Whole(ID, f.id), Whole(PORT, port), Whole(SEQUENCE, f.seqNo)]
  }

  function MessageText(k: Action, account: string, port: int, f: Fields): string {
    Render(Obj(MembersOf(k, account, port, f)), 0, true)
  }

  // ---------- decoding ----------

  datatype Rc = Success | Failed | DecodeFailed | Unspecified

  /** The value of the first member whose name matches. */
  function GetItem(ms: seq<Member>, name: string): Option<Json> {
    if ms == [] then None
    else if Folded(ms[0].key) == Folded(name) then Some(ms[0].value)
    else GetItem(ms[1..], name)
  }

  function ItemOf(v: Json, name: string): Option<Json> {
    if v.Obj? then GetItem(v.members, name) else None
  }

  /** What a C comparison sees of a text. */
  function UpToNul(s: string): string {
    if s == "" || s[0] == '\0' then "" else [s[0]] + UpToNul(s[1..])
  }

  /** A string member that is there must be the expected one; a missing member, or one of another kind, passes. */
  predicate Passes(v: Json, name: string, expected: string) {
    match ItemOf(v, name)
    case Some(Str(s)) => UpToNul(s) == expected
    case _ => true
  }

  function NumberIn(v: Json, name: string, before: int): int {
    match ItemOf(v, name)
    case Some(Num(n)) => Truncate(n)
    case _ => before
  }

  function Decoded(k: Action, v: Json, before: Fields): (Rc, Fields) {
    if !Passes(v, CMD, CMD_SWARM) || !Passes(v, TYPE, Tag(k)) then (Failed, before)
    else
      var f := before.(seqNo := NumberIn(v, SEQUENCE, before.seqNo), id := NumberIn(v, ID, before.id));
      (Success,
       if k != GotoXYZ then f
       else
         f.(x := NumberIn(v, X, before.x), y := NumberIn(v, Y, before.y), z := NumberIn(v, Z, before.z),
            order := NumberIn(v, ORDER, before.order)))
  }

  /** A member of this name is there, is a string, and says something else. */
  ghost predicate Contradicts(v: Json, name: string, expected: string) {
    exists s: string :: ItemOf(v, name) == Some(Str(s)) && UpToNul(s) != expected
  }

  /** What the member of this name makes of a number: its truncation, if it is one. */
  ghost predicate TakenFrom(v: Json, name: string, before: int, after: int) {
    && (forall n: real :: ItemOf(v, name) == Some(Num(n)) ==> after == Truncate(n))
    && ((forall n: real :: ItemOf(v, name) != Some(Num(n))) ==> after == before)
  }

  /**
   What a decoder makes of any object, or of any other value: it fails exactly when the command or the type is there as
   a string and is another one, and then writes nothing; otherwise it takes each number that is there as a number.
   */
  lemma DecodedExactly(k: Action, v: Json, before: Fields)
    ensures var (rc, g) := Decoded(k, v, before);
      && (rc == Failed <==> Contradicts(v, "cmd", "swarm") || Contradicts(v, "type", Tag(k)))
      && (rc == Failed ==> g == before)
      && (rc != Failed ==>
        && rc == Success && TakenFrom(v, "sequence", before.seqNo, g.seqNo) && TakenFrom(v, "id", before.id, g.id)
        && (k != GotoXYZ ==> g.x == before.x && g.y == before.y && g.z == before.z && g.order == before.order)
        && (k == GotoXYZ ==>
          && TakenFrom(v, "x", before.x, g.x) && TakenFrom(v, "y", before.y, g.y) && TakenFrom(v, "z", before.z, g.z)
          && TakenFrom(v, "order", before.order, g.order)))
  {
    hide Tag, Truncate, ItemOf, Passes, NumberIn, Contradicts, TakenFrom;
    PassesUnlessContradicted(v, CMD, CMD_SWARM);
    PassesUnlessContradicted(v, TYPE, Tag(k));
    NumberTaken(v, SEQUENCE, before.seqNo);
    NumberTaken(v, ID, before.id);
    NumberTaken(v, X, before.x);
    NumberTaken(v, Y, before.y);
    NumberTaken(v, Z, before.z);
    NumberTaken(v, ORDER, before.order);
  }

  lemma PassesUnlessContradicted(v: Json, name: string, expected: string)
    ensures Passes(v, name, expected) <==> !Contradicts(v, name, expected)
  {
    hide ItemOf, UpToNul;
    match ItemOf(v, name)
    case Some(Str(s)) => assert UpToNul(s) != expected ==> ItemOf(v, name) == Some(Str(s));
    case _ =>
  }

  lemma NumberTaken(v: Json, name: string, before: int)
    ensures TakenFrom(v, name, before, NumberIn(v, name, before))
  {
    hide ItemOf, Truncate;
  }

  // ---------- lookups in a message ----------

  predicate LowerCase(s: string) {
    forall i | 0 <= i < |s| :: 'a' <= s[i] <= 'z'
  }

  lemma {:induction false} LowerFolds(s: string)
    requires LowerCase(s)
    ensures Folded(s) == s
  {
    if s != "" {
      LowerFolds(s[1..]);
      assert [s[0]] + s[1..] == s;
    }
  }

  lemma {:induction false} ItemAtPlace(ms: seq<Member>, i: nat, name: string)
    requires i < |ms| && ms[i].key == name && LowerCase(name)
    requires forall j | 0 <= j < i :: LowerCase(ms[j].key) && ms[j].key != name
    ensures GetItem(ms, name) == Some(ms[i].value)
  {
    LowerFolds(name);
    LowerFolds(ms[0].key);
    if i > 0 {
      ItemAtPlace(ms[1..], i - 1, name);
    }
  }

  lemma Names()
    ensures LowerCase(CMD) && LowerCase(ACCOUNT) && LowerCase(TYPE) && LowerCase(PORT) && LowerCase(SEQUENCE)
    ensures LowerCase(ID) && LowerCase(X) && LowerCase(Y) && LowerCase(Z) && LowerCase(ORDER)
    ensures TYPE[0] == 't' && PORT[0] == 'p' && X[0] == 'x' && Y[0] == 'y' && Z[0] == 'z'
    ensures |CMD| == 3 && |ACCOUNT| == 7 && |TYPE| == |PORT| == 4 && |SEQUENCE| == 8 && |ID| == 2 && |ORDER| == 5
    ensures |X| == |Y| == |Z| == 1
  {
  }

  lemma HeaderItems(k: Action, account: string, port: int, f: Fields)
    ensures var ms := MembersOf(k, account, port, f);
      GetItem(ms, CMD) == Some(Str(CMD_SWARM)) && GetItem(ms, TYPE) == Some(Str(Tag(k)))
  {
    Names();
    var ms := MembersOf(k, account, port, f);
    ItemAtPlace(ms, 0, CMD);
    ItemAtPlace(ms, 2, TYPE);
  }

  /** Where a name stands first in a message. */
  function PlaceOf(k: Action, name: string): nat {
    match k
    case GotoXYZ =>
      if name == ID then 3 else if name == X then 4 else if name == Y then 5 else if name == Z then 6
      else if name == ORDER then 8 else 9
    case ActionEnd => if name == SEQUENCE then 4 else 5
    case _ => if name == ID then 3 else 5
  }

  lemma NumberItem(k: Action, account: string, port: int, f: Fields, name: string)
    requires name == ID || name == SEQUENCE || (k == GotoXYZ && name in [X, Y, Z, ORDER])
    ensures var ms := MembersOf(k, account, port, f);
      PlaceOf(k, name) < |ms| && GetItem(ms, name) == Some(ms[PlaceOf(k, name)].value)
  {
    Names();
    var ms := MembersOf(k, account, port, f);
    ItemAtPlace(ms, PlaceOf(k, name), name);
  }

  /** The numbers a decoder finds in a message are those that were encoded. */
  lemma NumbersFound(k: Action, account: string, port: int, f: Fields, before: Fields)
    ensures var v := Obj(MembersOf(k, account, port, f));
      && NumberIn(v, SEQUENCE, before.seqNo) == f.seqNo && NumberIn(v, ID, before.id) == f.id
      && (k == GotoXYZ ==>
        && NumberIn(v, X, before.x) == f.x && NumberIn(v, Y, before.y) == f.y && NumberIn(v, Z, before.z) == f.z
        && NumberIn(v, ORDER, before.order) == f.order)
  {
    hide Truncate, GetItem;
    NumberItem(k, account, port, f, SEQUENCE);
    NumberItem(k, account, port, f, ID);
    TruncateWhole(f.seqNo);
    TruncateWhole(f.id);
    if k == GotoXYZ {
      NumberItem(k, account, port, f, X);
      NumberItem(k, account, port, f, Y);
      NumberItem(k, account, port, f, Z);
      NumberItem(k, account, port, f, ORDER);
      TruncateWhole(f.x);
      TruncateWhole(f.y);
      TruncateWhole(f.z);
      TruncateWhole(f.order);
    }
  }

  // ---------- round trips ----------

  lemma {:induction false} UpToNulWhole(s: string)
    requires NulFree(s)
    ensures UpToNul(s) == s
  {
    if s != "" {
      UpToNulWhole(s[1..]);
      assert [s[0]] + s[1..] == s;
    }
  }

  lemma TagsApart(k: Action, k': Action)
    ensures NulFree(Tag(k)) && (Tag(k) == Tag(k') <==> k == k')
  {
    assert Tag(GotoXYZ)[0] == 'g' && Tag(ReachXYZ)[0] == 'r' && Tag(QueryXYZ)[0] == 'q' && Tag(ActionEnd)[0] == 'a';
    assert |Tag(ReachXYZ)| == 9 && |Tag(ReachXYZAck)| == 13 && Tag(ReachXYZAck)[0] == 'r';
  }

  /** A decoder fails exactly on the messages of the other kinds, and then writes nothing. */
  lemma DecodesOwnKind(k: Action, k': Action, account: string, port: int, f: Fields, before: Fields)
    ensures Decoded(k', Obj(MembersOf(k, account, port, f)), before)
         == if k == k' then
              (Success, if k == GotoXYZ then f else before.(seqNo := f.seqNo, id := f.id))
            else (Failed, before)
  {
    hide NumberIn, GetItem, Tag, MembersOf, NulFree;
    HeaderItems(k, account, port, f);
    NumbersFound(k, account, port, f, before);
    TagsApart(k, k');
    NamesNulFree();
    UpToNulWhole(Tag(k));
    UpToNulWhole(CMD_SWARM);
  }

  lemma MessagePrintable(k: Action, account: string, port: int, f: Fields)
    requires NulFree(account) && IsInt32(port) && Int32s(f)
    ensures Printable(Obj(MembersOf(k, account, port, f)))
  {
    hide Int32, NulFree;
    var ms := MembersOf(k, account, port, f);
    TagsApart(k, k);
    NamesNulFree();
    WholePrintable(ID, f.id);
    WholePrintable(PORT, port);
    WholePrintable(SEQUENCE, f.seqNo);
    WholePrintable(X, f.x);
    WholePrintable(Y, f.y);
    WholePrintable(Z, f.z);
    WholePrintable(ORDER, f.order);
    PrintText.AllMembers(ms);
  }

  lemma NamesNulFree()
    ensures NulFree(CMD) && NulFree(CMD_SWARM) && NulFree(ACCOUNT) && NulFree(TYPE) && NulFree(PORT)
    ensures NulFree(SEQUENCE) && NulFree(ID) && NulFree(X) && NulFree(Y) && NulFree(Z) && NulFree(ORDER)
  {
  }

  lemma WholePrintable(name: string, n: int)
    requires NulFree(name) && IsInt32(n)
    ensures PrintableMember(Whole(name, n))
  {
    assert (n as real).Floor == n;
  }

  /**
   What an encoder printed parses to the message it built, and the decoders do with it what they do with that
   message: the one of its own kind returns the fields encoded, and any other fails.
   */
  lemma EncodedThenDecoded(k: Action, k': Action, account: string, port: int, f: Fields, before: Fields)
    requires NulFree(account) && IsInt32(port) && Int32s(f)
    ensures match ParseText(MessageText(k, account, port, f), false)
      case Parsed(v, _) =>
        Decoded(k', v, before)
        == if k == k' then (Success, if k == GotoXYZ then f else before.(seqNo := f.seqNo, id := f.id))
           else (Failed, before)
      case _ => false
  {
    hide Decoded, Render, ParseText, MembersOf;
    MessagePrintable(k, account, port, f);
    PrintParseText(Obj(MembersOf(k, account, port, f)), true, false);
    DecodesOwnKind(k, k', account, port, f, before);
  }

  // ---------- what a message says ----------

  /** The account and, but for `goto_xyz`, the port are in the message under their names. */
  lemma AccountAndPort(k: Action, account: string, port: int, f: Fields)
    ensures var ms := MembersOf(k, account, port, f);
      && GetItem(ms, ACCOUNT) == Some(Str(account))
      && GetItem(ms, PORT) == if k == GotoXYZ then None else Some(Num(port as real))
  {
    hide Tag, MembersOf, GetItem;
    AccountItem(k, account, port, f);
    if k == GotoXYZ {
      NoPort(account, port, f);
    } else {
      PortItem(k, account, port, f);
    }
  }

  lemma AccountItem(k: Action, account: string, port: int, f: Fields)
    ensures GetItem(MembersOf(k, account, port, f), ACCOUNT) == Some(Str(account))
  {
    hide Tag, GetItem;
    Names();
    ItemAtPlace(MembersOf(k, account, port, f), 1, ACCOUNT);
  }

  lemma PortItem(k: Action, account: string, port: int, f: Fields)
    requires k != GotoXYZ
    ensures GetItem(MembersOf(k, account, port, f), PORT) == Some(Num(port as real))
  {
    hide Tag, GetItem;
    Names();
    ItemAtPlace(MembersOf(k, account, port, f), if k == ActionEnd then 3 else 4, PORT);
  }

  lemma NoPort(account: string, port: int, f: Fields)
    ensures GetItem(MembersOf(GotoXYZ, account, port, f), PORT) == None
  {
    hide Tag, GetItem;
    Names();
    NoItem(MembersOf(GotoXYZ, account, port, f), PORT);
  }

  lemma {:induction false} NoItem(ms: seq<Member>, name: string)
    requires LowerCase(name) && forall m | m in ms :: LowerCase(m.key) && m.key != name
    ensures GetItem(ms, name) == None
  {
    LowerFolds(name);
    if ms != [] {
      assert ms[0] in ms;
      LowerFolds(ms[0].key);
      NoItem(ms[1..], name);
    }
  }

  /** Whoever parses a message finds in it all that it was made of. */
  lemma EncodedSays(k: Action, account: string, port: int, f: Fields, requireNul: bool)
    requires NulFree(account) && IsInt32(port) && Int32s(f)
    ensures match ParseText(MessageText(k, account, port, f), requireNul)
      case Parsed(v, rest) =>
        && rest == "" && ItemOf(v, CMD) == Some(Str(CMD_SWARM)) && ItemOf(v, TYPE) == Some(Str(Tag(k)))
        && ItemOf(v, ACCOUNT) == Some(Str(account))
        && ItemOf(v, PORT) == (if k == GotoXYZ then None else Some(Num(port as real)))
        && NumberIn(v, ID, 0) == f.id && NumberIn(v, SEQUENCE, 0) == f.seqNo
        && (k == GotoXYZ ==>
          && NumberIn(v, X, 0) == f.x && NumberIn(v, Y, 0) == f.y && NumberIn(v, Z, 0) == f.z
          && NumberIn(v, ORDER, 0) == f.order)
      case _ => false
  {
    hide Render, ParseText, MembersOf, GetItem, Tag, NumberIn, NulFree;
    MessagePrintable(k, account, port, f);
    PrintParseText(Obj(MembersOf(k, account, port, f)), true, requireNul);
    HeaderItems(k, account, port, f);
    AccountAndPort(k, account, port, f);
    NumbersFound(k, account, port, f, Fields(0, 0, 0, 0, 0, 0));
  }
}
