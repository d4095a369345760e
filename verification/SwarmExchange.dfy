/** Swarm messages from an encoder's buffer into a decoder, with and without memory for all of the message. */
module SwarmExchange {
  import opened Options
  import opened CText
  import opened Json
  import opened Keys
  import opened Parser
  import opened RoundTrip
  import opened PrintText
  import opened Nodes
  import HeapText
  import opened Lookup
  import opened PrintBuffer
  import opened Tables
  import opened Swarm
  import opened SwarmCodec

  // ---------- messages with members missing ----------

  lemma {:induction false} SublistIn(ms: seq<Member>, all: seq<Member>)
    requires Sublist(ms, all)
    ensures forall m | m in ms :: m in all
    decreases |all|
  {
    if all != [] {
      var n, i := |ms|, |all| - 1;
      if Sublist(ms, all[..i]) {
        SublistIn(ms, all[..i]);
      } else {
        SublistIn(ms[..n - 1], all[..i]);
        assert ms == ms[..n - 1] + [ms[n - 1]];
      }
    }
  }

  /** A lookup finds one of the values that members of that name have. */
  lemma {:induction false} FoundAmong(ms: seq<Member>, name: string, v: Json)
    requires forall m | m in ms && Folded(m.key) == Folded(name) :: m.value == v
    ensures GetItem(ms, name) == Some(v) || GetItem(ms, name) == None
  {
    hide Folded;
    if ms != [] {
      assert ms[0] in ms;
      FoundAmong(ms[1..], name, v);
    }
  }

  lemma NamesFold()
    ensures Folded(CMD) == CMD && Folded(ACCOUNT) == ACCOUNT && Folded(TYPE) == TYPE && Folded(PORT) == PORT
    ensures Folded(SEQUENCE) == SEQUENCE && Folded(ID) == ID && Folded(X) == X && Folded(Y) == Y && Folded(Z) == Z
    ensures Folded(ORDER) == ORDER
  {
    Names();
    LowerFolds(CMD);
    LowerFolds(ACCOUNT);
    LowerFolds(TYPE);
    LowerFolds(PORT);
    LowerFolds(SEQUENCE);
    LowerFolds(ID);
    LowerFolds(X);
    LowerFolds(Y);
    LowerFolds(Z);
    LowerFolds(ORDER);
  }

  /** The value that every member of a name has. */
  ghost predicate AllAre(ms: seq<Member>, name: string, v: Json) {
    forall i | 0 <= i < |ms| :: ms[i].key == name ==> ms[i].value == v
  }

  lemma TextValues(k: Action, account: string, port: int, f: Fields)
    ensures var ms := MembersOf(k, account, port, f);
      AllAre(ms, CMD, Str(CMD_SWARM)) && AllAre(ms, TYPE, Str(Tag(k)))
  {
    hide Tag, LowerCase;
    Names();
  }

  lemma NumberValues(k: Action, account: string, port: int, f: Fields)
    ensures var ms := MembersOf(k, account, port, f);
      AllAre(ms, SEQUENCE, Num(f.seqNo as real)) && AllAre(ms, ID, Num(f.id as real))
  {
    hide Tag, LowerCase;
    Names();
  }

  lemma PlaneValues(account: string, port: int, f: Fields)
    ensures var ms := MembersOf(GotoXYZ, account, port, f);
      AllAre(ms, X, Num(f.x as real)) && AllAre(ms, Y, Num(f.y as real))
  {
    hide Tag, LowerCase;
    Names();
  }

  lemma HeightAndOrder(account: string, port: int, f: Fields)
    ensures var ms := MembersOf(GotoXYZ, account, port, f);
      AllAre(ms, Z, Num(f.z as real)) && AllAre(ms, ORDER, Num(f.order as real))
  {
    hide Tag, LowerCase;
    Names();
  }

  /** The names in a message have no capitals. */
  lemma NamesInMessage(k: Action, account: string, port: int, f: Fields)
    ensures forall m | m in MembersOf(k, account, port, f) :: Folded(m.key) == m.key
  {
    hide Folded, Tag;
    NamesFold();
  }

  /** What is left of a message answers a lookup as the message does, or not at all. */
  lemma PartOfMessage(k: Action, account: string, port: int, f: Fields, said: seq<Member>, name: string, v: Json)
    requires Sublist(said, MembersOf(k, account, port, f)) && AllAre(MembersOf(k, account, port, f), name, v)
    requires Folded(name) == name
    ensures GetItem(said, name) == Some(v) || GetItem(said, name) == None
  {
    hide Folded, Sublist, MembersOf;
    NamesInMessage(k, account, port, f);
    SublistIn(said, MembersOf(k, account, port, f));
    FoundAmong(said, name, v);
  }

  /** A number of the message, or what was there before. */
  predicate SentOrBefore(n: int, sent: int, before: int) {
    n == sent || n == before
  }

  lemma PartOfNumber(k: Action, account: string, port: int, f: Fields, said: seq<Member>, name: string, n: int,
                     before: int)
    requires Sublist(said, MembersOf(k, account, port, f)) && Folded(name) == name
    requires AllAre(MembersOf(k, account, port, f), name, Num(n as real))
    ensures SentOrBefore(NumberIn(Obj(said), name, before), n, before)
  {
    hide Sublist, MembersOf, GetItem, HeapText.Truncate, Folded, AllAre;
    PartOfMessage(k, account, port, f, said, name, Num(n as real));
    HeapText.TruncateWhole(n);
  }

  /** What a decoder makes of what is left of a message: each field is the one sent or the one before. */
  ghost predicate Serves(k: Action, k': Action, f: Fields, said: seq<Member>, before: Fields, rc: Rc, after: Fields) {
    && (rc == Failed || rc == Success) && (rc == Failed <==> k != k' && GetItem(said, TYPE).Some?)
    && (rc == Failed ==> after == before)
    && SentOrBefore(after.seqNo, f.seqNo, before.seqNo) && SentOrBefore(after.id, f.id, before.id)
    && (k == GotoXYZ ==>
      && SentOrBefore(after.x, f.x, before.x) && SentOrBefore(after.y, f.y, before.y) && SentOrBefore(after.z, f.z, before.z)
      && SentOrBefore(after.order, f.order, before.order))
  }

  /**
   A message that lost members to failed allocations: its own decoder accepts what is left, and every field is the one
   sent or the one before. A decoder of another kind refuses it if and only if the type was not lost.
   */
  lemma PartlyDecoded(k: Action, k': Action, account: string, port: int, f: Fields, said: seq<Member>, before: Fields)
    requires Sublist(said, MembersOf(k, account, port, f))
    ensures var r := Decoded(k', Obj(said), before);
      Serves(k, k', f, said, before, r.0, r.1)
  {
    hide Sublist, GetItem, NumberIn, Tag, NulFree, MembersOf, AllAre, Folded, Passes;
    NamesFold();
    PartlyPasses(k, k', account, port, f, said);
    NumberValues(k, account, port, f);
    PartOfNumber(k, account, port, f, said, SEQUENCE, f.seqNo, before.seqNo);
    PartOfNumber(k, account, port, f, said, ID, f.id, before.id);
    if k == GotoXYZ {
      PlaneValues(account, port, f);
      HeightAndOrder(account, port, f);
      PartOfNumber(k, account, port, f, said, X, f.x, before.x);
      PartOfNumber(k, account, port, f, said, Y, f.y, before.y);
      PartOfNumber(k, account, port, f, said, Z, f.z, before.z);
      PartOfNumber(k, account, port, f, said, ORDER, f.order, before.order);
    }
  }

  lemma PartlyPasses(k: Action, k': Action, account: string, port: int, f: Fields, said: seq<Member>)
    requires Sublist(said, MembersOf(k, account, port, f))
    ensures Passes(Obj(said), CMD, CMD_SWARM)
    ensures Passes(Obj(said), TYPE, Tag(k')) <==> k == k' || GetItem(said, TYPE) == None
  {
    hide Sublist, GetItem, Tag, NulFree, MembersOf, AllAre, Folded;
    NamesFold();
    TagsApart(k, k');
    NamesNulFree();
    UpToNulWhole(Tag(k));
    UpToNulWhole(CMD_SWARM);
    TextValues(k, account, port, f);
    PartOfMessage(k, account, port, f, said, CMD, Str(CMD_SWARM));
    PartOfMessage(k, account, port, f, said, TYPE, Str(Tag(k)));
  }

  // ---------- from one buffer to the other side ----------

  /** The encoder of a kind. */
  method Encode(k: Action, account: string, port: int, f: Fields, h: Heap, sendBuf: array<char>, bufLen: nat)
    returns (rc: Sent, ghost text: array?<char>, ghost said: seq<Member>)
    requires NulFree(account) && IsInt32(port) && Int32s(f) && bufLen <= sendBuf.Length
    modifies h, sendBuf
    ensures Ends(rc, said, MembersOf(k, account, port, f), text, sendBuf, bufLen, old(sendBuf[..]), h, old(h.live),
                 old(h.failures))
  {
    hide Ends;
    match k
    case GotoXYZ => rc, text, said := EncodeGotoXYZ(account, port, f, h, sendBuf, bufLen);
    case ActionEnd => rc, text, said := EncodeActionEnd(account, port, f, h, sendBuf, bufLen);
    case _ => rc, text, said := EncodeXYZ(k, account, port, f, h, sendBuf, bufLen);
  }

  /**
   A message encoded into a buffer that is long enough for it, and the text in that buffer decoded. If no allocation
   fails, the decoder of the same kind returns the fields encoded, and every other decoder fails and writes nothing. If
   memory ran out and a text was sent all the same, the decoder finds no memory either, or serves what was left.
   */
  method Relay(k: Action, k': Action, account: string, port: int, f: Fields, h: Heap, buf: array<char>, out: Outputs)
    returns (sent: Sent, rc: Rc, ghost text: array?<char>, ghost said: seq<Member>)
    requires NulFree(account) && IsInt32(port) && Int32s(f)
    requires |MessageText(k, account, port, f)| < buf.Length
    modifies h, buf, out
    ensures h.failures == old(h.failures) ==>
      && sent == Encoded && h.live == old(h.live) + {text}
      && (rc, out.View()) == (if k != k' then (Failed, old(out.View()))
                              else (Success, if k == GotoXYZ then f else old(out.View()).(seqNo := f.seqNo, id := f.id)))
    ensures sent == Encoded ==>
      && h.live == old(h.live) + {text} && Sublist(said, MembersOf(k, account, port, f))
      && (if rc == DecodeFailed then h.failures > old(h.failures) && out.View() == old(out.View())
          else Serves(k, k', f, said, old(out.View()), rc, out.View()))
  {
    hide Render, MembersOf, Decoded, ParseText, Sublist, TextAt, Serves, NulFree;
    sent, text, said := Encode(k, account, port, f, h, buf, buf.Length);
    rc := Failed;
    if sent == Encoded {
      LeftFits(said, MembersOf(k, account, port, f));
      var n := TextLength(buf, said);
      PrintParseText(Obj(said), true, false);
      PartlyDecoded(k, k', account, port, f, said, out.View());
      DecodesOwnKind(k, k', account, port, f, out.View());
      rc := Decode(k', buf[..n], out, h);
    }
  }

  /** The length of the text in the buffer. */
  method TextLength(buf: array<char>, ghost said: seq<Member>) returns (n: nat)
    requires Printable(Obj(said)) && TextAt(buf, 0, Render(Obj(said), 0, true))
    ensures n <= buf.Length && buf[..n] == Render(Obj(said), 0, true)
  {
    hide Render;
    ghost var s := Render(Obj(said), 0, true);
    RenderNulFree(Obj(said), 0, true);
    n := StrLen(buf, s);
    assert buf[..n] == buf[0..0 + |s|];
  }

  // ---------- lengths ----------

  /** What members take up in the text of an object that is formatted. */
  ghost function Weight(ms: seq<Member>): nat {
    if ms == [] then 0 else Weight(ms[..|ms| - 1]) + |RenderMember(ms[|ms| - 1], 1, true)| + 2
  }

  lemma {:induction false} WeightFront(ms: seq<Member>)
    requires ms != []
    ensures Weight(ms) == |RenderMember(ms[0], 1, true)| + 2 + Weight(ms[1..])
  {
    hide RenderMember;
    var n := |ms|;
    if n > 1 {
      WeightFront(ms[..n - 1]);
      assert ms[..n - 1][1..] == ms[1..][..n - 2];
    }
  }

  lemma {:induction false} MembersLength(ms: seq<Member>)
    requires ms != []
    ensures |RenderMembers(ms, 1, true)| == Weight(ms)
  {
    hide RenderMember;
    WeightFront(ms);
    if |ms| > 1 {
      MembersLength(ms[1..]);
    }
  }

  lemma {:induction false} LeftWeighs(ms: seq<Member>, all: seq<Member>)
    requires Sublist(ms, all)
    ensures Weight(ms) <= Weight(all)
    decreases |all|
  {
    hide RenderMember;
    if all != [] {
      var n, i := |ms|, |all| - 1;
      if Sublist(ms, all[..i]) {
        LeftWeighs(ms, all[..i]);
      } else {
        LeftWeighs(ms[..n - 1], all[..i]);
      }
    }
  }

  /** What is left of a message is not longer than the message. */
  lemma LeftFits(ms: seq<Member>, all: seq<Member>)
    requires Sublist(ms, all)
    ensures |Render(Obj(ms), 0, true)| <= |Render(Obj(all), 0, true)|
  {
    hide RenderMembers, RenderMember;
    if all != [] && ms != [] {
      LeftWeighs(ms, all);
      MembersLength(all);
      MembersLength(ms);
    } else if all != [] {
      MembersLength(all);
    }
  }
}
