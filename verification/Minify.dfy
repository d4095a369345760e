/** `cJSON_Minify`: white space and comments are taken out of a text, in place. */
module Minify {
  import opened Options
  import opened CText

  // ---------- what the loop computes ----------

  /** The text from the end of the line on. */
  function SkipLine(t: string): (r: string)
    ensures |r| <= |t| && (t != "" && t[0] != '\n' ==> |r| < |t|)
  {
    if t == "" || t[0] == '\n' then t else SkipLine(t[1..])
  }

  /** The text after the next star and slash; None: there is none, and the cursor leaves the text. */
  function SkipBlock(t: string): (r: Option<string>)
    ensures r.Some? ==> |r.value| < |t|
  {
    if t == "" then None
    else if t[0] == '*' && At(t, 1) == '/' then Some(t[2..])
    else SkipBlock(t[1..])
  }

  /** A string literal from after its opening quote, closing quote included, and the text after it. */
  function Literal(t: string): (r: Option<(string, string)>)
    ensures r.Some? ==> |r.value.0| + |r.value.1| == |t| && r.value.0 != ""
  {
    if t == "" then None
    else if t[0] == '"' then Some(("\"", t[1..]))
    else
      var k := if t[0] == '\\' then 2 else 1;
      if |t| < k then None
      else After(t[..k], Literal(t[k..]))
  }

  function After(done: string, o: Option<(string, string)>): Option<(string, string)> {
    match o case None => None case Some(p) => Some((done + p.0, p.1))
  }

  function Prepend(s: string, o: Option<string>): Option<string> {
    match o case None => None case Some(t) => Some(s + t)
  }

  /** The minified text; None: the C code runs past the end of an unterminated literal or comment. */
  function Minified(t: string): (r: Option<string>)
    ensures r.Some? ==> |r.value| <= |t|
    decreases |t|
  {
    if t == "" then Some("")
    else if t[0] in " \t\r\n" then Minified(t[1..])
    else if t[0] == '/' && At(t, 1) == '/' then Minified(SkipLine(t))
    else if t[0] == '/' && At(t, 1) == '*' then
      match SkipBlock(t) case None => None case Some(r) => Minified(r)
    else if t[0] == '"' then
      match Literal(t[1..]) case None => None case Some(p) => Prepend("\"" + p.0, Minified(p.1))
    else Prepend([t[0]], Minified(t[1..]))
  }

  lemma PrependPrepend(a: string, b: string, o: Option<string>)
    ensures Prepend(a, Prepend(b, o)) == Prepend(a + b, o)
  {
    if o.Some? {
      Assoc(a, b, o.value);
    }
  }

  // ---------- in place ----------

  /** What is left of the text in the buffer, from the read cursor on. */
  ghost predicate StillThere(a: array<char>, n: nat, json: nat, t: string)
    reads a
  {
    json <= n < a.Length && a[n] == '\0' && a[json..n] == t && NulFree(t)
  }

  method SkipLineComment(a: array<char>, n: nat, json: nat, ghost t: string) returns (end: nat)
    requires StillThere(a, n, json, t)
    ensures json <= end && StillThere(a, n, end, SkipLine(t))
  {
    end := json;
    ghost var u := t;
    while a[end] != '\0' && a[end] != '\n'
      invariant json <= end && StillThere(a, n, end, u) && SkipLine(u) == SkipLine(t)
      decreases n - end
    {
      end, u := end + 1, u[1..];
    }
  }

  method SkipBlockComment(a: array<char>, n: nat, json: nat, ghost t: string) returns (ok: bool, end: nat)
    requires StillThere(a, n, json, t)
    ensures ok <==> SkipBlock(t).Some?
    ensures ok ==> json <= end && StillThere(a, n, end, SkipBlock(t).value)
  {
    end := json;
    ghost var u := t;
    while a[end] != '\0' && !(a[end] == '*' && a[end + 1] == '/')
      invariant json <= end && StillThere(a, n, end, u) && SkipBlock(u) == SkipBlock(t)
      decreases n - end
    {
      assert At(u, 0) == a[end] && At(u, 1) == a[end + 1];
      end, u := end + 1, u[1..];
    }
    ok := a[end] != '\0';
    if ok {
      assert At(u, 0) == a[end] && At(u, 1) == a[end + 1];
      end := end + 2;
    }
  }

  /** `*into++ = *json++` at a character of the text. */
  method CopyChar(a: array<char>, n: nat, into: nat, json: nat, ghost t: string)
    requires into <= json && StillThere(a, n, json, t) && t != ""
    modifies a
    ensures StillThere(a, n, json + 1, t[1..])
    ensures a[..into + 1] == old(a[..into]) + [t[0]]
    ensures a[n..] == old(a[n..])
  {
    a[into] := a[json];
  }

  /** One character of a literal, or a backslash and the character it escapes. */
  method CopyUnit(a: array<char>, n: nat, into: nat, json: nat, ghost t: string) returns (ok: bool, k: nat)
    requires into <= json && StillThere(a, n, json, t) && t != ""
    modifies a
    ensures 1 <= k <= 2 && (k == 2 <==> t[0] == '\\') && (ok <==> k <= |t|)
    ensures ok ==> StillThere(a, n, json + k, t[k..]) && a[..into + k] == old(a[..into]) + t[..k]
    ensures a[n..] == old(a[n..])
  {
    ok, k := true, 1;
    if a[json] == '\\' {
      CopyChar(a, n, into, json, t);
      k := 2;
      if a[json + 1] == '\0' {
        return false, 2;
      }
      CopyChar(a, n, into + 1, json + 1, t[1..]);
    } else {
      CopyChar(a, n, into, json, t);
    }
  }

  /** One unit copied inside a literal `t` of which `done` has been copied and `u` is left. */
  method CopyInner(a: array<char>, n: nat, from: nat, json: nat, ghost u: string, ghost done: string, ghost t: string,
                   ghost pre: string)
    returns (ok: bool, into: nat, end: nat, ghost left: string, ghost copied: string)
    requires from <= json && StillThere(a, n, json, u) && u != "" && u[0] != '"'
    requires a[..from] == pre + done && Literal(t) == After(done, Literal(u))
    modifies a
    ensures !ok ==> Literal(t).None?
    ensures ok ==> from <= into <= end && json < end && StillThere(a, n, end, left)
    ensures ok ==> a[..into] == pre + copied && Literal(t) == After(copied, Literal(left))
    ensures a[n..] == old(a[n..])
  {
    hide Literal, After;
    into, end, left, copied := from, json, u, done;
    var k;
    ok, k := CopyUnit(a, n, into, end, u);
    LiteralFails(u, done, k);
    if ok {
      Assoc(pre, done, u[..k]);
      LiteralStep(u, done, k);
      into, end, left, copied := into + k, end + k, u[k..], done + u[..k];
    }
  }

  /** Copies a literal, closing quote included, from behind its opening quote. */
  method CopyLiteral(a: array<char>, n: nat, from: nat, json: nat, ghost t: string)
    returns (ok: bool, into: nat, end: nat)
    requires from <= json && StillThere(a, n, json, t)
    modifies a
    ensures ok <==> Literal(t).Some?
    ensures ok ==> from <= into <= end && json <= end && StillThere(a, n, end, Literal(t).value.1)
    ensures ok ==> a[..into] == old(a[..from]) + Literal(t).value.0
    ensures a[n..] == old(a[n..])
  {
    hide Literal, After, StillThere;
    NotAtEnd(a, n, json, t);
    into, end := from, json;
    ghost var pre, u, done := a[..from], t, "";
    EmptyPrefix(Literal(t));
    assert pre + "" == pre;
    while a[end] != '\0' && a[end] != '"'
      invariant from <= into <= end && json <= end <= n < a.Length && StillThere(a, n, end, u)
      invariant a[..into] == pre + done && a[n..] == old(a[n..])
      invariant Literal(t) == After(done, Literal(u))
      decreases n - end
    {
      NotAtEnd(a, n, end, u);
      ok, into, end, u, done := CopyInner(a, n, into, end, u, done, t, pre);
      if !ok {
        return;
      }
      NotAtEnd(a, n, end, u);
    }
    NotAtEnd(a, n, end, u);
    ok := a[end] != '\0';
    LiteralEnds(u, done);
    if ok {
      CopyChar(a, n, into, end, u);
      into, end := into + 1, end + 1;
      NotAtEnd(a, n, end, u[1..]);
      Assoc(pre, done, "\"");
    }
  }

  lemma NotAtEnd(a: array<char>, n: nat, json: nat, t: string)
    requires StillThere(a, n, json, t)
    ensures json <= n < a.Length && (t == "" <==> a[json] == '\0')
    ensures t != "" ==> t[0] == a[json]
  {
  }

  /** A whole literal with both of its quotes. */
  method CopyQuoted(a: array<char>, n: nat, from: nat, json: nat, ghost t: string)
    returns (ok: bool, into: nat, end: nat)
    requires from <= json && StillThere(a, n, json, t) && t != "" && t[0] == '"'
    modifies a
    ensures ok <==> Literal(t[1..]).Some?
    ensures ok ==> into <= end && json < end && StillThere(a, n, end, Literal(t[1..]).value.1)
    ensures ok ==> a[..into] == old(a[..from]) + ("\"" + Literal(t[1..]).value.0)
    ensures a[n..] == old(a[n..])
  {
    hide Literal;
    CopyChar(a, n, from, json, t);
    ok, into, end := CopyLiteral(a, n, from + 1, json + 1, t[1..]);
    if ok {
      Assoc(old(a[..from]), "\"", Literal(t[1..]).value.0);
    }
  }

  lemma EmptyPrefix(o: Option<(string, string)>)
    ensures After("", o) == o
  {
    if o.Some? {
      assert "" + o.value.0 == o.value.0;
    }
  }

  lemma LiteralEnds(u: string, done: string)
    requires u == "" || u[0] == '"'
    ensures After(done, Literal(u)) == if u == "" then None else Some((done + "\"", u[1..]))
  {
  }

  lemma LiteralFails(u: string, done: string, k: nat)
    requires u != "" && u[0] != '"' && k == (if u[0] == '\\' then 2 else 1)
    ensures k > |u| ==> After(done, Literal(u)).None?
  {
  }

  lemma LiteralStep(u: string, done: string, k: nat)
    requires u != "" && u[0] != '"' && k == (if u[0] == '\\' then 2 else 1) && k <= |u|
    ensures After(done, Literal(u)) == After(done + u[..k], Literal(u[k..]))
  {
    if Literal(u[k..]).Some? {
      Assoc(done, u[..k], Literal(u[k..]).value.0);
    }
  }

  lemma PrependNothing(o: Option<string>)
    ensures Prepend("", o) == o
  {
    if o.Some? {
      assert "" + o.value == o.value;
    }
  }

  /** One turn of the loop: white space, a comment, a literal or any other character; `piece` is what it writes. */
  method MinifyStep(a: array<char>, n: nat, from: nat, start: nat, ghost t: string)
    returns (ok: bool, into: nat, json: nat, ghost u: string, ghost piece: string)
    requires from <= start && StillThere(a, n, start, t) && t != ""
    modifies a
    ensures !ok ==> Minified(t).None?
    ensures ok ==> into <= json && start < json && StillThere(a, n, json, u) && Minified(t) == Prepend(piece, Minified(u))
    ensures ok ==> a[..into] == old(a[..from]) + piece
    ensures a[n..] == old(a[n..])
  {
    assert At(t, 0) == a[start] && At(t, 1) == a[start + 1];
    ok, into, json, u, piece := true, from, start, t, "";
    assert a[..from] + "" == a[..from];
    if a[json] == ' ' || a[json] == '\t' || a[json] == '\r' || a[json] == '\n' {
      json, u := json + 1, t[1..];
    } else if a[json] == '/' && a[json + 1] == '/' {
      json := SkipLineComment(a, n, json, t);
      u := SkipLine(t);
    } else if a[json] == '/' && a[json + 1] == '*' {
      ok, json := SkipBlockComment(a, n, json, t);
      if !ok {
        return;
      }
      u := SkipBlock(t).value;
    } else if a[json] == '"' {
      ok, into, json := CopyQuoted(a, n, into, json, t);
      if !ok {
        return;
      }
      u, piece := Literal(t[1..]).value.1, "\"" + Literal(t[1..]).value.0;
    } else {
      CopyChar(a, n, into, json, t);
      into, json, u, piece := into + 1, json + 1, t[1..], [t[0]];
    }
    PrependNothing(Minified(u));
  }

  /**
   `cJSON_Minify` on a buffer that holds a text of `n` characters and its NUL. The written text stays behind the
   read cursor, so nothing is overwritten before it is read, and nothing behind the NUL is touched.
   `ok` is false where the C code would leave the text.
   */
  method MinifyInPlace(a: array<char>, n: nat) returns (ok: bool, k: nat)
    requires n < a.Length && NulFree(a[..n]) && a[n] == '\0'
    modifies a
    ensures ok <==> Minified(old(a[..n])).Some?
    ensures ok ==> k <= n && a[k] == '\0' && Some(a[..k]) == Minified(old(a[..n]))
    ensures a[n + 1..] == old(a[n + 1..])
  {
    hide Minified;
    ghost var text := a[..n];
    ghost var t := text;
    var into: nat, json: nat := 0, 0;
    ok, k := true, 0;
    PrependNothing(Minified(t));
    assert a[..0] == "";
    while a[json] != '\0'
      invariant into <= json <= n < a.Length && ok && StillThere(a, n, json, t)
      invariant a[n..] == old(a[n..])
      invariant Minified(text) == Prepend(a[..into], Minified(t))
      decreases n - json
    {
      ghost var before, u, piece := a[..into], t, "";
      ok, into, json, t, piece := MinifyStep(a, n, into, json, t);
      if !ok {
        return;
      }
      PrependPrepend(before, piece, Minified(t));
    }
    MinifiedNothing();
    assert a[..into] + "" == a[..into];
    a[into] := '\0';
    k := into;
  }

  lemma MinifiedNothing()
    ensures Minified("") == Some("")
  {
  }
}
