/**
 The recursive-descent parser as a function: what `cJSON_ParseWithOpts` makes of a text.
 A `const char*` cursor is the text that is left; `Undefined` is the outcome of an input on which the C code
 reads or writes outside its buffers, which only a malformed escape sequence can bring about.
 */
module Parser {
  import opened Options
  import opened CText
  import opened Json
  import opened Numbers
  import opened Unicode

  datatype Outcome<+T> =
    | Parsed(value: T, rest: string)
    | Rejected
    | Undefined
  {
    /** A successful outcome leaves less text than it was given. */
    predicate Consumes(s: string) {
      Parsed? ==> |rest| < |s|
    }
  }

  // An outcome built from the outcome of a part.

  function ToStr(o: Outcome<string>): Outcome<Json> {
    match o case Parsed(x, r) => Parsed(Str(x), r) case Rejected => Rejected case Undefined => Undefined
  }

  function ToArr(o: Outcome<seq<Json>>): Outcome<Json> {
    match o case Parsed(vs, r) => Parsed(Arr(vs), r) case Rejected => Rejected case Undefined => Undefined
  }

  function ToObj(o: Outcome<seq<Member>>): Outcome<Json> {
    match o case Parsed(ms, r) => Parsed(Obj(ms), r) case Rejected => Rejected case Undefined => Undefined
  }

  function ToMember(key: string, o: Outcome<Json>): Outcome<Member> {
    match o case Parsed(v, r) => Parsed(Member(key, v), r) case Rejected => Rejected case Undefined => Undefined
  }

  function Prefix<T>(xs: seq<T>, o: Outcome<seq<T>>): Outcome<seq<T>> {
    match o case Parsed(ys, r) => Parsed(xs + ys, r) case Rejected => Rejected case Undefined => Undefined
  }

  // ---------- strings ----------

  /**
   The first pass of `parse_string`, from after the opening quote: the `len` it counts, one for a character and
   one for an escape. None: a backslash directly before the NUL takes the cursor past the end of the text.
   */
  function ScanLength(t: string): Option<nat> {
    if t == "" || t[0] == '\0' || t[0] == '"' then Some(0)
    else if t[0] == '\\' then
      if |t| < 2 then None
      else match ScanLength(t[2..]) case None => None case Some(n) => Some(n + 1)
    else match ScanLength(t[1..]) case None => None case Some(n) => Some(n + 1)
  }

  /** The second pass, with `out` already written to a buffer of `len + 1` bytes. */
  function Unescape(t: string, out: string, len: nat): (r: Outcome<string>)
    ensures r.Parsed? ==> |r.rest| <= |t| && |r.value| <= len
    decreases |t|
  {
    if |out| > len then Undefined
    else if t == "" || t[0] == '\0' then Parsed(out, t)
    else if t[0] == '"' then Parsed(out, t[1..])
    else if t[0] != '\\' then Unescape(t[1..], out + [t[0]], len)
    else
      var (bytes, read) := Escape(t);
      if read > |t| then Undefined else Unescape(t[read..], out + bytes, len)
  }

  function ParseString(s: string): (r: Outcome<string>)
    ensures r.Consumes(s)
  {
    if At(s, 0) != '"' then Rejected
    else
      match ScanLength(s[1..])
      case None => Undefined
      case Some(len) => Unescape(s[1..], "", len)
  }

  // ---------- values ----------

  function ParseValue(s: string): (r: Outcome<Json>)
    ensures r.Consumes(s)
    decreases |s|, 1
  {
    if "null" <= s then Parsed(Null, s[4..])
    else if "false" <= s then Parsed(False, s[5..])
    else if "true" <= s then Parsed(True, s[4..])
    else if At(s, 0) == '"' then ToStr(ParseString(s))
    else if At(s, 0) == '-' || IsDigit(At(s, 0)) then
      var (n, rest) := ParseNumber(s);
      Parsed(Num(n.Value()), rest)
    else if At(s, 0) == '[' then
      var t := Skip(s[1..]);
      if At(t, 0) == ']' then Parsed(Arr([]), t[1..]) else ToArr(ParseItems(t))
    else if At(s, 0) == '{' then
      var t := Skip(s[1..]);
      if At(t, 0) == '}' then Parsed(Obj([]), t[1..]) else ToObj(ParseMembers(t))
    else Rejected
  }

  /** One element and the elements after it. */
  function ParseItems(s: string): (r: Outcome<seq<Json>>)
    ensures r.Consumes(s)
    decreases |s|, 3
  {
    match ParseValue(Skip(s))
    case Parsed(v, rest) => Prefix([v], MoreItems(Skip(rest)))
    case Rejected => Rejected
    case Undefined => Undefined
  }

  /** What may follow an element: a comma and more elements, or the closing bracket. */
  function MoreItems(s: string): (r: Outcome<seq<Json>>)
    ensures r.Consumes(s)
    decreases |s|, 2
  {
    if At(s, 0) == ',' then ParseItems(s[1..])
    else if At(s, 0) == ']' then Parsed([], s[1..])
    else Rejected
  }

  function ParseMember(s: string): (r: Outcome<Member>)
    ensures r.Consumes(s)
    decreases |s|, 2
  {
    match ParseString(Skip(s))
    case Rejected => Rejected
    case Undefined => Undefined
    case Parsed(key, rest) =>
      var t := Skip(rest);
      if At(t, 0) != ':' then Rejected else ToMember(key, ParseValue(Skip(t[1..])))
  }

  function ParseMembers(s: string): (r: Outcome<seq<Member>>)
    ensures r.Consumes(s)
    decreases |s|, 4
  {
    match ParseMember(s)
    case Parsed(m, rest) => Prefix([m], MoreMembers(Skip(rest)))
    case Rejected => Rejected
    case Undefined => Undefined
  }

  function MoreMembers(s: string): (r: Outcome<seq<Member>>)
    ensures r.Consumes(s)
    decreases |s|, 3
  {
    if At(s, 0) == ',' then ParseMembers(s[1..])
    else if At(s, 0) == '}' then Parsed([], s[1..])
    else Rejected
  }

  /** `cJSON_ParseWithOpts`; `rest` is where `return_parse_end` points. */
  function ParseText(s: string, requireNul: bool): Outcome<Json> {
    match ParseValue(Skip(s))
    case Rejected => Rejected
    case Undefined => Undefined
    case Parsed(v, rest) =>
      if !requireNul then Parsed(v, rest)
      else
        var end := Skip(rest);
        if At(end, 0) != '\0' then Rejected else Parsed(v, end)
  }
}
