/**
 The JSON grammar of RFC 8259 as concrete syntax trees. `Text` is the text of a tree (sections 2 to 7),
 `Denote` the value it stands for. Strings are bytes, so an unescaped character is any byte from 0x20 on except
 the quotation mark and the reverse solidus; U+0000 and unpaired surrogates are left out.
 */
module Grammar {
  import opened CText
  import opened HexDigits
  import opened Json
  import opened Numbers
  import opened Unicode

  datatype Token =
    | Raw(c: char)                     // an unescaped character
    | Short(c: char)                   // a two-character escape
    | Hex(digits: string)              // \uXXXX
    | Surrogates(hi: string, lo: string)  // \uXXXX\uXXXX

  datatype Exponent = NoExponent | Exponent(letter: char, sign: string, digits: string)

  datatype Number = Number(minus: bool, whole: string, frac: string, exp: Exponent)

  datatype Cst =
    | CNull
    | CFalse
    | CTrue
    | CNum(num: Number)
    | CStr(tokens: seq<Token>)
    | CNoItems(ws: string)
    | CArr(elements: seq<Element>)
    | CNoMembers(ws: string)
    | CObj(entries: seq<Entry>)

  datatype Element = Element(before: string, value: Cst, after: string)

  datatype Entry = Entry(before: string, key: seq<Token>, beforeColon: string, afterColon: string, value: Cst, after: string)

  // ---------- well-formedness ----------

  predicate White(ws: string) {
    forall i | 0 <= i < |ws| :: ws[i] in " \t\n\r"
  }

  ghost predicate IsHex4(h: string) {
    |h| == 4 && AllHexDigits(h)
  }

  ghost predicate ValidToken(t: Token) {
    match t
    case Raw(c) => c >= ' ' && c != '"' && c != '\\'
    case Short(c) => c in "\"\\/bfnrt"
    case Hex(h) => IsHex4(h) && IsScalar(HexMagnitude(h)) && HexMagnitude(h) != 0
    case Surrogates(hi, lo) =>
      && IsHex4(hi) && 0xD800 <= HexMagnitude(hi) <= 0xDBFF
      && IsHex4(lo) && 0xDC00 <= HexMagnitude(lo) <= 0xDFFF
  }

  ghost predicate ValidTokens(ts: seq<Token>) {
    forall i | 0 <= i < |ts| :: ValidToken(ts[i])
  }

  ghost predicate ValidNumber(n: Number) {
    && n.whole != "" && AllDigits(n.whole) && (n.whole[0] == '0' ==> |n.whole| == 1)
    && AllDigits(n.frac)
    && ValidExponent(n.exp)
  }

  ghost predicate ValidExponent(e: Exponent) {
    e.Exponent? ==> e.letter in "eE" && e.sign in ["", "+", "-"] && e.digits != "" && AllDigits(e.digits)
  }

  ghost predicate Valid(c: Cst) {
    match c
    case CNum(n) => ValidNumber(n)
    case CStr(ts) => ValidTokens(ts)
    case CNoItems(ws) => White(ws)
    case CArr(es) => es != [] && ValidElements(es)
    case CNoMembers(ws) => White(ws)
    case CObj(es) => es != [] && ValidEntries(es)
    case _ => true
  }

  ghost predicate ValidElements(es: seq<Element>) {
    es != [] ==>
      && White(es[0].before) && Valid(es[0].value) && White(es[0].after)
      && ValidElements(es[1..])
  }

  ghost predicate ValidEntries(es: seq<Entry>) {
    es != [] ==>
      && ValidEntry(es[0])
      && ValidEntries(es[1..])
  }

  ghost predicate ValidEntry(e: Entry) {
    && White(e.before) && ValidTokens(e.key) && White(e.beforeColon)
    && White(e.afterColon) && Valid(e.value) && White(e.after)
  }

  // ---------- text ----------

  function TokenText(t: Token): string {
    match t
    case Raw(c) => [c]
    case Short(c) => ['\\', c]
    case Hex(h) => "\\u" + h
    case Surrogates(hi, lo) => "\\u" + hi + "\\u" + lo
  }

  function TokensText(ts: seq<Token>): string {
    if ts == [] then "" else TokenText(ts[0]) + TokensText(ts[1..])
  }

  function StringText(ts: seq<Token>): string {
    "\"" + TokensText(ts) + "\""
  }

  function ExponentText(e: Exponent): string {
    if e.NoExponent? then "" else [e.letter] + e.sign + e.digits
  }

  function NumberText(n: Number): string {
    When(n.minus, "-") + n.whole + When(n.frac != "", "." + n.frac) + ExponentText(n.exp)
  }

  function Text(c: Cst): string
    decreases c, 0
  {
    match c
    case CNull => "null"
    case CFalse => "false"
    case CTrue => "true"
    case CNum(n) => NumberText(n)
    case CStr(ts) => StringText(ts)
    case CNoItems(ws) => "[" + ws + "]"
    case CArr(es) => "[" + ElementsText(es)
    case CNoMembers(ws) => "{" + ws + "}"
    case CObj(es) => "{" + EntriesText(es)
  }

  function ElementsText(es: seq<Element>): string
    decreases es, 0
  {
    if es == [] then "]"
    else es[0].before + Text(es[0].value) + es[0].after + if |es| == 1 then "]" else "," + ElementsText(es[1..])
  }

  function EntryText(e: Entry): string
    decreases e, 1
  {
    e.before + StringText(e.key) + e.beforeColon + ":" + e.afterColon + Text(e.value)
  }

  function EntriesText(es: seq<Entry>): string
    decreases es, 0
  {
    if es == [] then "}"
    else EntryText(es[0]) + es[0].after + if |es| == 1 then "}" else "," + EntriesText(es[1..])
  }

  // ---------- meaning ----------

  /** The character a two-character escape stands for: section 7. */
  function ShortMeaning(c: char): char {
    match c
    case 'b' => '\U{8}'
    case 'f' => '\U{C}'
    case 'n' => '\n'
    case 'r' => '\r'
    case 't' => '\t'
    case _ => c
  }

  ghost function TokenBytes(t: Token): string
    requires ValidToken(t)
  {
    match t
    case Raw(c) => [c]
    case Short(c) => [ShortMeaning(c)]
    case Hex(h) => Utf8(HexMagnitude(h))
    case Surrogates(hi, lo) => Utf8(FromSurrogates(HexMagnitude(hi), HexMagnitude(lo)))
  }

  ghost function TokensBytes(ts: seq<Token>): string
    requires ValidTokens(ts)
  {
    if ts == [] then "" else TokenBytes(ts[0]) + TokensBytes(ts[1..])
  }

  ghost function ExponentValue(e: Exponent): int
    requires e.Exponent? ==> AllDigits(e.digits)
  {
    if e.NoExponent? then 0
    else if e.sign == "-" then -(Magnitude(e.digits) as int)
    else Magnitude(e.digits)
  }

  /** whole.frac times ten to the exponent, exactly. */
  ghost function NumberValue(n: Number): real
    requires ValidNumber(n)
  {
    (if n.minus then -1.0 else 1.0)
    * (Magnitude(n.whole) as real + Magnitude(n.frac) as real * Pow10(-|n.frac|))
    * Pow10(ExponentValue(n.exp))
  }

  ghost function Denote(c: Cst): Json
    requires Valid(c)
    decreases c, 0
  {
    match c
    case CNull => Null
    case CFalse => False
    case CTrue => True
    case CNum(n) => Num(NumberValue(n))
    case CStr(ts) => Str(TokensBytes(ts))
    case CNoItems(_) => Arr([])
    case CArr(es) => Arr(DenoteElements(es))
    case CNoMembers(_) => Obj([])
    case CObj(es) => Obj(DenoteEntries(es))
  }

  ghost function DenoteElements(es: seq<Element>): (vs: seq<Json>)
    requires ValidElements(es)
    ensures |vs| == |es|
    decreases es, 0
  {
    if es == [] then [] else [Denote(es[0].value)] + DenoteElements(es[1..])
  }

  ghost function DenoteEntries(es: seq<Entry>): (ms: seq<Member>)
    requires ValidEntries(es)
    ensures |ms| == |es|
    decreases es, 0
  {
    if es == [] then []
    else [DenoteEntry(es[0])] + DenoteEntries(es[1..])
  }

  ghost function DenoteEntry(e: Entry): Member
    requires ValidEntry(e)
    decreases e, 1
  {
    Member(TokensBytes(e.key), Denote(e.value))
  }
}
