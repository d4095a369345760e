/** JSON values and the text the printers give them. */
module Json {
  import opened CText
  import opened HexDigits

  datatype Json =
    | Null
    | False
    | True
    | Num(number: real)
    | Str(text: string)
    | Arr(items: seq<Json>)
    | Obj(members: seq<Member>)

  datatype Member = Member(key: string, value: Json)

  /** The values both printers write in the plain integer form: every number is an int32. */
  predicate Int32(n: real) {
    n == n.Floor as real && -0x8000_0000 <= n.Floor < 0x8000_0000
  }

  ghost predicate Printable(v: Json) {
    match v
    case Num(n) => Int32(n)
    case Str(s) => NulFree(s)
    case Arr(items) => PrintableItems(items)
    case Obj(members) => PrintableMembers(members)
    case _ => true
  }

  ghost predicate PrintableItems(items: seq<Json>) {
    items != [] ==> Printable(items[0]) && PrintableItems(items[1..])
  }

  ghost predicate PrintableMembers(members: seq<Member>) {
    members != [] ==> PrintableMember(members[0]) && PrintableMembers(members[1..])
  }

  ghost predicate PrintableMember(m: Member) {
    NulFree(m.key) && Printable(m.value)
  }

  // ---------- numbers ----------

  function Digit(d: nat): (c: char)
    requires d < 10
    ensures IsDigit(c) && c as int - '0' as int == d
  {
    (d + '0' as int) as char
  }

  /** The decimal digits of `n`, without leading zeros. */
  function Decimal(n: nat): (s: string)
    ensures s != "" && AllDigits(s) && (s[0] == '0' <==> n == 0)
  {
    if n < 10 then [Digit(n)] else Decimal(n / 10) + [Digit(n % 10)]
  }

  function IntText(n: int): string {
    if n < 0 then "-" + Decimal(-n) else Decimal(n)
  }

  // ---------- strings ----------

  /** The characters `print_string_ptr` does not copy as they are. */
  predicate NeedsEscape(c: char) {
    c < ' ' || c == '"' || c == '\\'
  }

  function EscapeChar(c: char): string {
    if !NeedsEscape(c) then [c]
    else if c == '\\' then "\\\\"
    else if c == '"' then "\\\""
    else if c == '\U{8}' then "\\b"
    else if c == '\U{C}' then "\\f"
    else if c == '\n' then "\\n"
    else if c == '\r' then "\\r"
    else if c == '\t' then "\\t"
    else "\\u00" + [LOWER[c as int / 16], LOWER[c as int % 16]]
  }

  function EscapeText(s: string): string {
    if s == "" then "" else EscapeChar(s[0]) + EscapeText(s[1..])
  }

  function Quote(s: string): string {
    "\"" + EscapeText(s) + "\""
  }

  // ---------- values ----------

  function Tabs(n: int): (s: string)
    ensures |s| == if n > 0 then n else 0
  {
    if n <= 0 then "" else "\t" + Tabs(n - 1)
  }

  function When(b: bool, s: string): string {
    if b then s else ""
  }

  function Render(v: Json, depth: nat, fmt: bool): string
    decreases v, 0
  {
    match v
    case Null => "null"
    case False => "false"
    case True => "true"
    case Num(n) => IntText(n.Floor)
    case Str(s) => Quote(s)
    case Arr(items) => if items == [] then "[]" else "[" + RenderItems(items, depth + 1, fmt)
    case Obj(members) =>
      if members == [] then "{" + When(fmt, "\n" + Tabs(depth - 1)) + "}"
      else "{" + When(fmt, "\n") + RenderMembers(members, depth + 1, fmt)
  }

  /** The elements from some point on, with the separators between them and the closing bracket. */
  function RenderItems(items: seq<Json>, depth: nat, fmt: bool): string
    requires items != []
    decreases items, 0
  {
    Render(items[0], depth, fmt)
    + if |items| == 1 then "]" else "," + When(fmt, " ") + RenderItems(items[1..], depth, fmt)
  }

  function RenderMember(m: Member, depth: nat, fmt: bool): string
    decreases m, 1
  {
    When(fmt, Tabs(depth)) + Quote(m.key) + ":" + When(fmt, "\t") + Render(m.value, depth, fmt)
  }

  /** The members from some point on, with the separators between them and the closing brace. */
  function RenderMembers(members: seq<Member>, depth: nat, fmt: bool): string
    requires members != []
    decreases members, 0
  {
    RenderMember(members[0], depth, fmt)
    + if |members| == 1 then When(fmt, "\n" + Tabs(depth - 1)) + "}"
      else "," + When(fmt, "\n") + RenderMembers(members[1..], depth, fmt)
  }
}
