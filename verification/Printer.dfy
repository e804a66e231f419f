/** The text of a document, formatted or not. */
module Printer {
  import opened CStrings
  import opened Decimal
  import opened JsonValue

  const BS: char := 8 as char
  const FF: char := 12 as char
  const CR: char := '\r'

  function HexDigit(d: nat): (c: char)
    requires d < 16
  {
    if d < 10 then DigitChar(d) else ('a' as int + d - 10) as char
  }

  /** How one character of a string is written between the quotes. */
  function EscapeChar(c: char): (r: string) {
    if c == '\"' then "\\\""
    else if c == '\\' then "\\\\"
    else if c == BS then "\\b"
    else if c == FF then "\\f"
    else if c == '\n' then "\\n"
    else if c == CR then "\\r"
    else if c == '\t' then "\\t"
    else if c as int < 32 then "\\u00" + [HexDigit(c as int / 16), HexDigit(c as int % 16)]
    else [c]
  }

  function EscapeText(s: string): (r: string) {
    if s == [] then [] else EscapeChar(s[0]) + EscapeText(s[1..])
  }

  /** `print_string_ptr`. */
  function Quoted(s: string): (r: string) {
    "\"" + EscapeText(s) + "\""
  }

  /** `%d`, and `%.0f` for an integer outside `int`. */
  function PrintNumber(n: int): (r: string) {
    if n < 0 then "-" + Digits(-n) else Digits(n)
  }

  function Tabs(n: nat): (r: string)
    ensures |r| == n && forall i :: 0 <= i < n ==> r[i] == '\t'
  {
    seq(n, i => '\t')
  }

  /** `print_value`. */
  function Print(v: Json, depth: nat, format: bool): (r: string)
    decreases v
  {
    match v
    case Null => "null"
    case False => "false"
    case True => "true"
    case Number(n) => PrintNumber(n)
    case String(s) => Quoted(s)
    case Array(items) => "[" + PrintItems(items, depth, format) + "]"
    case Object(ms) =>
      "{" + (if format then "\n" else "") + PrintMembers(ms, depth, format) + (if format then Tabs(depth) else "") + "}"
  }

  function Comma(format: bool): (r: string) {
    if format then ", " else ","
  }

  function PrintItems(items: seq<Json>, depth: nat, format: bool): (r: string)
    decreases items
  {
    if items == [] then ""
    else
      Print(items[0], depth + 1, format) +
      (if |items| > 1 then Comma(format) + PrintItems(items[1..], depth, format) else "")
  }

  function PrintMembers(ms: seq<Member>, depth: nat, format: bool): (r: string)
    decreases ms
  {
    if ms == [] then ""
    else PrintMember(ms[0], depth, format) + MemberEnd(|ms| > 1, format) + PrintMembers(ms[1..], depth, format)
  }

  function PrintMember(m: Member, depth: nat, format: bool): (r: string)
    decreases m
  {
    (if format then Tabs(depth + 1) else "") + Quoted(m.key) + Colon(format) + Print(m.value, depth + 1, format)
  }

  function Colon(format: bool): (r: string) {
    if format then ":\t" else ":"
  }

  /** A comma unless it was the last member, and a line end if formatted. */
  function MemberEnd(more: bool, format: bool): (r: string) {
    (if more then "," else "") + (if format then "\n" else "")
  }

  /** Integers a double holds exactly. */
  const EXACT: int := 0x20_0000_0000_0000

  /** Documents the text represents: no NUL in any string, and numbers that are exact. */
  predicate Printable(v: Json) {
    match v
    case Number(n) => -EXACT <= n <= EXACT
    case String(s) => NulFree(s)
    case Array(items) => forall i :: 0 <= i < |items| ==> Printable(items[i])
    case Object(ms) => forall i :: 0 <= i < |ms| ==> NulFree(ms[i].key) && Printable(ms[i].value)
    case _ => true
  }
}
