/** Reading a document: the recursive descent over the text, as a function of what is left to read. */
module Parser {
  import opened CStrings
  import opened Decimal
  import opened JsonValue
  import opened Printer

  // ---- strings

  /** Where the closing quote is: a backslash hides the character after it. */
  function ScanEnd(t: string): (r: Option<nat>)
    ensures r.Some? ==> r.value < |t| && t[r.value] == '\"'
    decreases |t|
  {
    if t == [] then None
    else if t[0] == '\"' then Some(0)
    else if t[0] == '\\' then
      if |t| == 1 then None
      else (match ScanEnd(t[2..])
        case Some(n) => Some(n + 2)
        case None => None)
    else (match ScanEnd(t[1..])
      case Some(n) => Some(n + 1)
      case None => None)
  }

  function HexValue(c: char): (r: Option<nat>)
    ensures r.Some? ==> r.value < 16
  {
    if '0' <= c <= '9' then Some(c as int - '0' as int)
    else if 'A' <= c <= 'F' then Some(10 + c as int - 'A' as int)
    else if 'a' <= c <= 'f' then Some(10 + c as int - 'a' as int)
    else None
  }

  /** `parse_hex4`: four hexadecimal digits, or zero if one of them is none. */
  function Hex4(t: string): (h: nat)
    requires |t| >= 4
    ensures h < 0x10000
  {
    match (HexValue(t[0]), HexValue(t[1]), HexValue(t[2]), HexValue(t[3]))
    case (Some(a), Some(b), Some(c), Some(d)) => 0x1000 * a + 0x100 * b + 0x10 * c + d
    case _ => 0
  }

  predicate HighSurrogate(w: nat) {
    0xD800 <= w <= 0xDBFF
  }

  predicate LowSurrogate(w: nat) {
    0xDC00 <= w <= 0xDFFF
  }

  /** Section 2.2 of RFC 2781. */
  function JoinSurrogates(w1: nat, w2: nat): (cp: nat)
    requires HighSurrogate(w1) && LowSurrogate(w2)
    ensures 0x10000 <= cp <= 0x10FFFF
  {
    0x10000 + (w1 - 0xD800) * 0x400 + (w2 - 0xDC00)
  }

  /** The code point of a `\u` escape, or of two that form a surrogate pair, and how many characters it takes. */
  function CodePoint(t: string): (r: Option<(nat, nat)>)
    ensures r.Some? ==> 0 < r.value.0 <= 0x10FFFF && (r.value.1 == 6 || r.value.1 == 12) && r.value.1 <= |t|
    ensures r.Some? ==> (r.value.1 == 12 <==> r.value.0 >= 0x10000)
  {
    if |t| < 6 then None
    else
      var w1 := Hex4(t[2..]);
      if LowSurrogate(w1) || w1 == 0 then None
      else if !HighSurrogate(w1) then Some((w1, 6))
      else if |t| < 12 || t[6] != '\\' || t[7] != 'u' then None
      else
        var w2 := Hex4(t[8..]);
        if LowSurrogate(w2) then Some((JoinSurrogates(w1, w2), 12)) else None
  }

  function Byte(b: nat): (c: char)
    requires b < 256
    ensures c as int == b
  {
    b as char
  }

  /** Section 3 of RFC 3629. */
  function Utf8(cp: nat): (r: string)
    requires cp <= 0x10FFFF
    ensures |r| == if cp < 0x80 then 1 else if cp < 0x800 then 2 else if cp < 0x10000 then 3 else 4
  {
    if cp < 0x80 then [Byte(cp)]
    else if cp < 0x800 then [Byte(0xC0 + cp / 0x40), Byte(0x80 + cp % 0x40)]
    else if cp < 0x10000 then [Byte(0xE0 + cp / 0x1000), Byte(0x80 + cp / 0x40 % 0x40), Byte(0x80 + cp % 0x40)]
    else [Byte(0xF0 + cp / 0x40000), Byte(0x80 + cp / 0x1000 % 0x40), Byte(0x80 + cp / 0x40 % 0x40),
      Byte(0x80 + cp % 0x40)]
  }

  /** The character a two-character escape stands for. */
  function SimpleEscape(c: char): (r: Option<char>) {
    if c == 'b' then Some(BS)
    else if c == 'f' then Some(FF)
    else if c == 'n' then Some('\n')
    else if c == 'r' then Some(CR)
    else if c == 't' then Some('\t')
    else if c == '\"' || c == '\\' || c == '/' then Some(c)
    else None
  }

  /** The string a literal denotes, given the characters between its quotes. */
  function Unescaped(t: string): (r: Option<string>)
    decreases |t|
  {
    if t == [] then Some([])
    else if t[0] != '\\' then Prepend([t[0]], Unescaped(t[1..]))
    else if |t| == 1 then None
    else if t[1] == 'u' then
      (match CodePoint(t)
       case Some((cp, n)) => Prepend(Utf8(cp), Unescaped(t[n..]))
       case None => None)
    else (match SimpleEscape(t[1])
      case Some(c) => Prepend([c], Unescaped(t[2..]))
      case None => None)
  }

  function Prepend(s: string, r: Option<string>): (t: Option<string>) {
    match r
    case Some(x) => Some(s + x)
    case None => None
  }

  lemma PrependTwice(a: string, b: string, r: Option<string>)
    ensures Prepend(a, Prepend(b, r)) == Prepend(a + b, r)
  {
    if r.Some? {
      assert a + (b + r.value) == a + b + r.value;
    }
  }

  lemma PrependNothing(r: Option<string>)
    ensures Prepend("", r) == r
  {
    if r.Some? {
      assert "" + r.value == r.value;
    }
  }

  /** `parse_string`: the string and the text behind its closing quote. */
  function ParseString(s: string): (r: Option<(string, string)>)
    ensures r.Some? ==> |r.value.1| < |s|
  {
    if s == [] || s[0] != '\"' then None
    else match ScanEnd(s[1..])
      case None => None
      case Some(n) =>
        match Unescaped(s[1..][..n])
        case None => None
        case Some(t) => Some((t, s[1..][n + 1..]))
  }

  // ---- the other values

  predicate IsBlank(c: char) {
    c != '\0' && c <= ' '
  }

  function SkipBlanks(s: string): (r: string)
    ensures |r| <= |s|
    ensures r == [] || !IsBlank(r[0])
  {
    if s != [] && IsBlank(s[0]) then SkipBlanks(s[1..]) else s
  }

  /** `parse_number` on an integer literal. */
  function ParseNumber(s: string): (r: Option<(Json, string)>)
    ensures r.Some? ==> |r.value.1| < |s|
  {
    var t := if s != [] && s[0] == '-' then s[1..] else s;
    var n := DigitRun(t);
    if n == 0 then None
    else
      var v: int := Value(t[..n]);
      Some((Number(if s[0] == '-' then -v else v), t[n..]))
  }

  /** `parse_value`. */
  function ParseValue(s: string): (r: Option<(Json, string)>)
    ensures r.Some? ==> |r.value.1| < |s|
    decreases |s|, 1
  {
    if "null" <= s then Some((Null, s[4..]))
    else if "false" <= s then Some((False, s[5..]))
    else if "true" <= s then Some((True, s[4..]))
    else if s == [] then None
    else if s[0] == '\"' then
      (match ParseString(s)
       case Some((t, rest)) => Some((String(t), rest))
       case None => None)
    else if s[0] == '-' || IsDigit(s[0]) then ParseNumber(s)
    else if s[0] == '[' then ParseArray(s)
    else if s[0] == '{' then ParseObject(s)
    else None
  }

  function ParseArray(s: string): (r: Option<(Json, string)>)
    requires s != []
    ensures r.Some? ==> |r.value.1| < |s|
    decreases |s|, 0
  {
    var t := SkipBlanks(s[1..]);
    if t != [] && t[0] == ']' then Some((Array([]), t[1..]))
    else match ParseItems(t)
      case None => None
      case Some((items, u)) => if u != [] && u[0] == ']' then Some((Array(items), u[1..])) else None
  }

  /** One or more elements separated by commas, and the first character that is no comma. */
  function ParseItems(s: string): (r: Option<(seq<Json>, string)>)
    ensures r.Some? ==> |r.value.1| < |s|
    decreases |s|, 2
  {
    match ParseValue(SkipBlanks(s))
    case None => None
    case Some((v, rest)) =>
      var u := SkipBlanks(rest);
      if u != [] && u[0] == ',' then
        (match ParseItems(u[1..])
         case None => None
         case Some((vs, w)) => Some(([v] + vs, w)))
      else Some(([v], u))
  }

  function ParseObject(s: string): (r: Option<(Json, string)>)
    requires s != []
    ensures r.Some? ==> |r.value.1| < |s|
    decreases |s|, 0
  {
    var t := SkipBlanks(s[1..]);
    if t != [] && t[0] == '}' then Some((Object([]), t[1..]))
    else match ParseMembers(t)
      case None => None
      case Some((ms, u)) => if u != [] && u[0] == '}' then Some((Object(ms), u[1..])) else None
  }

  function ParseMembers(s: string): (r: Option<(seq<Member>, string)>)
    ensures r.Some? ==> |r.value.1| < |s|
    decreases |s|, 2
  {
    match ParseMember(SkipBlanks(s))
    case None => None
    case Some((m, rest)) =>
      var u := SkipBlanks(rest);
      if u != [] && u[0] == ',' then
        (match ParseMembers(u[1..])
         case None => None
         case Some((ms, w)) => Some(([m] + ms, w)))
      else Some(([m], u))
  }

  function ParseMember(s: string): (r: Option<(Member, string)>)
    ensures r.Some? ==> |r.value.1| < |s|
    decreases |s|, 1
  {
    match ParseString(s)
    case None => None
    case Some((key, rest)) =>
      var u := SkipBlanks(rest);
      if u == [] || u[0] != ':' then None
      else match ParseValue(SkipBlanks(u[1..]))
        case None => None
        case Some((v, w)) => Some((Member(key, v), w))
  }

  /**
   * `cJSON_ParseWithOpts`: the value and where parsing ended, with nothing but blanks behind it if that is required.
   */
  function ParseText(text: string, terminated: bool): (r: Option<(Json, string)>) {
    match ParseValue(SkipBlanks(text))
    case Some((v, rest)) =>
      if !terminated then Some((v, rest)) else if SkipBlanks(rest) == [] then Some((v, [])) else None
    case None => None
  }
}
