/**
 * JSON texts by their grammar: a spelling is a document together with every choice the text leaves open, such as blanks
 * and escapes. The parser reads exactly the texts of spellings and returns what they mean.
 */
module Spelling {
  import opened CStrings
  import opened Decimal
  import opened JsonValue
  import opened Parser

  // ---- string literals

  /** A piece of a literal: a character as it is, a two-character escape, a code unit in hexadecimal, or two of them. */
  datatype Unit =
    | Plain(c: char)
    | Short(e: char)
    | Code(h: string, n: nat)
    | Pair(h: string, n: nat, h': string, n': nat)

  /** The two-character escapes of section 7 of RFC 8259. */
  const SHORT: map<char, char> := map[
    '\"' := '\"', '\\' := '\\', '/' := '/', 'b' := 8 as char, 'f' := 12 as char, 'n' := 10 as char, 'r' := 13 as char,
    't' := 9 as char]

  const LOWER: string := "0123456789abcdef"
  const UPPER: string := "0123456789ABCDEF"

  predicate HexOf(c: char, k: nat) {
    k < 16 && (c == LOWER[k] || c == UPPER[k])
  }

  /** Four hexadecimal digits, in either case. */
  predicate Spells4(h: string, n: nat) {
    && |h| == 4 && n < 0x10000
    && HexOf(h[0], n / 0x1000) && HexOf(h[1], n / 0x100 % 0x10) && HexOf(h[2], n / 0x10 % 0x10) && HexOf(h[3], n % 0x10)
  }

  predicate LexicalUnit(u: Unit) {
    match u
    case Plain(c) => c != '\"' && c != '\\'
    case Short(_) => true
    case Code(h, n) => Spells4(h, n)
    case Pair(h, n, h', n') => Spells4(h, n) && Spells4(h', n')
  }

  /** Pieces with a meaning: known escapes, code points other than NUL and surrogates, and surrogates in pairs. */
  predicate ProperUnit(u: Unit) {
    && LexicalUnit(u)
    && match u
       case Plain(_) => true
       case Short(e) => e in SHORT
       case Code(_, n) => n != 0 && !(0xD800 <= n <= 0xDFFF)
       case Pair(_, n, _, n') => 0xD800 <= n <= 0xDBFF && 0xDC00 <= n' <= 0xDFFF
  }

  function UnitText(u: Unit): (r: string) {
    match u
    case Plain(c) => [c]
    case Short(e) => ['\\', e]
    case Code(h, _) => "\\u" + h
    case Pair(h, _, h', _) => "\\u" + h + "\\u" + h'
  }

  /** Section 2.2 of RFC 2781 for a pair. */
  function UnitValue(u: Unit): (r: string)
    requires ProperUnit(u)
  {
    match u
    case Plain(c) => [c]
    case Short(e) => [SHORT[e]]
    case Code(_, n) => Utf8(n)
    case Pair(_, n, _, n') => Utf8(0x10000 + (n - 0xD800) * 0x400 + (n' - 0xDC00))
  }

  predicate LexicalBody(us: seq<Unit>) {
    forall i :: 0 <= i < |us| ==> LexicalUnit(us[i])
  }

  predicate ProperBody(us: seq<Unit>) {
    forall i :: 0 <= i < |us| ==> ProperUnit(us[i])
  }

  function BodyText(us: seq<Unit>): (r: string) {
    if us == [] then "" else UnitText(us[0]) + BodyText(us[1..])
  }

  function BodyValue(us: seq<Unit>): (r: string)
    requires ProperBody(us)
  {
    if us == [] then "" else UnitValue(us[0]) + BodyValue(us[1..])
  }

  function Literal(us: seq<Unit>): (r: string) {
    "\"" + BodyText(us) + "\""
  }

  // ---- documents

  datatype Tree =
    | TNull
    | TFalse
    | TTrue
    | TNumber(minus: bool, digits: string)
    | TString(body: seq<Unit>)
    | TNoItems(gap: string)
    | TArray(items: seq<Item>)
    | TNoMembers(gap: string)
    | TObject(members: seq<Entry>)

  /** A value with the blanks around it. */
  datatype Item = Item(before: string, value: Tree, after: string)

  /** A member with the blanks around its key and its value. */
  datatype Entry = Entry(before: string, key: seq<Unit>, mid: string, item: Item)

  predicate Proper(t: Tree) {
    match t
    case TNumber(_, digits) => digits != [] && AllDigits(digits)
    case TString(body) => ProperBody(body)
    case TArray(items) => items != [] && ProperItems(items)
    case TObject(members) => members != [] && ProperEntries(members)
    case _ => true
  }

  predicate ProperItems(items: seq<Item>) {
    items == [] || (Proper(items[0].value) && ProperItems(items[1..]))
  }

  predicate ProperEntries(es: seq<Entry>) {
    es == [] || (ProperBody(es[0].key) && Proper(es[0].item.value) && ProperEntries(es[1..]))
  }

  /** Numbers are digits, and literals are such as `lit` allows. */
  predicate Formed(t: Tree, lit: seq<Unit> -> bool) {
    match t
    case TNumber(_, digits) => AllDigits(digits)
    case TString(body) => lit(body)
    case TArray(items) => FormedItems(items, lit)
    case TObject(members) => FormedEntries(members, lit)
    case _ => true
  }

  predicate FormedItems(items: seq<Item>, lit: seq<Unit> -> bool) {
    items == [] || (Formed(items[0].value, lit) && FormedItems(items[1..], lit))
  }

  predicate FormedEntries(es: seq<Entry>, lit: seq<Unit> -> bool) {
    es == [] || (lit(es[0].key) && Formed(es[0].item.value, lit) && FormedEntries(es[1..], lit))
  }

  /** What stands around the tokens is such as `ok` allows. */
  predicate Gapped(t: Tree, ok: string -> bool) {
    match t
    case TNoItems(gap) => ok(gap)
    case TArray(items) => GappedItems(items, ok)
    case TNoMembers(gap) => ok(gap)
    case TObject(members) => GappedEntries(members, ok)
    case _ => true
  }

  predicate GappedItem(i: Item, ok: string -> bool) {
    ok(i.before) && Gapped(i.value, ok) && ok(i.after)
  }

  predicate GappedItems(items: seq<Item>, ok: string -> bool) {
    items == [] || (GappedItem(items[0], ok) && GappedItems(items[1..], ok))
  }

  predicate GappedEntries(es: seq<Entry>, ok: string -> bool) {
    es == [] || (ok(es[0].before) && ok(es[0].mid) && GappedItem(es[0].item, ok) && GappedEntries(es[1..], ok))
  }

  /** Any characters up to the space. */
  predicate Blank(w: string) {
    forall i :: 0 <= i < |w| ==> 1 <= w[i] as int <= 32
  }

  function Text(t: Tree): (r: string)
    decreases t
  {
    match t
    case TNull => "null"
    case TFalse => "false"
    case TTrue => "true"
    case TNumber(minus, digits) => (if minus then "-" else "") + digits
    case TString(body) => Literal(body)
    case TNoItems(gap) => "[" + gap + "]"
    case TArray(items) => "[" + ItemsText(items) + "]"
    case TNoMembers(gap) => "{" + gap + "}"
    case TObject(members) => "{" + EntriesText(members) + "}"
  }

  function ItemText(i: Item): (r: string)
    decreases i
  {
    i.before + Text(i.value) + i.after
  }

  function ItemsText(items: seq<Item>): (r: string)
    decreases items
  {
    if items == [] then ""
    else ItemText(items[0]) + (if |items| > 1 then "," + ItemsText(items[1..]) else "")
  }

  function EntryText(e: Entry): (r: string)
    decreases e
  {
    e.before + Literal(e.key) + e.mid + ":" + ItemText(e.item)
  }

  function EntriesText(es: seq<Entry>): (r: string)
    decreases es
  {
    if es == [] then ""
    else EntryText(es[0]) + (if |es| > 1 then "," + EntriesText(es[1..]) else "")
  }

  /** The document spelled. */
  function Meant(t: Tree): (v: Json)
    requires Proper(t)
    decreases t
  {
    match t
    case TNull => Null
    case TFalse => False
    case TTrue => True
    case TNumber(minus, digits) => Number(if minus then -(Value(digits) as int) else Value(digits))
    case TString(body) => String(BodyValue(body))
    case TNoItems(_) => Array([])
    case TArray(items) => Array(ItemsMeant(items))
    case TNoMembers(_) => Object([])
    case TObject(members) => Object(EntriesMeant(members))
  }

  function ItemsMeant(items: seq<Item>): (vs: seq<Json>)
    requires ProperItems(items)
    ensures |vs| == |items|
    decreases items
  {
    if items == [] then [] else [Meant(items[0].value)] + ItemsMeant(items[1..])
  }

  function EntriesMeant(es: seq<Entry>): (ms: seq<Member>)
    requires ProperEntries(es)
    ensures |ms| == |es|
    decreases es
  {
    if es == [] then [] else [Member(BodyValue(es[0].key), Meant(es[0].item.value))] + EntriesMeant(es[1..])
  }

  // ---- literals are read

  function Shift(n: nat, r: Option<nat>): (s: Option<nat>) {
    match r
    case Some(k) => Some(n + k)
    case None => None
  }

  lemma ScanPlain(c: char, t: string)
    requires c != '\"' && c != '\\'
    ensures ScanEnd([c] + t) == Shift(1, ScanEnd(t))
  {
    assert ([c] + t)[1..] == t;
  }

  lemma ScanPair(c: char, t: string)
    ensures ScanEnd(['\\', c] + t) == Shift(2, ScanEnd(t))
  {
    assert (['\\', c] + t)[2..] == t;
  }

  lemma ScanClosing(rest: string)
    ensures ScanEnd("\"" + rest) == Some(0)
  {
  }

  lemma HexRead(c: char, k: nat)
    requires HexOf(c, k)
    ensures HexValue(c) == Some(k) && c != '\"' && c != '\\'
  {
  }

  lemma HexSpelled(c: char)
    requires HexValue(c).Some?
    ensures HexOf(c, HexValue(c).value)
  {
  }

  lemma Hex4Read(h: string, n: nat, t: string)
    requires Spells4(h, n)
    ensures Hex4(h + t) == n
  {
    hide HexOf, HexValue;
    HexRead(h[0], n / 0x1000);
    HexRead(h[1], n / 0x100 % 0x10);
    HexRead(h[2], n / 0x10 % 0x10);
    HexRead(h[3], n % 0x10);
    Nibbles(n);
  }

  lemma Nibbles(n: nat)
    requires n < 0x10000
    ensures n == 0x1000 * (n / 0x1000) + 0x100 * (n / 0x100 % 0x10) + 0x10 * (n / 0x10 % 0x10) + n % 0x10
  {
    Shifted(n, 0x10);
    Shifted(n, 0x100);
  }

  lemma Shifted(n: nat, m: nat)
    requires m == 0x10 || m == 0x100
    ensures n / (m * 0x10) == n / m / 0x10
  {
  }

  lemma NibblesOf(a: nat, b: nat, c: nat, d: nat)
    requires a < 16 && b < 16 && c < 16 && d < 16
    ensures var n := 0x1000 * a + 0x100 * b + 0x10 * c + d;
      n < 0x10000 && n / 0x1000 == a && n / 0x100 % 0x10 == b && n / 0x10 % 0x10 == c && n % 0x10 == d
  {
    var n := 0x1000 * a + 0x100 * b + 0x10 * c + d;
    assert n / 0x10 == 0x100 * a + 0x10 * b + c;
    assert n / 0x100 == 0x10 * a + b;
    assert n / 0x1000 == a;
  }

  lemma Hex4Spelled(t: string)
    requires |t| >= 4 && Hex4(t) != 0
    ensures Spells4(t[..4], Hex4(t))
  {
    hide HexOf, HexValue;
    var a, b, c, d := HexValue(t[0]).value, HexValue(t[1]).value, HexValue(t[2]).value, HexValue(t[3]).value;
    HexSpelled(t[0]);
    HexSpelled(t[1]);
    HexSpelled(t[2]);
    HexSpelled(t[3]);
    NibblesOf(a, b, c, d);
  }

  lemma ShortTable(e: char)
    ensures SimpleEscape(e) == if e in SHORT then Some(SHORT[e]) else None
  {
  }

  lemma UnitRead(u: Unit, t: string)
    requires ProperUnit(u)
    ensures Unescaped(UnitText(u) + t) == Prepend(UnitValue(u), Unescaped(t))
  {
    hide SimpleEscape, Hex4, Utf8, Spells4;
    var s := UnitText(u) + t;
    match u
    case Plain(c) => assert s[0] == c && s[1..] == t;
    case Short(e) =>
      ShortTable(e);
      assert s[1] == e && s[2..] == t;
    case Code(h, n) =>
      CodeRead(h, n, t);
    case Pair(h, n, h', n') =>
      PairRead(h, n, h', n', t);
  }

  lemma CodeRead(h: string, n: nat, t: string)
    requires ProperUnit(Code(h, n))
    ensures var s := "\\u" + h + t;
      |s| >= 6 && s[0] == '\\' && s[1] == 'u' && CodePoint(s) == Some((n, 6)) && s[6..] == t
  {
    hide Hex4, HexOf;
    var s := "\\u" + h + t;
    assert s[2..] == h + t;
    Hex4Read(h, n, t);
    assert s[6..] == t;
  }

  lemma PairRead(h: string, n: nat, h': string, n': nat, t: string)
    requires ProperUnit(Pair(h, n, h', n'))
    ensures var s := "\\u" + h + "\\u" + h' + t;
      && CodePoint(s) == Some((0x10000 + (n - 0xD800) * 0x400 + (n' - 0xDC00), 12)) && s[12..] == t
      && s[1] == 'u' && s[0] == '\\' && |s| >= 12
  {
    hide Hex4, HexOf;
    var s := "\\u" + h + "\\u" + h' + t;
    assert s[2..] == h + ("\\u" + h' + t);
    assert s[8..] == h' + t;
    Hex4Read(h, n, "\\u" + h' + t);
    Hex4Read(h', n', t);
    assert s[6] == '\\' && s[7] == 'u' && s[12..] == t;
  }

  lemma {:induction false} BodyRead(us: seq<Unit>)
    requires ProperBody(us)
    ensures Unescaped(BodyText(us)) == Some(BodyValue(us))
  {
    hide Unescaped, UnitText, UnitValue, ProperUnit;
    if us == [] {
      UnescapedNothing();
    } else {
      BodyRead(us[1..]);
      UnitRead(us[0], BodyText(us[1..]));
    }
  }

  lemma UnescapedNothing()
    ensures Unescaped("") == Some("")
  {
  }

  lemma ScanHex(h: string, n: nat, t: string)
    requires Spells4(h, n)
    ensures ScanEnd(h + t) == Shift(4, ScanEnd(t))
  {
    hide ScanEnd, HexOf;
    HexRead(h[0], n / 0x1000);
    HexRead(h[1], n / 0x100 % 0x10);
    HexRead(h[2], n / 0x10 % 0x10);
    HexRead(h[3], n % 0x10);
    var t3 := [h[3]] + t;
    var t2 := [h[2]] + t3;
    var t1 := [h[1]] + t2;
    ScanPlain(h[3], t);
    ScanPlain(h[2], t3);
    ScanPlain(h[1], t2);
    ScanPlain(h[0], t1);
    assert h + t == [h[0]] + t1;
  }

  lemma ScanUnit(u: Unit, t: string)
    requires LexicalUnit(u)
    ensures ScanEnd(UnitText(u) + t) == Shift(|UnitText(u)|, ScanEnd(t))
  {
    hide ScanEnd, HexOf;
    match u
    case Plain(c) => ScanPlain(c, t);
    case Short(e) => ScanPair(e, t);
    case Code(h, n) =>
      ScanHex(h, n, t);
      ScanPair('u', h + t);
      assert "\\u" + h + t == ['\\', 'u'] + (h + t);
    case Pair(h, n, h', n') =>
      var t' := ['\\', 'u'] + (h' + t);
      ScanHex(h', n', t);
      ScanPair('u', h' + t);
      ScanHex(h, n, t');
      ScanPair('u', h + t');
      assert "\\u" + h + "\\u" + h' + t == ['\\', 'u'] + (h + t');
  }

  lemma {:induction false} ScanBody(us: seq<Unit>, rest: string)
    requires LexicalBody(us)
    ensures ScanEnd(BodyText(us) + ("\"" + rest)) == Some(|BodyText(us)|)
  {
    hide ScanEnd, UnitText, LexicalUnit;
    var close := "\"" + rest;
    if us == [] {
      assert "" + close == close;
      ScanClosing(rest);
    } else {
      ScanBody(us[1..], rest);
      assert BodyText(us) + close == UnitText(us[0]) + (BodyText(us[1..]) + close);
      ScanUnit(us[0], BodyText(us[1..]) + close);
    }
  }

  lemma LiteralRead(us: seq<Unit>, rest: string)
    requires ProperBody(us)
    ensures ParseString(Literal(us) + rest) == Some((BodyValue(us), rest))
  {
    hide ScanEnd, Unescaped, BodyText, BodyValue;
    var s, e := Literal(us) + rest, BodyText(us);
    assert s[0] == '\"' && s[1..] == e + ("\"" + rest);
    ScanBody(us, rest);
    assert s[1..][..|e|] == e && s[1..][|e| + 1..] == rest;
    BodyRead(us);
  }

  // ---- a literal that is read was spelled

  /** The first piece of a literal, found the way the scan and the decoder step over it. */
  lemma FirstUnit(t: string, n: nat) returns (u: Unit)
    requires ScanEnd(t) == Some(n) && n > 0 && Unescaped(t[..n]).Some?
    ensures var k := |UnitText(u)|;
      && ProperUnit(u) && 0 < k <= n && t[..k] == UnitText(u)
      && ScanEnd(t[k..]) == Some(n - k) && Unescaped(t[k..n]).Some?
      && Unescaped(t[..n]).value == UnitValue(u) + Unescaped(t[k..n]).value
  {
    hide ScanEnd, Utf8, Hex4, Spells4;
    var s := t[..n];
    ScanStepOver(t, n);
    assert s[0] == t[0];
    if t[0] != '\\' {
      u := Plain(t[0]);
      assert t[..1] == [t[0]] && s[1..] == t[1..n];
    } else if s[1] != 'u' {
      u := Short(s[1]);
      ShortTable(s[1]);
      assert t[..2] == ['\\', s[1]] && s[2..] == t[2..n];
    } else {
      u := FirstCode(t, n);
    }
  }

  lemma ScanStepOver(t: string, n: nat)
    requires ScanEnd(t) == Some(n) && n > 0
    ensures t != [] && t[0] != '\"'
    ensures var k := if t[0] == '\\' then 2 else 1; k <= n && ScanEnd(t[k..]) == Some(n - k)
  {
  }

  /** Over characters that are neither a quote nor a backslash the scan goes one by one. */
  lemma FirstCode(t: string, n: nat) returns (u: Unit)
    requires ScanEnd(t) == Some(n) && n > 1 && t[0] == '\\' && t[1] == 'u' && Unescaped(t[..n]).Some?
    ensures var k := |UnitText(u)|;
      && ProperUnit(u) && 0 < k <= n && t[..k] == UnitText(u)
      && ScanEnd(t[k..]) == Some(n - k) && Unescaped(t[k..n]).Some?
      && Unescaped(t[..n]).value == UnitValue(u) + Unescaped(t[k..n]).value
  {
    hide ScanEnd, Utf8, Unescaped, CodePoint, LexicalUnit, UnitText, UnitValue;
    var s := t[..n];
    UnescapedCode(s);
    u := CodeSpelled(s);
    var k := |UnitText(u)|;
    assert s[..k] == t[..k] && s[k..] == t[k..n] && t == t[..k] + t[k..];
    ScanUnit(u, t[k..]);
  }

  lemma CodeSpelled(s: string) returns (u: Unit)
    requires |s| > 1 && s[0] == '\\' && s[1] == 'u' && CodePoint(s).Some?
    ensures var (cp, k) := CodePoint(s).value;
      ProperUnit(u) && |UnitText(u)| == k && s[..k] == UnitText(u) && UnitValue(u) == Utf8(cp)
  {
    hide Utf8, Hex4, Spells4;
    var w := Hex4(s[2..]);
    Hex4Spelled(s[2..]);
    assert s[2..][..4] == s[2..6];
    if CodePoint(s).value.1 == 6 {
      u := Code(s[2..6], w);
      assert s[..6] == "\\u" + s[2..6];
    } else {
      Hex4Spelled(s[8..]);
      assert s[8..][..4] == s[8..12];
      u := Pair(s[2..6], w, s[8..12], Hex4(s[8..]));
      assert s[..12] == "\\u" + s[2..6] + "\\u" + s[8..12];
    }
  }

  lemma UnescapedCode(s: string)
    requires |s| > 1 && s[0] == '\\' && s[1] == 'u' && Unescaped(s).Some?
    ensures CodePoint(s).Some?
    ensures var (cp, k) := CodePoint(s).value;
      Unescaped(s[k..]).Some? && Unescaped(s).value == Utf8(cp) + Unescaped(s[k..]).value
  {
  }

  lemma {:induction false} BodySpelled(t: string, n: nat) returns (us: seq<Unit>)
    requires ScanEnd(t) == Some(n) && Unescaped(t[..n]).Some?
    ensures ProperBody(us) && BodyText(us) == t[..n] && Some(BodyValue(us)) == Unescaped(t[..n])
    decreases n
  {
    hide ScanEnd, Unescaped, UnitText, UnitValue, ProperUnit;
    if n == 0 {
      us := [];
      UnescapedNothing();
      assert t[..0] == "";
    } else {
      var u := FirstUnit(t, n);
      var k := |UnitText(u)|;
      assert t[k..][..n - k] == t[k..n];
      var rest := BodySpelled(t[k..], n - k);
      us := [u] + rest;
      assert us[1..] == rest && t[..n] == t[..k] + t[k..n];
    }
  }

  lemma LiteralSpelled(s: string) returns (us: seq<Unit>)
    requires ParseString(s).Some?
    ensures ProperBody(us) && BodyValue(us) == ParseString(s).value.0 && s == Literal(us) + ParseString(s).value.1
  {
    hide ScanEnd, Unescaped, BodyText, BodyValue;
    var n := ScanEnd(s[1..]).value;
    us := BodySpelled(s[1..], n);
    assert s == "\"" + s[1..][..n] + "\"" + s[1..][n + 1..];
  }

  // ---- numbers and blanks

  /** Text that cannot prolong a number. */
  predicate EndsNumber(rest: string) {
    rest == [] || !IsDigit(rest[0])
  }

  lemma NumberRead(minus: bool, digits: string, rest: string)
    requires digits != [] && AllDigits(digits) && EndsNumber(rest)
    ensures var t := TNumber(minus, digits); ParseNumber(Text(t) + rest) == Some((Meant(t), rest))
  {
    hide Value, DigitRun;
    var t := digits + rest;
    var s := Text(TNumber(minus, digits)) + rest;
    assert t[..|digits|] == digits && t[|digits|..] == rest;
    DigitRunIs(t, |digits|);
    assert IsDigit(t[0]);
    assert if minus then s[0] == '-' && s[1..] == t else s == t;
  }

  lemma NumberSpelled(s: string) returns (t: Tree)
    requires ParseNumber(s).Some?
    ensures t.TNumber? && Proper(t) && Meant(t) == ParseNumber(s).value.0
    ensures s == Text(t) + ParseNumber(s).value.1 && EndsNumber(ParseNumber(s).value.1)
  {
    hide Value, DigitRun, AllDigits, IsDigit;
    var minus := s != [] && s[0] == '-';
    var d := if minus then s[1..] else s;
    var n := DigitRun(d);
    t := TNumber(minus, d[..n]);
    RunEnds(d);
    assert d == d[..n] + d[n..];
    assert s == (if minus then "-" else "") + d[..n] + d[n..];
  }

  lemma RunEnds(d: string)
    ensures AllDigits(d[..DigitRun(d)]) && EndsNumber(d[DigitRun(d)..])
  {
  }

  lemma BlankIs(c: char)
    ensures IsBlank(c) <==> 1 <= c as int <= 32
  {
  }

  lemma {:induction false} SkipOver(w: string, t: string)
    requires Blank(w) && (t == [] || !IsBlank(t[0]))
    ensures SkipBlanks(w + t) == t
  {
    if w == [] {
      assert w + t == t;
    } else {
      BlankIs(w[0]);
      assert (w + t)[1..] == w[1..] + t;
      SkipOver(w[1..], t);
    }
  }

  lemma {:induction false} BlanksBefore(s: string) returns (w: string)
    ensures Blank(w) && s == w + SkipBlanks(s)
  {
    if s != [] && IsBlank(s[0]) {
      var v := BlanksBefore(s[1..]);
      w := [s[0]] + v;
      BlankIs(s[0]);
      assert s == [s[0]] + s[1..];
    } else {
      w := "";
      assert "" + s == s;
    }
  }

  lemma SkipTwice(s: string)
    ensures SkipBlanks(SkipBlanks(s)) == SkipBlanks(s)
  {
  }

  // ---- values are read

  /** The first character of a value decides how it is read, and it is not blank. */
  lemma FirstChar(t: Tree)
    requires Proper(t)
    ensures var p := Text(t);
      p != [] && !IsBlank(p[0]) && p[0] != ']' && p[0] != '}' && p[0] != ',' &&
      match t
      case TNull => p == "null"
      case TFalse => p == "false"
      case TTrue => p == "true"
      case TNumber(_, _) => p[0] == '-' || IsDigit(p[0])
      case TString(_) => p[0] == '\"'
      case TNoItems(_) => p[0] == '['
      case TArray(_) => p[0] == '['
      case TNoMembers(_) => p[0] == '{'
      case TObject(_) => p[0] == '{'
  {
    hide ItemsText, EntriesText, BodyText;
  }

  lemma ParseWord(w: string, rest: string)
    requires w in ["null", "false", "true"]
    ensures ParseValue(w + rest) == Some((if w == "null" then Null else if w == "false" then False else True, rest))
  {
    var s := w + rest;
    assert s[..|w|] == w && s[|w|..] == rest;
    assert s[0] == w[0];
    if w == "true" {
      assert !("null" <= s) && !("false" <= s) by {
        assert "null"[0] != s[0] && "false"[0] != s[0];
      }
    } else if w == "false" {
      assert !("null" <= s) by {
        assert "null"[0] != s[0];
      }
    }
  }

  /** What no keyword starts is dispatched on its first character. */
  lemma ParseDispatch(s: string)
    requires s != [] && s[0] !in ['n', 'f', 't']
    ensures s[0] == '\"' ==>
      ParseValue(s) == match ParseString(s) { case Some((t, rest)) => Some((String(t), rest)) case None => None }
    ensures s[0] == '-' || IsDigit(s[0]) ==> ParseValue(s) == ParseNumber(s)
    ensures s[0] == '[' ==> ParseValue(s) == ParseArray(s)
    ensures s[0] == '{' ==> ParseValue(s) == ParseObject(s)
    ensures s[0] !in ['\"', '-', '[', '{'] && !IsDigit(s[0]) ==> ParseValue(s) == None
  {
    assert "null"[0] != s[0] && "false"[0] != s[0] && "true"[0] != s[0];
  }

  /** A value may be followed by anything, a number by no further digit. */
  predicate Follows(t: Tree, rest: string) {
    t.TNumber? ==> EndsNumber(rest)
  }

  /** Every spelling of a value is read as what it means, up to its end. */
  lemma {:induction false} ValueRead(t: Tree, rest: string)
    requires Proper(t) && Gapped(t, Blank) && Follows(t, rest)
    ensures ParseValue(Text(t) + rest) == Some((Meant(t), rest))
    decreases t, 1
  {
    hide ParseValue, ParseArray, ParseObject, ParseString, ParseNumber, ItemsText, EntriesText, BodyText, BodyValue;
    hide ProperItems, ProperEntries, GappedItems, GappedEntries, ItemsMeant, EntriesMeant;
    var s := Text(t) + rest;
    FirstChar(t);
    assert s[0] == Text(t)[0];
    match t
    case TNull => ParseWord("null", rest);
    case TFalse => ParseWord("false", rest);
    case TTrue => ParseWord("true", rest);
    case TNumber(minus, digits) =>
      ParseDispatch(s);
      NumberRead(minus, digits, rest);
    case TString(body) =>
      ParseDispatch(s);
      LiteralRead(body, rest);
    case TNoItems(gap) =>
      ParseDispatch(s);
      EmptyRead(gap, rest);
    case TArray(items) =>
      ParseDispatch(s);
      ArrayRead(items, rest);
    case TNoMembers(gap) =>
      ParseDispatch(s);
      EmptyRead(gap, rest);
    case TObject(members) =>
      ParseDispatch(s);
      ObjectRead(members, rest);
  }

  lemma EmptyRead(gap: string, rest: string)
    requires Blank(gap)
    ensures ParseArray("[" + gap + "]" + rest) == Some((Array([]), rest))
    ensures ParseObject("{" + gap + "}" + rest) == Some((Object([]), rest))
  {
    hide ParseItems, ParseMembers, SkipBlanks;
    assert ("[" + gap + "]" + rest)[1..] == gap + ("]" + rest) && ("]" + rest)[1..] == rest;
    assert ("{" + gap + "}" + rest)[1..] == gap + ("}" + rest) && ("}" + rest)[1..] == rest;
    SkipOver(gap, "]" + rest);
    SkipOver(gap, "}" + rest);
  }

  lemma {:induction false} ArrayRead(items: seq<Item>, rest: string)
    requires items != [] && ProperItems(items) && GappedItems(items, Blank)
    ensures ParseArray("[" + ItemsText(items) + "]" + rest) == Some((Array(ItemsMeant(items)), rest))
    decreases items, 1
  {
    hide ParseValue, ParseItems, SkipBlanks, ItemsText, ItemsMeant, Gapped, Proper;
    var close := "]" + rest;
    var s := ItemsText(items) + close;
    assert ("[" + ItemsText(items) + "]" + rest)[1..] == s && close[1..] == rest;
    ItemsStart(items, close);
    ItemsRead(items, close);
    ParseItemsSkip(s);
  }

  lemma ParseItemsSkip(s: string)
    ensures ParseItems(SkipBlanks(s)) == ParseItems(s)
    ensures ParseMembers(SkipBlanks(s)) == ParseMembers(s)
  {
    hide SkipBlanks, ParseValue, ParseMember;
    SkipTwice(s);
  }

  lemma ItemsStart(items: seq<Item>, tail: string)
    requires items != [] && ProperItems(items) && GappedItems(items, Blank)
    ensures var u := SkipBlanks(ItemsText(items) + tail); u != [] && u[0] != ']'
  {
    hide SkipBlanks, Text, Gapped, Proper;
    var i := items[0];
    var more := if |items| > 1 then "," + ItemsText(items[1..]) else "";
    FirstChar(i.value);
    assert ItemsText(items) + tail == i.before + (Text(i.value) + (i.after + more + tail));
    SkipOver(i.before, Text(i.value) + (i.after + more + tail));
  }

  lemma {:induction false} ItemsRead(items: seq<Item>, tail: string)
    requires items != [] && ProperItems(items) && GappedItems(items, Blank)
    requires tail != [] && tail[0] == ']'
    ensures ParseItems(ItemsText(items) + tail) == Some((ItemsMeant(items), tail))
    decreases items, 0
  {
    hide ParseValue, ParseItems, SkipBlanks, Text, Gapped, Proper, Meant, ItemsText, ItemsMeant;
    var i, s := items[0], ItemsText(items) + tail;
    var behind := if |items| > 1 then "," + (ItemsText(items[1..]) + tail) else tail;
    ItemsUnfold(items, tail);
    ItemRead(i, behind);
    if |items| == 1 {
      ItemsMeantUnfold(items);
      ParseLastItem(s, Meant(i.value), tail);
    } else {
      assert behind[1..] == ItemsText(items[1..]) + tail;
      ItemsRead(items[1..], tail);
      ItemsMeantUnfold(items);
      ParseOneItem(s, Meant(i.value), i.after + behind, behind, ItemsMeant(items[1..]), tail);
    }
  }

  lemma ItemsUnfold(items: seq<Item>, tail: string)
    requires items != [] && ProperItems(items) && GappedItems(items, Blank)
    ensures Proper(items[0].value) && ProperItems(items[1..])
    ensures GappedItem(items[0], Blank) && GappedItems(items[1..], Blank)
    ensures ItemsText(items) + tail ==
      ItemText(items[0]) + if |items| > 1 then "," + (ItemsText(items[1..]) + tail) else tail
  {
    hide ItemText, Proper, Gapped, GappedItem;
    Rejoin(ItemText(items[0]), ItemsText(items[1..]), tail);
  }

  lemma ItemsMeantUnfold(items: seq<Item>)
    requires items != [] && ProperItems(items)
    ensures Proper(items[0].value) && ProperItems(items[1..])
    ensures ItemsMeant(items) == [Meant(items[0].value)] + ItemsMeant(items[1..])
    ensures |items| == 1 ==> ItemsMeant(items) == [Meant(items[0].value)]
  {
    hide Meant, Proper;
  }

  /** A value between blanks is read, and the blanks behind it are passed over. */
  lemma {:induction false} ItemRead(i: Item, behind: string)
    requires Proper(i.value) && GappedItem(i, Blank)
    requires behind != [] && !IsBlank(behind[0]) && !IsDigit(behind[0])
    ensures ParseValue(SkipBlanks(ItemText(i) + behind)) == Some((Meant(i.value), i.after + behind))
    ensures SkipBlanks(i.after + behind) == behind
    decreases i, 2
  {
    hide ParseValue, SkipBlanks, Text, Gapped, Proper, Meant, IsBlank, IsDigit;
    var x := Text(i.value);
    FirstChar(i.value);
    assert ItemText(i) + behind == i.before + (x + (i.after + behind));
    SkipOver(i.before, x + (i.after + behind));
    BlankEnds(i.after, behind);
    ValueRead(i.value, i.after + behind);
    SkipOver(i.after, behind);
  }

  lemma BlankEnds(w: string, behind: string)
    requires Blank(w) && behind != [] && !IsDigit(behind[0])
    ensures EndsNumber(w + behind)
  {
  }

  lemma ParseLastItem(s: string, v: Json, tail: string)
    requires ParseValue(SkipBlanks(s)).Some? && ParseValue(SkipBlanks(s)).value.0 == v
    requires SkipBlanks(ParseValue(SkipBlanks(s)).value.1) == tail && (tail == [] || tail[0] != ',')
    ensures ParseItems(s) == Some(([v], tail))
  {
    hide ParseValue, SkipBlanks;
  }

  lemma ParseOneItem(s: string, v: Json, rest: string, behind: string, vs: seq<Json>, tail: string)
    requires ParseValue(SkipBlanks(s)) == Some((v, rest)) && SkipBlanks(rest) == behind && behind != []
    requires behind[0] == ',' && ParseItems(behind[1..]) == Some((vs, tail))
    ensures ParseItems(s) == Some(([v] + vs, tail))
  {
    hide ParseValue, SkipBlanks;
  }

  lemma {:induction false} ObjectRead(es: seq<Entry>, rest: string)
    requires es != [] && ProperEntries(es) && GappedEntries(es, Blank)
    ensures ParseObject("{" + EntriesText(es) + "}" + rest) == Some((Object(EntriesMeant(es)), rest))
    decreases es, 1
  {
    hide ParseMembers, SkipBlanks, EntriesText, EntriesMeant;
    var close := "}" + rest;
    var s := EntriesText(es) + close;
    assert ("{" + EntriesText(es) + "}" + rest)[1..] == s && close[1..] == rest;
    EntriesStart(es, close);
    EntriesRead(es, close);
    ParseItemsSkip(s);
  }

  lemma EntriesStart(es: seq<Entry>, tail: string)
    requires es != [] && GappedEntries(es, Blank)
    ensures var u := SkipBlanks(EntriesText(es) + tail); u != [] && u[0] != '}'
  {
    hide SkipBlanks, ItemText, BodyText;
    var e := es[0];
    var more := if |es| > 1 then "," + EntriesText(es[1..]) else "";
    var rest := e.mid + ":" + ItemText(e.item) + more + tail;
    assert EntriesText(es) + tail == e.before + (Literal(e.key) + rest);
    SkipOver(e.before, Literal(e.key) + rest);
  }

  lemma {:induction false} EntriesRead(es: seq<Entry>, tail: string)
    requires es != [] && ProperEntries(es) && GappedEntries(es, Blank)
    requires tail != [] && tail[0] == '}'
    ensures ParseMembers(EntriesText(es) + tail) == Some((EntriesMeant(es), tail))
    decreases es, 0
  {
    hide ParseMember, ParseMembers, SkipBlanks, Gapped, Proper, Meant, EntriesText, EntriesMeant, EntryText, BodyValue;
    var e, s := es[0], EntriesText(es) + tail;
    var behind := if |es| > 1 then "," + (EntriesText(es[1..]) + tail) else tail;
    EntriesUnfold(es, tail);
    EntryRead(e, behind);
    EntriesMeantUnfold(es);
    var m := Member(BodyValue(e.key), Meant(e.item.value));
    if |es| == 1 {
      ParseLastMember(s, m, tail);
    } else {
      assert behind[1..] == EntriesText(es[1..]) + tail;
      EntriesRead(es[1..], tail);
      ParseOneMember(s, m, e.item.after + behind, behind, EntriesMeant(es[1..]), tail);
    }
  }

  lemma EntriesUnfold(es: seq<Entry>, tail: string)
    requires es != [] && ProperEntries(es) && GappedEntries(es, Blank)
    ensures ProperBody(es[0].key) && Proper(es[0].item.value) && ProperEntries(es[1..])
    ensures Blank(es[0].before) && Blank(es[0].mid) && GappedItem(es[0].item, Blank) && GappedEntries(es[1..], Blank)
    ensures EntriesText(es) + tail ==
      EntryText(es[0]) + if |es| > 1 then "," + (EntriesText(es[1..]) + tail) else tail
  {
    hide EntryText, EntriesText, Proper, ProperBody, Gapped, GappedItem, Blank;
    EntriesTextUnfold(es, tail);
  }

  lemma EntriesTextUnfold(es: seq<Entry>, tail: string)
    requires es != []
    ensures EntriesText(es) + tail ==
      EntryText(es[0]) + if |es| > 1 then "," + (EntriesText(es[1..]) + tail) else tail
  {
    hide EntryText;
    Rejoin(EntryText(es[0]), EntriesText(es[1..]), tail);
  }

  lemma Rejoin(a: string, b: string, c: string)
    ensures a + ("," + b) + c == a + ("," + (b + c)) && a + "" + c == a + c
  {
  }

  lemma EntriesMeantUnfold(es: seq<Entry>)
    requires es != [] && ProperEntries(es)
    ensures ProperBody(es[0].key) && Proper(es[0].item.value) && ProperEntries(es[1..])
    ensures EntriesMeant(es) == [Member(BodyValue(es[0].key), Meant(es[0].item.value))] + EntriesMeant(es[1..])
    ensures |es| == 1 ==> EntriesMeant(es) == [Member(BodyValue(es[0].key), Meant(es[0].item.value))]
  {
    hide Meant, Proper, BodyValue;
  }

  lemma {:induction false} EntryRead(e: Entry, behind: string)
    requires ProperBody(e.key) && Proper(e.item.value) && Blank(e.before) && Blank(e.mid) && GappedItem(e.item, Blank)
    requires behind != [] && !IsBlank(behind[0]) && !IsDigit(behind[0])
    ensures ParseMember(SkipBlanks(EntryText(e) + behind)) ==
      Some((Member(BodyValue(e.key), Meant(e.item.value)), e.item.after + behind))
    ensures SkipBlanks(e.item.after + behind) == behind
    decreases e, 3
  {
    hide ParseValue, ParseString, SkipBlanks, Gapped, Proper, Meant, BodyText, BodyValue, ItemText, IsBlank, IsDigit;
    var k, colon := Literal(e.key), ":" + (ItemText(e.item) + behind);
    assert EntryText(e) + behind == e.before + (k + (e.mid + colon));
    StructuralChars();
    SkipOver(e.before, k + (e.mid + colon));
    LiteralRead(e.key, e.mid + colon);
    SkipOver(e.mid, colon);
    assert colon[1..] == ItemText(e.item) + behind;
    ItemRead(e.item, behind);
  }

  lemma StructuralChars()
    ensures !IsBlank('\"') && !IsBlank(':') && !IsBlank(',') && !IsBlank(']') && !IsBlank('}')
  {
  }

  lemma ParseLastMember(s: string, m: Member, tail: string)
    requires ParseMember(SkipBlanks(s)).Some? && ParseMember(SkipBlanks(s)).value.0 == m
    requires SkipBlanks(ParseMember(SkipBlanks(s)).value.1) == tail && (tail == [] || tail[0] != ',')
    ensures ParseMembers(s) == Some(([m], tail))
  {
    hide ParseMember, SkipBlanks;
  }

  lemma ParseOneMember(s: string, m: Member, rest: string, behind: string, ms: seq<Member>, tail: string)
    requires ParseMember(SkipBlanks(s)) == Some((m, rest)) && SkipBlanks(rest) == behind && behind != []
    requires behind[0] == ',' && ParseMembers(behind[1..]) == Some((ms, tail))
    ensures ParseMembers(s) == Some(([m] + ms, tail))
  {
    hide ParseMember, SkipBlanks;
  }

  // ---- what is read was spelled

  /** `t` spells the front of `s` and means `v`; `rest` stands behind it. */
  predicate Spells(t: Tree, s: string, v: Json, rest: string) {
    Proper(t) && Gapped(t, Blank) && Meant(t) == v && s == Text(t) + rest && Follows(t, rest)
  }

  lemma {:induction false} ValueSpelled(s: string) returns (t: Tree)
    requires ParseValue(s).Some?
    ensures Spells(t, s, ParseValue(s).value.0, ParseValue(s).value.1)
    decreases |s|, 1
  {
    hide ParseArray, ParseObject, ParseString, ParseNumber, Literal;
    if "null" <= s {
      t := TNull;
      assert s == "null" + s[4..];
    } else if "false" <= s {
      t := TFalse;
      assert s == "false" + s[5..];
    } else if "true" <= s {
      t := TTrue;
      assert s == "true" + s[4..];
    } else if s[0] == '\"' {
      var us := LiteralSpelled(s);
      t := TString(us);
    } else if s[0] == '-' || IsDigit(s[0]) {
      t := NumberSpelled(s);
    } else if s[0] == '[' {
      t := ArraySpelled(s);
    } else {
      t := ObjectSpelled(s);
    }
  }

  lemma {:induction false} ArraySpelled(s: string) returns (t: Tree)
    requires s != [] && s[0] == '[' && ParseArray(s).Some?
    ensures Spells(t, s, ParseArray(s).value.0, ParseArray(s).value.1) && !t.TNumber?
    decreases |s|, 0
  {
    hide ParseItems, SkipBlanks, ItemsText, ItemsMeant;
    var w := BlanksBefore(s[1..]);
    var u := SkipBlanks(s[1..]);
    if u != [] && u[0] == ']' {
      t := TNoItems(w);
      assert s == "[" + w + "]" + u[1..];
    } else {
      ParseItemsSkip(s[1..]);
      var items := ItemsSpelled(s[1..]);
      t := TArray(items);
      var rest := ParseItems(s[1..]).value.1;
      assert s == "[" + ItemsText(items) + "]" + rest[1..];
    }
  }

  lemma {:induction false} ItemsSpelled(s: string) returns (items: seq<Item>)
    requires ParseItems(s).Some?
    ensures items != [] && ProperItems(items) && GappedItems(items, Blank) && ItemsMeant(items) == ParseItems(s).value.0
    ensures s == ItemsText(items) + ParseItems(s).value.1
    decreases |s|, 3
  {
    hide ParseValue, SkipBlanks, ItemText, GappedItem, Proper, Meant;
    var i, u := ItemSpelled(s);
    if u != [] && u[0] == ',' {
      var more := ItemsSpelled(u[1..]);
      items := [i] + more;
      assert items[1..] == more;
      ItemsMeantUnfold(items);
      assert s == ItemText(i) + ("," + ItemsText(more)) + ParseItems(s).value.1;
    } else {
      items := [i];
      ItemsMeantUnfold(items);
    }
  }

  /** A value, the blanks before it and the blanks behind it. */
  lemma {:induction false} ItemSpelled(s: string) returns (i: Item, u: string)
    requires ParseValue(SkipBlanks(s)).Some?
    ensures Proper(i.value) && GappedItem(i, Blank) && Meant(i.value) == ParseValue(SkipBlanks(s)).value.0
    ensures u == SkipBlanks(ParseValue(SkipBlanks(s)).value.1) && s == ItemText(i) + u && |u| < |s|
    decreases |s|, 2
  {
    hide ParseValue, SkipBlanks, Text, Gapped, Proper, Meant;
    var w := BlanksBefore(s);
    var t := ValueSpelled(SkipBlanks(s));
    var rest := ParseValue(SkipBlanks(s)).value.1;
    var w' := BlanksBefore(rest);
    i, u := Item(w, t, w'), SkipBlanks(rest);
    assert s == w + (Text(t) + (w' + u));
  }

  lemma {:induction false} ObjectSpelled(s: string) returns (t: Tree)
    requires s != [] && s[0] == '{' && ParseObject(s).Some?
    ensures Spells(t, s, ParseObject(s).value.0, ParseObject(s).value.1) && !t.TNumber?
    decreases |s|, 0
  {
    hide ParseMembers, SkipBlanks, EntriesText, EntriesMeant;
    var w := BlanksBefore(s[1..]);
    var u := SkipBlanks(s[1..]);
    if u != [] && u[0] == '}' {
      t := TNoMembers(w);
      assert s == "{" + w + "}" + u[1..];
    } else {
      ParseItemsSkip(s[1..]);
      var es := EntriesSpelled(s[1..]);
      t := TObject(es);
      var rest := ParseMembers(s[1..]).value.1;
      assert s == "{" + EntriesText(es) + "}" + rest[1..];
    }
  }

  lemma {:induction false} EntriesSpelled(s: string) returns (es: seq<Entry>)
    requires ParseMembers(s).Some?
    ensures es != [] && ProperEntries(es) && GappedEntries(es, Blank) && EntriesMeant(es) == ParseMembers(s).value.0
    ensures s == EntriesText(es) + ParseMembers(s).value.1
    decreases |s|, 3
  {
    hide ParseMember, SkipBlanks, EntryText, Gapped, Proper, Meant, BodyValue, GappedItem, Blank;
    var e, u := EntrySpelled(s);
    if u != [] && u[0] == ',' {
      var more := EntriesSpelled(u[1..]);
      es := [e] + more;
      assert es[1..] == more;
      EntriesMeantUnfold(es);
      assert s == EntryText(e) + ("," + EntriesText(more)) + ParseMembers(s).value.1;
    } else {
      es := [e];
      EntriesMeantUnfold(es);
    }
  }

  lemma {:induction false} EntrySpelled(s: string) returns (e: Entry, u: string)
    requires ParseMember(SkipBlanks(s)).Some?
    ensures ProperBody(e.key) && Proper(e.item.value)
    ensures Blank(e.before) && Blank(e.mid) && GappedItem(e.item, Blank)
    ensures Member(BodyValue(e.key), Meant(e.item.value)) == ParseMember(SkipBlanks(s)).value.0
    ensures u == SkipBlanks(ParseMember(SkipBlanks(s)).value.1) && s == EntryText(e) + u && |u| < |s|
    decreases |s|, 2
  {
    hide ParseValue, ParseString, SkipBlanks, Literal, BodyValue, ItemText, Gapped, Proper, Meant;
    var w := BlanksBefore(s);
    var k := LiteralSpelled(SkipBlanks(s));
    var rest := ParseString(SkipBlanks(s)).value.1;
    var w' := BlanksBefore(rest);
    var colon := SkipBlanks(rest);
    var i;
    i, u := ItemSpelled(colon[1..]);
    e := Entry(w, k, w', i);
    assert s == w + (Literal(k) + (w' + (":" + (ItemText(i) + u))));
  }

  // ---- the parser and the grammar

  /** The parser returns a value exactly for the spellings of it, and what stands behind them. */
  lemma ParsesExactly(s: string, v: Json, rest: string)
    ensures ParseValue(s) == Some((v, rest)) <==> exists t :: Spells(t, s, v, rest)
  {
    hide ParseValue, Text, Meant, Gapped, Proper;
    if ParseValue(s) == Some((v, rest)) {
      var t := ValueSpelled(s);
    }
    forall t | Spells(t, s, v, rest) ensures ParseValue(s) == Some((v, rest)) {
      ValueRead(t, rest);
    }
  }

  /** Blanks, a spelling, and behind it blanks only when the text has to end there. */
  predicate Frames(w: string, t: Tree, rest: string, text: string, terminated: bool, v: Json, end: string) {
    && Blank(w) && text == w + (Text(t) + rest) && Spells(t, Text(t) + rest, v, rest)
    && if terminated then Blank(rest) && end == "" else end == rest
  }

  /** The parser accepts exactly the documents of the grammar and returns what they mean. */
  lemma DocumentsExactly(text: string, terminated: bool, v: Json, end: string)
    ensures ParseText(text, terminated) == Some((v, end)) <==>
      exists w, t, rest :: Frames(w, t, rest, text, terminated, v, end)
  {
    hide ParseValue, Text, Meant, Gapped, Proper, SkipBlanks, IsBlank;
    if ParseText(text, terminated) == Some((v, end)) {
      var w := BlanksBefore(text);
      var t := ValueSpelled(SkipBlanks(text));
      var rest := ParseValue(SkipBlanks(text)).value.1;
      var w' := BlanksBefore(rest);
      assert w' + [] == w';
      assert Frames(w, t, rest, text, terminated, v, end);
    }
    if w, t, rest :| Frames(w, t, rest, text, terminated, v, end) {
      FirstChar(t);
      SkipOver(w, Text(t) + rest);
      ValueRead(t, rest);
      if terminated {
        SkipOver(rest, "");
        assert rest + "" == rest;
      }
    }
  }

  // ---- wider gaps

  lemma {:induction false} GapsWiden(t: Tree, ok: string -> bool, ok': string -> bool)
    requires Gapped(t, ok) && forall w: string :: ok(w) ==> ok'(w)
    ensures Gapped(t, ok')
    decreases t, 1
  {
    match t
    case TArray(items) => ItemGapsWiden(items, ok, ok');
    case TObject(members) => EntryGapsWiden(members, ok, ok');
    case _ =>
  }

  lemma {:induction false} ItemGapsWiden(items: seq<Item>, ok: string -> bool, ok': string -> bool)
    requires GappedItems(items, ok) && forall w: string :: ok(w) ==> ok'(w)
    ensures GappedItems(items, ok')
    decreases items, 0
  {
    if items != [] {
      GapsWiden(items[0].value, ok, ok');
      ItemGapsWiden(items[1..], ok, ok');
    }
  }

  lemma {:induction false} EntryGapsWiden(es: seq<Entry>, ok: string -> bool, ok': string -> bool)
    requires GappedEntries(es, ok) && forall w: string :: ok(w) ==> ok'(w)
    ensures GappedEntries(es, ok')
    decreases es, 0
  {
    if es != [] {
      GapsWiden(es[0].item.value, ok, ok');
      EntryGapsWiden(es[1..], ok, ok');
    }
  }
}
