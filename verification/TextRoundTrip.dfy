/** The spelling each printer chooses, and reading it back. */
module TextRoundTrip {
  import opened CStrings
  import opened Decimal
  import opened JsonValue
  import opened Printer
  import opened Parser
  import opened Spelling

  // ---- strings

  /** The letters of the control characters that have one. */
  const LETTER: map<char, char> := map[BS := 'b', FF := 'f', '\n' := 'n', CR := 'r', '\t' := 't']

  /** As it is if that is allowed, else the two-character escape if there is one, else the code in lower case. */
  function UnitOf(c: char): (u: Unit) {
    if c == '\"' || c == '\\' then Short(c)
    else if c as int >= 32 then Plain(c)
    else if c in LETTER then Short(LETTER[c])
    else Code("00" + [LOWER[c as int / 16], LOWER[c as int % 16]], c as int)
  }

  function UnitsOf(s: string): (us: seq<Unit>)
    ensures |us| == |s|
  {
    if s == [] then [] else [UnitOf(s[0])] + UnitsOf(s[1..])
  }

  lemma UnitOfChar(c: char)
    ensures var u := UnitOf(c);
      UnitText(u) == EscapeChar(c) && LexicalUnit(u) && (c != '\0' ==> ProperUnit(u) && UnitValue(u) == [c])
  {
    hide Spells4, HexDigit, Utf8;
    if UnitOf(c).Code? {
      ControlCode(c as int);
    }
  }

  lemma ControlCode(n: nat)
    requires n < 32
    ensures var h := "00" + [LOWER[n / 16], LOWER[n % 16]];
      && Spells4(h, n) && "\\u" + h == "\\u00" + [HexDigit(n / 16), HexDigit(n % 16)]
      && (n != 0 ==> Utf8(n) == [n as char])
  {
    hide HexOf, HexDigit;
    assert n / 0x1000 == 0 && n / 0x100 % 0x10 == 0 && n / 0x10 % 0x10 == n / 16;
    LowerDigit(0);
    LowerDigit(n / 16);
    LowerDigit(n % 16);
  }

  lemma LowerDigit(k: nat)
    requires k < 16
    ensures LOWER[k] == HexDigit(k) && HexOf(LOWER[k], k)
  {
  }

  /** A printed string is a literal; what it spells is the string, unless that holds a NUL. */
  lemma {:induction false} QuotedIsLiteral(s: string)
    ensures var us := UnitsOf(s);
      Quoted(s) == Literal(us) && BodyText(us) == EscapeText(s) && LexicalBody(us) &&
      (NulFree(s) ==> ProperBody(us) && BodyValue(us) == s)
  {
    hide UnitOf, UnitText, UnitValue, ProperUnit, LexicalUnit, EscapeChar;
    if s != [] {
      UnitOfChar(s[0]);
      QuotedIsLiteral(s[1..]);
      var us := UnitsOf(s);
      assert us[1..] == UnitsOf(s[1..]);
      assert s == [s[0]] + s[1..];
      assert NulFree(s) ==> NulFree(s[1..]) && s[0] != '\0';
    }
  }

  /** Where a printed string ends. */
  lemma ScanQuoted(s: string, rest: string)
    ensures ScanEnd(EscapeText(s) + ("\"" + rest)) == Some(|EscapeText(s)|)
  {
    hide ScanEnd, EscapeText, BodyText;
    QuotedIsLiteral(s);
    ScanBody(UnitsOf(s), rest);
  }

  /** A printed string is read back, whatever follows it. */
  lemma ParseQuoted(s: string, rest: string)
    requires NulFree(s)
    ensures ParseString(Quoted(s) + rest) == Some((s, rest))
  {
    hide ParseString, Quoted, Literal, ProperBody;
    QuotedIsLiteral(s);
    LiteralRead(UnitsOf(s), rest);
  }

  // ---- documents

  function LineEnd(f: bool): (r: string) {
    if f then "\n" else ""
  }

  function Indent(d: nat, f: bool): (r: string) {
    if f then Tabs(d) else ""
  }

  /** The spelling of a document. */
  function Spelled(v: Json, d: nat, f: bool): (t: Tree)
    decreases v
  {
    match v
    case Null => TNull
    case False => TFalse
    case True => TTrue
    case Number(n) => TNumber(n < 0, Digits(if n < 0 then -n else n))
    case String(s) => TString(UnitsOf(s))
    case Array(items) => if items == [] then TNoItems("") else TArray(SpelledItems(items, "", d, f))
    case Object(ms) =>
      if ms == [] then TNoMembers(LineEnd(f) + Indent(d, f)) else TObject(SpelledEntries(ms, d, f))
  }

  /** A space before each item but the first. */
  function SpelledItems(items: seq<Json>, w: string, d: nat, f: bool): (r: seq<Item>)
    ensures |r| == |items|
    decreases items
  {
    if items == [] then []
    else [Item(w, Spelled(items[0], d + 1, f), "")] + SpelledItems(items[1..], if f then " " else "", d, f)
  }

  /** Each key on a line of its own, a tab before its value, and the closing brace on a line of its own. */
  function SpelledEntries(ms: seq<Member>, d: nat, f: bool): (r: seq<Entry>)
    ensures |r| == |ms|
    decreases ms
  {
    if ms == [] then [] else [SpelledEntry(ms[0], d, f, |ms| == 1)] + SpelledEntries(ms[1..], d, f)
  }

  function SpelledEntry(m: Member, d: nat, f: bool, last: bool): (r: Entry)
    decreases m
  {
    Entry(
      LineEnd(f) + Indent(d + 1, f), UnitsOf(m.key), "",
      Item(if f then "\t" else "", Spelled(m.value, d + 1, f), if last then LineEnd(f) + Indent(d, f) else ""))
  }

  // ---- the text of the spelling is what is printed

  lemma {:induction false} SpelledText(v: Json, d: nat, f: bool)
    ensures Text(Spelled(v, d, f)) == Print(v, d, f)
    decreases v, 1
  {
    hide SpelledItems, SpelledEntries, ItemsText, EntriesText, PrintItems, PrintMembers, Digits, Literal, Quoted;
    hide UnitsOf;
    match v
    case String(s) => QuotedIsLiteral(s);
    case Array(items) =>
      if items == [] {
        PrintNothing(d, f);
      } else {
        SpelledItemsText(items, "", d, f);
        assert "" + PrintItems(items, d, f) == PrintItems(items, d, f);
      }
    case Object(ms) => SpelledObjectText(ms, d, f);
    case _ =>
  }

  lemma {:induction false} SpelledObjectText(ms: seq<Member>, d: nat, f: bool)
    ensures Text(Spelled(Object(ms), d, f)) == Print(Object(ms), d, f)
    decreases ms, 1
  {
    hide SpelledEntries, EntriesText, PrintMembers, Tabs;
    var nl, p, i := LineEnd(f), PrintMembers(ms, d, f), Indent(d, f);
    if ms == [] {
      PrintNothing(d, f);
      assert "{" + (nl + i) + "}" == "{" + nl + "" + i + "}";
    } else {
      SpelledEntriesText(ms, d, f);
      assert "{" + (nl + p + i) + "}" == "{" + nl + p + i + "}";
    }
  }

  lemma PrintNothing(d: nat, f: bool)
    ensures PrintItems([], d, f) == "" && PrintMembers([], d, f) == ""
  {
  }

  lemma {:induction false} SpelledItemsText(items: seq<Json>, w: string, d: nat, f: bool)
    requires items != []
    ensures ItemsText(SpelledItems(items, w, d, f)) == w + PrintItems(items, d, f)
    decreases items, 0, |items|
  {
    hide Text, Print, Spelled;
    var r := SpelledItems(items, w, d, f);
    var p := Print(items[0], d + 1, f);
    SpelledText(items[0], d + 1, f);
    assert ItemText(r[0]) == w + p + "";
    if |items| == 1 {
      assert ItemsText(r) == w + p && PrintItems(items, d, f) == p;
    } else {
      var w' := if f then " " else "";
      SpelledItemsText(items[1..], w', d, f);
      assert r[1..] == SpelledItems(items[1..], w', d, f);
      assert "," + w' == Comma(f);
      var more := PrintItems(items[1..], d, f);
      assert w + p + "" + ("," + (w' + more)) == w + (p + ("," + w' + more));
    }
  }

  lemma {:induction false} SpelledEntriesText(ms: seq<Member>, d: nat, f: bool)
    requires ms != []
    ensures EntriesText(SpelledEntries(ms, d, f)) == LineEnd(f) + PrintMembers(ms, d, f) + Indent(d, f)
    decreases ms, 0, |ms|
  {
    hide EntryText, PrintMember, SpelledEntry, LineEnd, Indent, MemberEnd;
    var r := SpelledEntries(ms, d, f);
    SpelledEntryText(ms[0], d, f, |ms| == 1);
    EndIs(f);
    var nl, i, p := LineEnd(f), Indent(d, f), PrintMember(ms[0], d, f);
    if |ms| == 1 {
      assert ms[1..] == [] && PrintMembers(ms[1..], d, f) == "";
      assert nl + p + (nl + i) + "" == nl + (p + nl + "") + i;
    } else {
      SpelledEntriesText(ms[1..], d, f);
      assert r[1..] == SpelledEntries(ms[1..], d, f);
      var more := PrintMembers(ms[1..], d, f);
      assert nl + p + "" + ("," + (nl + more + i)) == nl + (p + ("," + nl) + more) + i;
    }
  }

  lemma EndIs(f: bool)
    ensures MemberEnd(true, f) == "," + LineEnd(f) && MemberEnd(false, f) == LineEnd(f)
  {
  }

  lemma {:induction false} SpelledEntryText(m: Member, d: nat, f: bool, last: bool)
    ensures EntryText(SpelledEntry(m, d, f, last)) ==
      LineEnd(f) + PrintMember(m, d, f) + if last then LineEnd(f) + Indent(d, f) else ""
    decreases m, 2
  {
    hide Text, Print, Spelled, Quoted, Literal, Tabs, LineEnd, Indent;
    QuotedIsLiteral(m.key);
    SpelledText(m.value, d + 1, f);
    var t := if f then "\t" else "";
    assert ":" + t == Colon(f);
    IndentIs(d + 1, f);
    Regroup(LineEnd(f), Indent(d + 1, f), Quoted(m.key), t, Print(m.value, d + 1, f),
            if last then LineEnd(f) + Indent(d, f) else "");
  }

  lemma IndentIs(d: nat, f: bool)
    ensures Indent(d, f) == if f then Tabs(d) else ""
  {
  }

  lemma Regroup(nl: string, i: string, q: string, t: string, p: string, after: string)
    ensures (nl + i) + q + "" + ":" + (t + p + after) == nl + (i + q + (":" + t) + p) + after
  {
    assert (nl + i) + q + "" + ":" == nl + (i + q + ":");
    assert i + q + (":" + t) + p == i + q + ":" + (t + p);
  }

  // ---- the spelling is proper and means the document

  /** Spaces, tabs and line ends. */
  predicate Spaces(w: string) {
    forall i :: 0 <= i < |w| ==> w[i] == ' ' || w[i] == '\t' || w[i] == '\n'
  }

  lemma {:induction false} SpelledGaps(v: Json, d: nat, f: bool)
    ensures Gapped(Spelled(v, d, f), Spaces)
    decreases v, 1
  {
    hide SpelledItems, SpelledEntries, GappedItems, GappedEntries, Digits;
    match v
    case Array(items) => SpelledItemsGaps(items, "", d, f);
    case Object(ms) => SpelledEntriesGaps(ms, d, f);
    case _ =>
  }

  lemma {:induction false} SpelledItemsGaps(items: seq<Json>, w: string, d: nat, f: bool)
    requires Spaces(w)
    ensures GappedItems(SpelledItems(items, w, d, f), Spaces)
    decreases items, 0, |items|
  {
    hide Spelled, Gapped;
    if items != [] {
      SpelledGaps(items[0], d + 1, f);
      SpelledItemsGaps(items[1..], if f then " " else "", d, f);
    }
  }

  lemma {:induction false} SpelledEntriesGaps(ms: seq<Member>, d: nat, f: bool)
    ensures GappedEntries(SpelledEntries(ms, d, f), Spaces)
    decreases ms, 0, |ms|
  {
    hide Spelled, Gapped;
    if ms != [] {
      SpelledGaps(ms[0].value, d + 1, f);
      SpelledEntriesGaps(ms[1..], d, f);
    }
  }

  lemma {:induction false} SpelledFormed(v: Json, d: nat, f: bool, lit: seq<Unit> -> bool)
    requires forall s: string :: lit(UnitsOf(s))
    ensures Formed(Spelled(v, d, f), lit)
    decreases v, 1
  {
    hide SpelledItems, SpelledEntries, FormedItems, FormedEntries, UnitsOf, Digits;
    match v
    case Array(items) => SpelledItemsFormed(items, "", d, f, lit);
    case Object(ms) => SpelledEntriesFormed(ms, d, f, lit);
    case _ =>
  }

  lemma {:induction false} SpelledItemsFormed(items: seq<Json>, w: string, d: nat, f: bool, lit: seq<Unit> -> bool)
    requires forall s: string :: lit(UnitsOf(s))
    ensures FormedItems(SpelledItems(items, w, d, f), lit)
    decreases items, 0, |items|
  {
    hide Spelled, Formed, UnitsOf;
    if items != [] {
      SpelledFormed(items[0], d + 1, f, lit);
      SpelledItemsFormed(items[1..], if f then " " else "", d, f, lit);
    }
  }

  lemma {:induction false} SpelledEntriesFormed(ms: seq<Member>, d: nat, f: bool, lit: seq<Unit> -> bool)
    requires forall s: string :: lit(UnitsOf(s))
    ensures FormedEntries(SpelledEntries(ms, d, f), lit)
    decreases ms, 0, |ms|
  {
    hide Spelled, Formed, UnitsOf;
    if ms != [] {
      SpelledFormed(ms[0].value, d + 1, f, lit);
      SpelledEntriesFormed(ms[1..], d, f, lit);
    }
  }

  lemma {:induction false} SpelledMeant(v: Json, d: nat, f: bool)
    requires Printable(v)
    ensures Proper(Spelled(v, d, f)) && Meant(Spelled(v, d, f)) == v
    decreases v, 1
  {
    hide SpelledItems, SpelledEntries, ProperItems, ProperEntries, ItemsMeant, EntriesMeant, Digits, Value, ProperBody;
    hide UnitsOf, BodyValue, BodyText, LexicalBody, Quoted, Literal, NulFree, AllDigits;
    match v
    case Number(n) => ValueDigits(if n < 0 then -n else n);
    case String(s) => QuotedIsLiteral(s);
    case Array(items) => SpelledItemsMeant(items, "", d, f);
    case Object(ms) => SpelledEntriesMeant(ms, d, f);
    case _ =>
  }

  lemma {:induction false} SpelledItemsMeant(items: seq<Json>, w: string, d: nat, f: bool)
    requires forall i :: 0 <= i < |items| ==> Printable(items[i])
    ensures var r := SpelledItems(items, w, d, f); ProperItems(r) && ItemsMeant(r) == items
    decreases items, 0, |items|
  {
    hide Spelled, Proper, Meant, Printable;
    if items != [] {
      SpelledMeant(items[0], d + 1, f);
      SpelledItemsMeant(items[1..], if f then " " else "", d, f);
      assert items == [items[0]] + items[1..];
    }
  }

  lemma {:induction false} SpelledEntriesMeant(ms: seq<Member>, d: nat, f: bool)
    requires forall i :: 0 <= i < |ms| ==> NulFree(ms[i].key) && Printable(ms[i].value)
    ensures var r := SpelledEntries(ms, d, f); ProperEntries(r) && EntriesMeant(r) == ms
    decreases ms, 0, |ms|
  {
    hide Spelled, Proper, Meant, Printable, ProperBody, BodyValue;
    if ms != [] {
      QuotedIsLiteral(ms[0].key);
      SpelledMeant(ms[0].value, d + 1, f);
      SpelledEntriesMeant(ms[1..], d, f);
      assert ms == [ms[0]] + ms[1..];
    }
  }

  // ---- round trips

  /** What is printed is a spelling of the document. */
  lemma PrintSpells(v: Json, d: nat, f: bool, rest: string)
    requires Printable(v) && (v.Number? ==> EndsNumber(rest))
    ensures Spells(Spelled(v, d, f), Print(v, d, f) + rest, v, rest)
  {
    hide Text, Print, Gapped, Proper, Meant;
    SpelledText(v, d, f);
    SpelledMeant(v, d, f);
    SpelledGaps(v, d, f);
    GapsWiden(Spelled(v, d, f), Spaces, Blank);
  }

  /** Printed text is read back, whatever follows it. */
  lemma ParsePrint(v: Json, d: nat, f: bool, rest: string)
    requires Printable(v) && (v.Number? ==> EndsNumber(rest))
    ensures ParseValue(Print(v, d, f) + rest) == Some((v, rest))
  {
    hide ParseValue, Print, Spells, Printable;
    PrintSpells(v, d, f, rest);
    ParsesExactly(Print(v, d, f) + rest, v, rest);
  }

  /**
   * Printing a document and parsing the text gives the document back and consumes it all, at any depth and in either
   * format.
   */
  lemma PrintThenParse(v: Json, d: nat, f: bool, terminated: bool)
    requires Printable(v)
    ensures ParseText(Print(v, d, f), terminated) == Some((v, ""))
  {
    hide Print, Spelled, Printable, Gapped, Proper, Meant, Text;
    var p, t := Print(v, d, f), Spelled(v, d, f);
    PrintSpells(v, d, f, "");
    SpelledText(v, d, f);
    assert p + "" == p && "" + (p + "") == p;
    assert Frames("", t, "", p, terminated, v, "");
    DocumentsExactly(p, terminated, v, "");
  }
}
