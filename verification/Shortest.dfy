/** The unformatted text is the shortest one. */
module Shortest {
  import opened Decimal
  import opened JsonValue
  import opened Printer
  import opened Parser
  import opened Spelling
  import opened TextRoundTrip

  /** Section 7 of RFC 8259: control characters only as escapes. */
  predicate StrictBody(us: seq<Unit>) {
    forall i :: 0 <= i < |us| ==> StrictUnit(us[i])
  }

  predicate StrictUnit(u: Unit) {
    u.Plain? ==> u.c as int >= 32
  }

  // ---- tokens

  lemma {:induction false} EscapeAppend(a: string, b: string)
    ensures EscapeText(a + b) == EscapeText(a) + EscapeText(b)
  {
    hide EscapeChar;
    if a == [] {
      assert a + b == b && "" + EscapeText(b) == EscapeText(b);
    } else {
      EscapeAppend(a[1..], b);
      assert (a + b)[1..] == a[1..] + b;
    }
  }

  lemma {:induction false} EscapeHigh(s: string)
    requires forall i :: 0 <= i < |s| ==> s[i] as int >= 128
    ensures EscapeText(s) == s
  {
    if s != [] {
      EscapeHigh(s[1..]);
      assert EscapeChar(s[0]) == [s[0]] && [s[0]] + s[1..] == s;
    }
  }

  lemma EscapeOne(c: char)
    ensures EscapeText([c]) == EscapeChar(c) && |EscapeChar(c)| <= 6
    ensures c as int >= 32 && c != '\"' && c != '\\' ==> |EscapeChar(c)| == 1
    ensures c in SHORT.Values ==> |EscapeChar(c)| <= 2
  {
    assert [c][1..] == "" && EscapeChar(c) + "" == EscapeChar(c);
  }

  lemma Utf8High(n: nat)
    requires n <= 0x10FFFF
    ensures n < 0x80 ==> Utf8(n) == [n as char]
    ensures n >= 0x80 ==> |Utf8(n)| <= 4 && forall i :: 0 <= i < |Utf8(n)| ==> Utf8(n)[i] as int >= 128
  {
  }

  /** No piece is shorter than what is printed for it. */
  lemma ShortestUnit(u: Unit)
    requires ProperUnit(u) && StrictUnit(u)
    ensures |EscapeText(UnitValue(u))| <= |UnitText(u)|
  {
    hide Utf8, EscapeChar, EscapeText, HexOf;
    match u
    case Plain(c) => EscapeOne(c);
    case Short(e) =>
      assert SHORT[e] in SHORT.Values;
      EscapeOne(SHORT[e]);
    case Code(_, n) => ShortestCode(n);
    case Pair(_, n, _, n') => ShortestCode(0x10000 + (n - 0xD800) * 0x400 + (n' - 0xDC00));
  }

  lemma ShortestCode(n: nat)
    requires n <= 0x10FFFF
    ensures |EscapeText(Utf8(n))| <= 6
  {
    hide Utf8, EscapeChar, EscapeText;
    Utf8High(n);
    if n < 0x80 {
      EscapeOne(n as char);
    } else {
      EscapeHigh(Utf8(n));
    }
  }

  lemma {:induction false} ShortestBody(us: seq<Unit>)
    requires ProperBody(us) && StrictBody(us)
    ensures |EscapeText(BodyValue(us))| <= |BodyText(us)|
  {
    hide EscapeText, UnitText, UnitValue, ProperUnit, StrictUnit;
    if us == [] {
      EscapeNothing();
    } else {
      ShortestUnit(us[0]);
      ShortestBody(us[1..]);
      EscapeAppend(UnitValue(us[0]), BodyValue(us[1..]));
    }
  }

  lemma EscapeNothing()
    ensures EscapeText("") == ""
  {
  }

  lemma {:induction false} ShortestDigits(s: string)
    requires s != [] && AllDigits(s)
    ensures |Digits(Value(s))| <= |s|
  {
    if |s| > 1 {
      ShortestDigits(s[..|s| - 1]);
    }
  }

  // ---- documents

  /** No text of the grammar that spells a document is shorter than its unformatted text. */
  lemma {:induction false} NoneShorter(t: Tree, d: nat)
    requires Proper(t) && Formed(t, StrictBody)
    ensures |Print(Meant(t), d, false)| <= |Text(t)|
    decreases t, 1
  {
    hide EscapeText, BodyText, BodyValue, Digits, Value, PrintItems, PrintMembers, ItemsText, EntriesText;
    hide ProperItems, ProperEntries, FormedItems, FormedEntries, ItemsMeant, EntriesMeant, ProperBody, StrictBody;
    match t
    case TNumber(_, digits) => ShortestDigits(digits);
    case TString(body) => ShortestBody(body);
    case TNoItems(_) => PrintNone(d);
    case TArray(items) => ShortestItems(items, d);
    case TNoMembers(_) => PrintNone(d);
    case TObject(members) => ShortestEntries(members, d);
    case _ =>
  }

  lemma PrintNone(d: nat)
    ensures PrintItems([], d, false) == "" && PrintMembers([], d, false) == ""
  {
  }

  lemma {:induction false} ShortestItems(items: seq<Item>, d: nat)
    requires ProperItems(items) && FormedItems(items, StrictBody)
    ensures |PrintItems(ItemsMeant(items), d, false)| <= |ItemsText(items)|
    decreases items, 0
  {
    hide Print, Text, Meant, Proper, Formed;
    if items != [] {
      NoneShorter(items[0].value, d + 1);
      ShortestItems(items[1..], d);
      assert ItemsMeant(items)[1..] == ItemsMeant(items[1..]);
    }
  }

  lemma {:induction false} ShortestEntries(es: seq<Entry>, d: nat)
    requires ProperEntries(es) && FormedEntries(es, StrictBody)
    ensures |PrintMembers(EntriesMeant(es), d, false)| <= |EntriesText(es)|
    decreases es, 0
  {
    hide Print, Text, Meant, Proper, Formed, EscapeText, BodyText, BodyValue, ProperBody, StrictBody;
    if es != [] {
      ShortestBody(es[0].key);
      NoneShorter(es[0].item.value, d + 1);
      ShortestEntries(es[1..], d);
      var ms := EntriesMeant(es);
      assert ms[0] == Member(BodyValue(es[0].key), Meant(es[0].item.value)) && ms[1..] == EntriesMeant(es[1..]);
      assert |PrintMember(ms[0], d, false)| <= |EntryText(es[0])|;
      assert |es| == 1 ==> PrintMembers(ms[1..], d, false) == "";
    }
  }

  /** The unformatted text is itself such a spelling. */
  lemma PrintedStrict(v: Json, d: nat, f: bool)
    ensures Formed(Spelled(v, d, f), StrictBody)
  {
    hide Spelled, Formed, StrictBody, UnitsOf;
    forall s: string ensures StrictBody(UnitsOf(s)) {
      UnitsStrict(s);
    }
    SpelledFormed(v, d, f, StrictBody);
  }

  lemma {:induction false} UnitsStrict(s: string)
    ensures StrictBody(UnitsOf(s))
  {
    if s != [] {
      UnitsStrict(s[1..]);
    }
  }
}
