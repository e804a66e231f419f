/** Removing blanks and comments from a text in place. */
module Minify {
  import opened CStrings
  import opened Decimal
  import opened JsonValue
  import opened Printer
  import opened Parser
  import opened Spelling
  import opened TextRoundTrip

  predicate Dropped(c: char) {
    c == ' ' || c == '\t' || c == '\r' || c == '\n'
  }

  /** Up to the end of the line or of the text. */
  function LineLength(s: string): (n: nat)
    ensures n <= |s| && (forall i :: 0 <= i < n ==> s[i] != '\n') && (n < |s| ==> s[n] == '\n')
  {
    if s == [] || s[0] == '\n' then 0 else 1 + LineLength(s[1..])
  }

  /** A star and a slash stand at index `i`. */
  predicate ClosesAt(s: string, i: nat) {
    i + 1 < |s| && s[i] == '*' && s[i + 1] == '/'
  }

  /** Up to and including the first star and slash; nothing if the comment never ends. */
  function CommentLength(s: string): (r: Option<nat>)
    ensures r.Some? ==> 2 <= r.value <= |s|
  {
    if s == [] then None
    else if s[0] == '*' && CharAt(s, 1) == '/' then Some(2)
    else (match CommentLength(s[1..])
      case Some(n) => Some(n + 1)
      case None => None)
  }

  lemma {:induction false} CommentEnds(s: string, n: nat)
    ensures CommentLength(s) == Some(n) <==>
      n >= 2 && ClosesAt(s, n - 2) && forall i: nat :: i < n - 2 ==> !ClosesAt(s, i)
  {
    if s != [] && !ClosesAt(s, 0) {
      var t := s[1..];
      assert forall i: nat :: i > 0 ==> ClosesAt(s, i) == ClosesAt(t, i - 1);
      assert forall i: nat :: ClosesAt(t, i) == ClosesAt(s, i + 1);
      if n > 0 {
        CommentEnds(t, n - 1);
      }
    }
  }

  predicate LineComment(s: string) {
    CharAt(s, 0) == '/' && CharAt(s, 1) == '/'
  }

  predicate BlockComment(s: string) {
    CharAt(s, 0) == '/' && CharAt(s, 1) == '*'
  }

  /** What `cJSON_Minify` leaves; nothing if it runs past the end of an open literal or comment. */
  function Minified(s: string): (r: Option<string>)
    decreases |s|
  {
    if s == [] then Some("")
    else if Dropped(s[0]) then Minified(s[1..])
    else if LineComment(s) then Minified(s[LineLength(s)..])
    else if BlockComment(s) then (match CommentLength(s)
      case Some(n) => Minified(s[n..])
      case None => None)
    else if s[0] == '\"' then (match ScanEnd(s[1..])
      case Some(n) => Prepend(s[..n + 2], Minified(s[n + 2..]))
      case None => None)
    else Prepend([s[0]], Minified(s[1..]))
  }

  // ---- what is dropped

  /** A blank, a comment up to its line end, or a comment between stars. */
  datatype Filler = Space(c: char) | Line(text: string) | Block(text: string)

  /** `*` and `/` stand side by side nowhere in a block comment before its end, the star that opens it included. */
  predicate ProperFiller(f: Filler) {
    match f
    case Space(c) => c in " \t\r\n"
    case Line(text) => '\n' !in text
    case Block(text) => forall i :: 0 <= i < |text| ==> !ClosesAt("*" + text, i)
  }

  function FillerText(f: Filler): (r: string) {
    match f
    case Space(c) => [c]
    case Line(text) => "//" + text + "\n"
    case Block(text) => "/*" + text + "*/"
  }

  predicate ProperFillers(fs: seq<Filler>) {
    fs == [] || (ProperFiller(fs[0]) && ProperFillers(fs[1..]))
  }

  function FillersText(fs: seq<Filler>): (r: string) {
    if fs == [] then "" else FillerText(fs[0]) + FillersText(fs[1..])
  }

  /** Blanks and comments. */
  ghost predicate Filling(w: string) {
    exists fs :: ProperFillers(fs) && FillersText(fs) == w
  }

  lemma DropFiller(f: Filler, rest: string)
    requires ProperFiller(f)
    ensures Minified(FillerText(f) + rest) == Minified(rest)
  {
    hide ScanEnd, CommentLength, LineLength;
    match f
    case Space(c) => assert ([c] + rest)[1..] == rest;
    case Line(text) => DropLine(text, rest);
    case Block(text) => DropBlock(text, rest);
  }

  lemma DropLine(text: string, rest: string)
    requires '\n' !in text
    ensures Minified("//" + text + "\n" + rest) == Minified(rest)
  {
    hide ScanEnd, CommentLength;
    var s := "//" + text + "\n" + rest;
    var n := |text| + 2;
    assert s[n] == '\n' && forall i :: 0 <= i < n ==> s[i] == ("//" + text)[i] != '\n';
    assert LineLength(s) == n;
    assert s[n..] == "\n" + rest && ("\n" + rest)[1..] == rest;
  }

  /**
   * A block comment ends where its text does exactly if no star and slash stand side by side before, and the star that
   * opens it counts.
   */
  lemma BlockEnds(text: string, rest: string)
    ensures CommentLength("/*" + text + "*/" + rest) == Some(|text| + 4) <==>
      forall i :: 0 <= i < |text| ==> !ClosesAt("*" + text, i)
  {
    hide CommentLength;
    var s, t, n := "/*" + text + "*/" + rest, "*" + text, |text| + 4;
    CommentEnds(s, n);
    assert ClosesAt(s, n - 2) && !ClosesAt(s, 0) && !ClosesAt(s, n - 3);
    forall i: nat | 0 < i < n - 3 ensures ClosesAt(s, i) == ClosesAt(t, i - 1) {
      assert t[i - 1] == s[i] && t[i] == s[i + 1];
    }
    forall i | 0 <= i < |text| ensures ClosesAt(t, i) == ClosesAt(s, i + 1) {
      assert t[i] == s[i + 1] && t[i + 1] == s[i + 2];
    }
  }

  /** So three characters can be a whole comment. */
  lemma ShortComment()
    ensures Minified("/*/1") == Some("1")
  {
    var s := "/*/1";
    assert ClosesAt(s, 1) && !ClosesAt(s, 0);
    CommentEnds(s, 3);
    assert s[3..] == "1";
    Keep("1", "");
    assert "1" + "" == "1";
    MinifiedEnd();
  }

  lemma DropBlock(text: string, rest: string)
    requires forall i :: 0 <= i < |text| ==> !ClosesAt("*" + text, i)
    ensures Minified("/*" + text + "*/" + rest) == Minified(rest)
  {
    hide ScanEnd, CommentLength, LineLength;
    var s := "/*" + text + "*/" + rest;
    BlockEnds(text, rest);
    assert s[|text| + 4..] == rest;
  }

  /** Blanks and comments between tokens leave no trace. */
  lemma {:induction false} DropFillers(fs: seq<Filler>, rest: string)
    requires ProperFillers(fs)
    ensures Minified(FillersText(fs) + rest) == Minified(rest)
  {
    hide Minified, ProperFiller, FillerText;
    if fs == [] {
      assert "" + rest == rest;
    } else {
      DropFillers(fs[1..], rest);
      assert FillersText(fs) + rest == FillerText(fs[0]) + (FillersText(fs[1..]) + rest);
      DropFiller(fs[0], FillersText(fs[1..]) + rest);
    }
  }

  lemma Drop(w: string, rest: string)
    requires Filling(w)
    ensures Minified(w + rest) == Minified(rest)
  {
    hide Minified, ProperFillers, FillersText;
    var fs :| ProperFillers(fs) && FillersText(fs) == w;
    DropFillers(fs, rest);
  }

  // ---- what is kept

  /** Copied as it stands wherever it is. */
  predicate Kept(c: char) {
    !Dropped(c) && c != '/' && c != '\"'
  }

  predicate AllKept(p: string) {
    forall i :: 0 <= i < |p| ==> Kept(p[i])
  }

  lemma {:induction false} Keep(p: string, rest: string)
    requires AllKept(p)
    ensures Minified(p + rest) == Prepend(p, Minified(rest))
  {
    if p == [] {
      assert p + rest == rest;
      PrependNothing(Minified(rest));
    } else {
      Keep(p[1..], rest);
      assert (p + rest)[1..] == p[1..] + rest;
      PrependTwice([p[0]], p[1..], Minified(rest));
      assert [p[0]] + p[1..] == p;
    }
  }

  /** Literals are copied whole, blanks and slashes included. */
  lemma KeepLiteral(us: seq<Unit>, rest: string)
    requires LexicalBody(us)
    ensures Minified(Literal(us) + rest) == Prepend(Literal(us), Minified(rest))
  {
    hide ScanEnd, BodyText;
    var t, e := Literal(us) + rest, BodyText(us);
    assert t[0] == '\"' && t[1..] == e + ("\"" + rest);
    ScanBody(us, rest);
    assert t[..|e| + 2] == Literal(us) && t[|e| + 2..] == rest;
  }

  // ---- documents

  /** The spelling without anything between its tokens. */
  function Tight(t: Tree): (r: Tree)
    decreases t
  {
    match t
    case TNoItems(_) => TNoItems("")
    case TArray(items) => TArray(TightItems(items))
    case TNoMembers(_) => TNoMembers("")
    case TObject(members) => TObject(TightEntries(members))
    case _ => t
  }

  function TightItem(i: Item): (r: Item)
    decreases i
  {
    Item("", Tight(i.value), "")
  }

  function TightItems(items: seq<Item>): (r: seq<Item>)
    ensures |r| == |items|
    decreases items
  {
    if items == [] then [] else [TightItem(items[0])] + TightItems(items[1..])
  }

  function TightEntries(es: seq<Entry>): (r: seq<Entry>)
    ensures |r| == |es|
    decreases es
  {
    if es == [] then [] else [Entry("", es[0].key, "", TightItem(es[0].item))] + TightEntries(es[1..])
  }

  /** Minifying a spelling, whatever stands behind it, leaves its tokens. */
  lemma {:induction false} MinifyTree(t: Tree, rest: string)
    requires Formed(t, LexicalBody) && Gapped(t, Filling)
    ensures Minified(Text(t) + rest) == Prepend(Text(Tight(t)), Minified(rest))
    decreases t, 1
  {
    hide Minified, ItemsText, EntriesText, TightItems, TightEntries, Literal, Filling, LexicalBody;
    hide FormedItems, FormedEntries, GappedItems, GappedEntries;
    match t
    case TString(body) => KeepLiteral(body, rest);
    case TNoItems(gap) => MinifyBetween("[", gap, "", "]", rest);
    case TArray(items) =>
      MinifyItems(items, "]" + rest);
      MinifyBetween("[", ItemsText(items), ItemsText(TightItems(items)), "]", rest);
    case TNoMembers(gap) => MinifyBetween("{", gap, "", "}", rest);
    case TObject(members) =>
      MinifyEntries(members, "}" + rest);
      MinifyBetween("{", EntriesText(members), EntriesText(TightEntries(members)), "}", rest);
    case _ => Keep(Text(t), rest);
  }

  /** Something between two characters that are kept. */
  lemma MinifyBetween(open: string, body: string, tight: string, close: string, rest: string)
    requires AllKept(open) && AllKept(close)
    requires
      Minified(body + (close + rest)) == Prepend(tight, Minified(close + rest)) || (tight == "" && Filling(body))
    ensures Minified(open + body + close + rest) == Prepend(open + tight + close, Minified(rest))
  {
    hide Minified, Filling, AllKept;
    var r := Minified(rest);
    if tight == "" && Filling(body) {
      Drop(body, close + rest);
      PrependNothing(Minified(close + rest));
    }
    assert open + body + close + rest == open + (body + (close + rest));
    Keep(open, body + (close + rest));
    Keep(close, rest);
    PrependTwice(tight, close, r);
    PrependTwice(open, tight + close, r);
    assert open + (tight + close) == open + tight + close;
  }

  lemma {:induction false} MinifyItem(i: Item, rest: string)
    requires Formed(i.value, LexicalBody) && GappedItem(i, Filling)
    ensures Minified(ItemText(i) + rest) == Prepend(ItemText(TightItem(i)), Minified(rest))
    decreases i, 2
  {
    hide Minified, Text, Tight, Filling, Formed, Gapped;
    var x := Text(i.value);
    assert ItemText(i) + rest == i.before + (x + (i.after + rest));
    Drop(i.before, x + (i.after + rest));
    MinifyTree(i.value, i.after + rest);
    Drop(i.after, rest);
    assert ItemText(TightItem(i)) == Text(Tight(i.value));
  }

  lemma {:induction false} MinifyItems(items: seq<Item>, rest: string)
    requires FormedItems(items, LexicalBody) && GappedItems(items, Filling)
    ensures Minified(ItemsText(items) + rest) == Prepend(ItemsText(TightItems(items)), Minified(rest))
    decreases items, 0
  {
    hide Minified, ItemText, TightItem, Formed, GappedItem;
    if items == [] {
      assert "" + rest == rest;
      PrependNothing(Minified(rest));
    } else {
      var more := if |items| > 1 then "," + ItemsText(items[1..]) else "";
      var tight := if |items| > 1 then "," + ItemsText(TightItems(items[1..])) else "";
      assert ItemsText(items) + rest == ItemText(items[0]) + (more + rest);
      MinifyItem(items[0], more + rest);
      MinifyItems(items[1..], rest);
      MinifyMore(|items| > 1, ItemsText(items[1..]), ItemsText(TightItems(items[1..])), rest);
      PrependTwice(ItemText(TightItem(items[0])), tight, Minified(rest));
      assert TightItems(items)[1..] == TightItems(items[1..]);
    }
  }

  lemma MinifyMore(more: bool, body: string, tight: string, rest: string)
    requires Minified(body + rest) == Prepend(tight, Minified(rest))
    ensures Minified((if more then "," + body else "") + rest) ==
      Prepend(if more then "," + tight else "", Minified(rest))
  {
    hide Minified;
    if more {
      assert "," + body + rest == "," + (body + rest);
      Keep(",", body + rest);
      PrependTwice(",", tight, Minified(rest));
    } else {
      assert "" + rest == rest;
      PrependNothing(Minified(rest));
    }
  }

  lemma {:induction false} MinifyEntries(es: seq<Entry>, rest: string)
    requires FormedEntries(es, LexicalBody) && GappedEntries(es, Filling)
    ensures Minified(EntriesText(es) + rest) == Prepend(EntriesText(TightEntries(es)), Minified(rest))
    decreases es, 0
  {
    hide Minified, EntryText, TightItem, Formed, GappedItem, Filling, LexicalBody;
    if es == [] {
      assert "" + rest == rest;
      PrependNothing(Minified(rest));
    } else {
      var more := if |es| > 1 then "," + EntriesText(es[1..]) else "";
      var tight := if |es| > 1 then "," + EntriesText(TightEntries(es[1..])) else "";
      assert EntriesText(es) + rest == EntryText(es[0]) + (more + rest);
      MinifyEntry(es[0], more + rest);
      MinifyEntries(es[1..], rest);
      MinifyMore(|es| > 1, EntriesText(es[1..]), EntriesText(TightEntries(es[1..])), rest);
      PrependTwice(EntryText(TightEntries(es)[0]), tight, Minified(rest));
      assert TightEntries(es)[1..] == TightEntries(es[1..]);
    }
  }

  lemma {:induction false} MinifyEntry(e: Entry, rest: string)
    requires LexicalBody(e.key) && Formed(e.item.value, LexicalBody)
    requires Filling(e.before) && Filling(e.mid) && GappedItem(e.item, Filling)
    ensures Minified(EntryText(e) + rest) ==
      Prepend(EntryText(Entry("", e.key, "", TightItem(e.item))), Minified(rest))
    decreases e, 3
  {
    hide Minified, ItemText, TightItem, Literal, Filling, Formed, GappedItem, LexicalBody;
    var k, x, y, r := Literal(e.key), ItemText(e.item), ItemText(TightItem(e.item)), Minified(rest);
    assert EntryText(e) + rest == e.before + (k + (e.mid + (":" + (x + rest))));
    Drop(e.before, k + (e.mid + (":" + (x + rest))));
    KeepLiteral(e.key, e.mid + (":" + (x + rest)));
    Drop(e.mid, ":" + (x + rest));
    Keep(":", x + rest);
    MinifyItem(e.item, rest);
    PrependTwice(":", y, r);
    PrependTwice(k, ":" + y, r);
    assert "" + k + "" + ":" + y == k + (":" + y);
  }

  /** Minifying keeps the meaning: blanks and comments go, and what is left is read as the document spelled. */
  lemma MinifyThenParse(w: string, t: Tree, w': string)
    requires Proper(t) && Gapped(t, Filling) && Filling(w) && Filling(w')
    ensures Minified(w + Text(t) + w') == Some(Text(Tight(t)))
    ensures ParseText(Text(Tight(t)), true) == Some((Meant(t), ""))
  {
    hide Minified, Text, Tight, Filling, Formed, Gapped, Proper, Meant;
    assert w + Text(t) + w' == w + (Text(t) + w') && w' + "" == w';
    Drop(w, Text(t) + w');
    ProperFormed(t);
    MinifyTree(t, w');
    Drop(w', "");
    MinifiedEnd();
    var p := Text(Tight(t));
    assert p + "" == p && "" + (p + "") == p;
    TightMeant(t);
    assert Frames("", Tight(t), "", p, true, Meant(t), "");
    DocumentsExactly(p, true, Meant(t), "");
  }

  lemma {:induction false} ProperFormed(t: Tree)
    requires Proper(t)
    ensures Formed(t, LexicalBody)
    decreases t, 1
  {
    match t
    case TArray(items) => ProperItemsFormed(items);
    case TObject(members) => ProperEntriesFormed(members);
    case _ =>
  }

  lemma {:induction false} ProperItemsFormed(items: seq<Item>)
    requires ProperItems(items)
    ensures FormedItems(items, LexicalBody)
    decreases items, 0
  {
    if items != [] {
      ProperFormed(items[0].value);
      ProperItemsFormed(items[1..]);
    }
  }

  lemma {:induction false} ProperEntriesFormed(es: seq<Entry>)
    requires ProperEntries(es)
    ensures FormedEntries(es, LexicalBody)
    decreases es, 0
  {
    if es != [] {
      ProperFormed(es[0].item.value);
      ProperEntriesFormed(es[1..]);
    }
  }

  lemma {:induction false} TightMeant(t: Tree)
    requires Proper(t)
    ensures Proper(Tight(t)) && Meant(Tight(t)) == Meant(t) && Gapped(Tight(t), Blank)
    decreases t, 1
  {
    hide BodyValue, Value, AllDigits, ProperBody;
    match t
    case TArray(items) => TightItemsMeant(items);
    case TObject(members) => TightEntriesMeant(members);
    case _ =>
  }

  lemma {:induction false} TightItemsMeant(items: seq<Item>)
    requires ProperItems(items)
    ensures var r := TightItems(items); ProperItems(r) && ItemsMeant(r) == ItemsMeant(items) && GappedItems(r, Blank)
    decreases items, 0
  {
    hide Proper, Meant, Gapped, Tight;
    if items != [] {
      TightMeant(items[0].value);
      TightItemsMeant(items[1..]);
      assert TightItems(items)[1..] == TightItems(items[1..]);
    }
  }

  lemma {:induction false} TightEntriesMeant(es: seq<Entry>)
    requires ProperEntries(es)
    ensures var r := TightEntries(es);
      ProperEntries(r) && EntriesMeant(r) == EntriesMeant(es) && GappedEntries(r, Blank)
    decreases es, 0
  {
    hide Proper, Meant, Gapped, Tight, ProperBody, BodyValue;
    if es != [] {
      TightMeant(es[0].item.value);
      TightEntriesMeant(es[1..]);
      assert TightEntries(es)[1..] == TightEntries(es[1..]);
    }
  }

  // ---- printed text

  lemma {:induction false} SpacesFill(w: string) returns (fs: seq<Filler>)
    requires Spaces(w)
    ensures ProperFillers(fs) && FillersText(fs) == w
  {
    if w == [] {
      fs := [];
    } else {
      var more := SpacesFill(w[1..]);
      fs := [Space(w[0])] + more;
      assert fs[1..] == more && [w[0]] + w[1..] == w;
    }
  }

  lemma SpacesFilling(w: string)
    requires Spaces(w)
    ensures Filling(w)
  {
    var fs := SpacesFill(w);
  }

  lemma UnitsLexical(s: string)
    ensures LexicalBody(UnitsOf(s))
  {
    QuotedIsLiteral(s);
  }

  lemma {:induction false} TightSpelled(v: Json, d: nat, f: bool)
    ensures Tight(Spelled(v, d, f)) == Spelled(v, d, false)
    decreases v, 1
  {
    hide SpelledItems, SpelledEntries, TightItems, TightEntries, UnitsOf, Digits;
    match v
    case Array(items) => TightSpelledItems(items, "", d, f);
    case Object(ms) => TightSpelledEntries(ms, d, f);
    case _ =>
  }

  lemma {:induction false} TightSpelledItems(items: seq<Json>, w: string, d: nat, f: bool)
    ensures TightItems(SpelledItems(items, w, d, f)) == SpelledItems(items, "", d, false)
    decreases items, 0, |items|
  {
    hide Spelled, Tight;
    if items != [] {
      TightSpelled(items[0], d + 1, f);
      TightSpelledItems(items[1..], if f then " " else "", d, f);
      assert SpelledItems(items, w, d, f)[1..] == SpelledItems(items[1..], if f then " " else "", d, f);
    }
  }

  lemma {:induction false} TightSpelledEntries(ms: seq<Member>, d: nat, f: bool)
    ensures TightEntries(SpelledEntries(ms, d, f)) == SpelledEntries(ms, d, false)
    decreases ms, 0, |ms|
  {
    hide Spelled, Tight, UnitsOf;
    if ms != [] {
      TightSpelled(ms[0].value, d + 1, f);
      TightSpelledEntries(ms[1..], d, f);
      assert SpelledEntries(ms, d, f)[1..] == SpelledEntries(ms[1..], d, f);
      var e := SpelledEntry(ms[0], d, f, |ms| == 1);
      assert Entry("", e.key, "", TightItem(e.item)) == SpelledEntry(ms[0], d, false, |ms| == 1);
    }
  }

  /** Minifying what either printer wrote gives exactly the unformatted text. */
  lemma MinifyPrinted(v: Json, d: nat, f: bool)
    ensures Minified(Print(v, d, f)) == Some(Print(v, d, false))
  {
    hide Print, Minified, Text, Tight, Spelled, Formed, Gapped, Filling, Spaces, UnitsOf, LexicalBody;
    var t := Spelled(v, d, f);
    forall s: string ensures LexicalBody(UnitsOf(s)) {
      UnitsLexical(s);
    }
    SpelledFormed(v, d, f, LexicalBody);
    SpelledGaps(v, d, f);
    forall w: string | Spaces(w) ensures Filling(w) {
      SpacesFilling(w);
    }
    GapsWiden(t, Spaces, Filling);
    MinifyTree(t, "");
    TightSpelled(v, d, f);
    SpelledText(v, d, f);
    SpelledText(v, d, false);
    MinifiedEnd();
    assert Print(v, d, f) + "" == Print(v, d, f) && Print(v, d, false) + "" == Print(v, d, false);
  }

  // ---- in place

  /** What has been written so far, and the untouched text still to be read. */
  ghost predicate Halfway(json: array<char>, text: string, into: nat, at: nat, done: string)
    reads json
  {
    && into <= at <= |text| < json.Length && |done| == into
    && json[..into] == done
    && json[at..|text| + 1] == text[at..] + "\0"
  }

  lemma PeekHere(json: array<char>, text: string, into: nat, at: nat, done: string)
    requires Halfway(json, text, into, at, done) && at < |text|
    ensures into <= at && |text| < json.Length && json[at] == text[at]
  {
    hide Halfway;
    Peek(json, text, into, at, done, 0);
    assert text[at..][0] == text[at];
  }

  lemma Peek(json: array<char>, text: string, into: nat, at: nat, done: string, k: nat)
    requires Halfway(json, text, into, at, done) && at + k <= |text|
    ensures into <= at && |text| < json.Length && json[at + k] == CharAt(text[at..], k)
  {
    assert json[at + k] == json[at..|text| + 1][k];
  }

  lemma Skip(json: array<char>, text: string, into: nat, at: nat, done: string, n: nat)
    requires Halfway(json, text, into, at, done) && at + n <= |text|
    ensures Halfway(json, text, into, at + n, done)
  {
    assert json[at + n..|text| + 1] == json[at..|text| + 1][n..];
    assert (text[at..] + "\0")[n..] == text[at + n..] + "\0";
  }

  /** Copy one character down; the write never overtakes the read. */
  method Move(json: array<char>, ghost text: string, into: nat, at: nat, ghost done: string)
    requires Halfway(json, text, into, at, done) && at < |text|
    modifies json
    ensures Halfway(json, text, into + 1, at + 1, done + [text[at]])
  {
    Peek(json, text, into, at, done, 0);
    Skip(json, text, into, at, done, 1);
    ghost var behind := json[at + 1..|text| + 1];
    json[into] := json[at];
    assert json[at + 1..|text| + 1] == behind;
    assert json[..into + 1] == json[..into] + [json[into]];
  }

  /** A line comment, up to its end. */
  method SkipLine(json: array<char>, ghost text: string, into: nat, start: nat, ghost done: string) returns (at: nat)
    requires Halfway(json, text, into, start, done) && NulFree(text)
    ensures at == start + LineLength(text[start..]) <= |text| && Halfway(json, text, into, at, done)
  {
    at := start;
    Peek(json, text, into, at, done, 0);
    while json[at] != '\0' && json[at] != '\n'
      invariant Halfway(json, text, into, at, done) && start <= at
      invariant json[at] == CharAt(text[at..], 0)
      invariant start + LineLength(text[start..]) == at + LineLength(text[at..])
      decreases |text| - at
    {
      assert text[at..][1..] == text[at + 1..];
      Skip(json, text, into, at, done, 1);
      at := at + 1;
      Peek(json, text, into, at, done, 0);
    }
  }

  /** A block comment, up to and including its end. */
  method SkipBlock(json: array<char>, ghost text: string, into: nat, start: nat, ghost done: string) returns (at: nat)
    requires Halfway(json, text, into, start, done) && NulFree(text)
    requires CommentLength(text[start..]).Some?
    ensures at == start + CommentLength(text[start..]).value <= |text| && Halfway(json, text, into, at, done)
  {
    at := start;
    Peek(json, text, into, at, done, 0);
    Peek(json, text, into, at, done, 1);
    while json[at] != '\0' && !(json[at] == '*' && json[at + 1] == '/')
      invariant Halfway(json, text, into, at, done) && start <= at < |text|
      invariant json[at] == CharAt(text[at..], 0) && json[at + 1] == CharAt(text[at..], 1)
      invariant CommentLength(text[at..]).Some?
      invariant start + CommentLength(text[start..]).value == at + CommentLength(text[at..]).value
      decreases |text| - at
    {
      assert text[at..][1..] == text[at + 1..];
      Skip(json, text, into, at, done, 1);
      at := at + 1;
      Peek(json, text, into, at, done, 0);
      Peek(json, text, into, at, done, 1);
    }
    Skip(json, text, into, at, done, 2);
    at := at + 2;
  }

  /** A string literal, copied down with both its quotes. */
  method MoveLiteral(json: array<char>, ghost text: string, from: nat, start: nat, ghost done: string)
    returns (into: nat, at: nat)
    requires Halfway(json, text, from, start, done) && NulFree(text)
    requires start < |text| && text[start] == '\"' && ScanEnd(text[start + 1..]).Some?
    modifies json
    ensures var n := ScanEnd(text[start + 1..]).value;
      at == start + n + 2 <= |text| && into == from + n + 2 && Halfway(json, text, into, at, done + text[start..at])
  {
    hide ScanEnd, Halfway;
    Move(json, text, from, start, done);
    into, at := MoveBody(json, text, from + 1, start + 1, done + [text[start]]);
    assert done + [text[start]] + text[start + 1..at] == done + text[start..at];
    MoveOn(json, text, into, at, done, start);
    into, at := into + 1, at + 1;
  }

  /** What is between the quotes, escapes copied in pairs. */
  method MoveBody(json: array<char>, ghost text: string, from: nat, start: nat, ghost done: string)
    returns (into: nat, at: nat)
    requires Halfway(json, text, from, start, done) && NulFree(text)
    requires start < |text| && ScanEnd(text[start..]).Some?
    modifies json
    ensures start <= at < |text| && at == start + ScanEnd(text[start..]).value && into - from == at - start
    ensures Halfway(json, text, into, at, done + text[start..at])
  {
    hide ScanEnd, Halfway;
    ghost var end := start + ScanEnd(text[start..]).value;
    into, at := from, start;
    assert done + text[start..at] == done;
    PeekHere(json, text, into, at, done);
    while json[at] != '\0' && json[at] != '\"'
      invariant start <= at < |text| && into - from == at - start
      invariant Halfway(json, text, into, at, done + text[start..at])
      invariant |text| < json.Length && json[at] == text[at]
      invariant ScanEnd(text[at..]).Some? && at + ScanEnd(text[at..]).value == end
      decreases |text| - at
    {
      ScanStep(text, at);
      if json[at] == '\\' {
        MoveOn(json, text, into, at, done, start);
        into, at := into + 1, at + 1;
      }
      MoveOn(json, text, into, at, done, start);
      into, at := into + 1, at + 1;
      PeekHere(json, text, into, at, done + text[start..at]);
    }
    ScanHere(text, at);
  }

  lemma ScanHere(text: string, at: nat)
    requires at < |text| && text[at] == '\"'
    ensures ScanEnd(text[at..]) == Some(0)
  {
  }

  /** Copy one more character of a run that began at `start`. */
  method MoveOn(json: array<char>, ghost text: string, into: nat, at: nat, ghost done: string, ghost start: nat)
    requires start <= at < |text| && Halfway(json, text, into, at, done + text[start..at])
    modifies json
    ensures Halfway(json, text, into + 1, at + 1, done + text[start..at + 1])
  {
    Move(json, text, into, at, done + text[start..at]);
    assert done + text[start..at] + [text[at]] == done + text[start..at + 1];
  }

  lemma ScanStep(text: string, at: nat)
    requires at < |text| && text[at] != '\"' && ScanEnd(text[at..]).Some?
    ensures var n := if text[at] == '\\' then 2 else 1;
      && at + n < |text| && ScanEnd(text[at + n..]).Some?
      && at + ScanEnd(text[at..]).value == at + n + ScanEnd(text[at + n..]).value
  {
    assert text[at..][1..] == text[at + 1..];
    if text[at] == '\\' && at + 1 < |text| {
      assert text[at..][2..] == text[at + 2..];
    }
  }

  /** One character of the spec, from any place of the text. */
  lemma MinifiedAt(text: string, at: nat)
    requires at < |text|
    ensures var s := text[at..];
      && (Dropped(s[0]) ==> Minified(s) == Minified(text[at + 1..]))
      && (LineComment(s) ==> Minified(s) == Minified(text[at + LineLength(s)..]))
      && (BlockComment(s) && CommentLength(s).Some? ==> Minified(s) == Minified(text[at + CommentLength(s).value..]))
      && (BlockComment(s) && CommentLength(s).None? ==> Minified(s).None?)
  {
    hide ScanEnd, CommentLength, LineLength;
    var s := text[at..];
    assert s[1..] == text[at + 1..];
    assert s[LineLength(s)..] == text[at + LineLength(s)..];
    if CommentLength(s).Some? {
      assert s[CommentLength(s).value..] == text[at + CommentLength(s).value..];
    }
  }

  lemma MinifiedLiteral(text: string, at: nat)
    requires at < |text| && text[at] == '\"' && Minified(text[at..]).Some?
    ensures ScanEnd(text[at + 1..]).Some?
    ensures var end := at + ScanEnd(text[at + 1..]).value + 2;
      end <= |text| && Minified(text[at..]) == Prepend(text[at..end], Minified(text[end..]))
  {
    hide ScanEnd, CommentLength, LineLength;
    var s := text[at..];
    assert s[1..] == text[at + 1..];
    var n := ScanEnd(s[1..]).value;
    assert s[..n + 2] == text[at..at + n + 2] && s[n + 2..] == text[at + n + 2..];
  }

  lemma MinifiedOther(text: string, at: nat)
    requires at < |text| && text[at] != '\"' && !Dropped(text[at]) && !LineComment(text[at..]) &&
      !BlockComment(text[at..])
    ensures Minified(text[at..]) == Prepend([text[at]], Minified(text[at + 1..]))
  {
    hide ScanEnd, CommentLength, LineLength;
    assert text[at..][1..] == text[at + 1..];
  }

  lemma Begin(json: array<char>, text: string)
    requires |text| < json.Length && json[..|text| + 1] == text + "\0"
    ensures Halfway(json, text, 0, 0, "")
  {
    assert json[..0] == "" && text[0..] == text && json[0..|text| + 1] == json[..|text| + 1];
  }

  method Terminate(json: array<char>, ghost text: string, into: nat, at: nat, ghost done: string)
    requires Halfway(json, text, into, at, done)
    modifies json
    ensures |done| <= |text| && json[..|done| + 1] == done + "\0"
  {
    json[into] := '\0';
    assert json[..into + 1] == json[..into] + [json[into]];
  }

  /** `cJSON_Minify` on a terminated text whose literals and comments are closed. */
  method MinifyInPlace(json: array<char>, ghost text: string)
    requires NulFree(text) && |text| < json.Length && json[..|text| + 1] == text + "\0"
    requires Minified(text).Some?
    modifies json
    ensures var r := Minified(text).value;
      |r| <= |text| && json[..|r| + 1] == r + "\0"
  {
    hide Minified, ScanEnd, CommentLength, LineLength, Halfway;
    var into: nat, at: nat := 0, 0;
    ghost var done := "";
    assert text[0..] == text;
    PrependNothing(Minified(text));
    Begin(json, text);
    Peek(json, text, into, at, done, 0);
    while json[at] != '\0'
      invariant at <= |text| && Halfway(json, text, into, at, done) && json[at] == CharAt(text[at..], 0)
      invariant Minified(text[at..]).Some? && Minified(text) == Prepend(done, Minified(text[at..]))
      decreases |text| - at
    {
      Peek(json, text, into, at, done, 1);
      MinifiedAt(text, at);
      if json[at] == ' ' || json[at] == '\t' || json[at] == '\r' || json[at] == '\n' {
        Skip(json, text, into, at, done, 1);
        at := at + 1;
      } else if json[at] == '/' && json[at + 1] == '/' {
        at := SkipLine(json, text, into, at, done);
      } else if json[at] == '/' && json[at + 1] == '*' {
        at := SkipBlock(json, text, into, at, done);
      } else if json[at] == '\"' {
        MinifiedLiteral(text, at);
        ghost var start := at;
        into, at := MoveLiteral(json, text, into, at, done);
        PrependTwice(done, text[start..at], Minified(text[at..]));
        done := done + text[start..at];
      } else {
        MinifiedOther(text, at);
        Move(json, text, into, at, done);
        PrependTwice(done, [text[at]], Minified(text[at + 1..]));
        done := done + [text[at]];
        into, at := into + 1, at + 1;
      }
      Peek(json, text, into, at, done, 0);
    }
    MinifiedEnd();
    assert text[at..] == "" && done + "" == done;
    Terminate(json, text, into, at, done);
  }

  lemma MinifiedEnd()
    ensures Minified("") == Some("")
  {
  }
}
