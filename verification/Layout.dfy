/** How a formatted text is laid out: a walk over the unformatted one that knows which brackets are open. */
module Layout {
  import opened JsonValue
  import opened Decimal
  import opened Printer
  import opened Parser
  import opened TextRoundTrip

  /**
   * The walk. `open` has an entry for every open bracket, true for a brace. String literals are copied. A line ends
   * behind an open brace and behind every member; a key stands one tab deeper than its object and the closing brace as
   * deep as it; a tab follows a colon, a space the comma of an array; an empty object takes two lines.
   */
  function Laid(s: string, open: seq<bool>, d: nat): (r: string)
    decreases |s|
  {
    if s == [] then ""
    else
      var c, t, depth := s[0], s[1..], d + |open|;
      if c == '\"' then (match ScanEnd(t)
        case Some(n) => s[..n + 2] + Laid(s[n + 2..], open, d)
        case None => s)
      else if c == '{' && t != [] && t[0] == '}' then "{\n" + Tabs(depth) + "}" + Laid(t[1..], open, d)
      else if c == '{' then "{\n" + Tabs(depth + 1) + Laid(t, open + [true], d)
      else if c == '[' then "[" + Laid(t, open + [false], d)
      else if open != [] && c == '}' then "\n" + Tabs(depth - 1) + "}" + Laid(t, open[..|open| - 1], d)
      else if open != [] && c == ']' then "]" + Laid(t, open[..|open| - 1], d)
      else if open != [] && c == ',' then
        (if open[|open| - 1] then ",\n" + Tabs(depth) else ", ") + Laid(t, open, d)
      else if c == ':' then ":\t" + Laid(t, open, d)
      else [c] + Laid(t, open, d)
  }

  // ---- the pieces

  /** Neither a bracket nor a separator nor a quote. */
  predicate Inner(c: char) {
    c != '\"' && c != '{' && c != '}' && c != '[' && c != ']' && c != ',' && c != ':'
  }

  lemma {:induction false} LaidInner(p: string, rest: string, open: seq<bool>, d: nat)
    requires forall i :: 0 <= i < |p| ==> Inner(p[i])
    ensures Laid(p + rest, open, d) == p + Laid(rest, open, d)
  {
    hide Laid, Inner;
    if p == [] {
      assert p + rest == rest && p + Laid(rest, open, d) == Laid(rest, open, d);
    } else {
      LaidInner(p[1..], rest, open, d);
      LaidChar(p[0], p[1..] + rest, open, d);
      assert p + rest == [p[0]] + (p[1..] + rest);
      assert [p[0]] + (p[1..] + Laid(rest, open, d)) == p + Laid(rest, open, d);
    }
  }

  lemma LaidChar(c: char, t: string, open: seq<bool>, d: nat)
    requires Inner(c)
    ensures Laid([c] + t, open, d) == [c] + Laid(t, open, d)
  {
    hide ScanEnd, Tabs;
    assert ([c] + t)[1..] == t;
  }

  lemma LaidQuoted(s: string, rest: string, open: seq<bool>, d: nat)
    ensures Laid(Quoted(s) + rest, open, d) == Quoted(s) + Laid(rest, open, d)
  {
    hide ScanEnd, EscapeText;
    var t, e := Quoted(s) + rest, EscapeText(s);
    assert t[0] == '\"' && t[1..] == e + ("\"" + rest);
    ScanQuoted(s, rest);
    assert t[..|e| + 2] == Quoted(s) && t[|e| + 2..] == rest;
  }

  lemma LaidOpen(t: string, open: seq<bool>, d: nat)
    ensures Laid("[" + t, open, d) == "[" + Laid(t, open + [false], d)
    ensures t != [] && t[0] == '}' ==> Laid("{" + t, open, d) == "{\n" + Tabs(d + |open|) + "}" + Laid(t[1..], open, d)
    ensures t == [] || t[0] != '}' ==>
      Laid("{" + t, open, d) == "{\n" + Tabs(d + |open| + 1) + Laid(t, open + [true], d)
  {
    assert ("[" + t)[1..] == t && ("{" + t)[1..] == t;
  }

  lemma LaidClose(t: string, open: seq<bool>, b: bool, d: nat)
    ensures Laid("]" + t, open + [b], d) == "]" + Laid(t, open, d)
    ensures Laid("}" + t, open + [b], d) == "\n" + Tabs(d + |open|) + "}" + Laid(t, open, d)
  {
    assert ("]" + t)[1..] == t && ("}" + t)[1..] == t && (open + [b])[..|open|] == open;
  }

  lemma LaidBetween(t: string, open: seq<bool>, d: nat)
    ensures Laid("," + t, open + [true], d) == ",\n" + Tabs(d + |open| + 1) + Laid(t, open + [true], d)
    ensures Laid("," + t, open + [false], d) == ", " + Laid(t, open + [false], d)
    ensures Laid(":" + t, open, d) == ":\t" + Laid(t, open, d)
  {
    assert ("," + t)[1..] == t && (":" + t)[1..] == t;
  }

  // ---- values

  lemma {:induction false} LaidPrint(v: Json, rest: string, open: seq<bool>, d: nat)
    ensures var k := d + |open|;
      Laid(Print(v, k, false) + rest, open, d) == Print(v, k, true) + Laid(rest, open, d)
    decreases v, 2
  {
    hide Laid, PrintItems, PrintMembers, Digits, Quoted;
    match v
    case String(s) => LaidQuoted(s, rest, open, d);
    case Array(items) => LaidArray(items, rest, open, d);
    case Object(ms) => LaidObject(ms, rest, open, d);
    case _ => LaidInner(Print(v, d + |open|, false), rest, open, d);
  }

  lemma {:induction false} LaidArray(items: seq<Json>, rest: string, open: seq<bool>, d: nat)
    ensures var k := d + |open|;
      Laid(Print(Array(items), k, false) + rest, open, d) == Print(Array(items), k, true) + Laid(rest, open, d)
    decreases items, 1
  {
    hide Laid, PrintItems;
    var k := d + |open|;
    var body, laid := PrintItems(items, k, false), PrintItems(items, k, true);
    assert "[" + body + "]" + rest == "[" + (body + ("]" + rest));
    LaidOpen(body + ("]" + rest), open, d);
    LaidItems(items, "]" + rest, open, d);
    LaidClose(rest, open, false, d);
    assert "[" + (laid + ("]" + Laid(rest, open, d))) == "[" + laid + "]" + Laid(rest, open, d);
  }

  lemma {:induction false} LaidItems(items: seq<Json>, rest: string, open: seq<bool>, d: nat)
    ensures var k, open' := d + |open|, open + [false];
      Laid(PrintItems(items, k, false) + rest, open', d) == PrintItems(items, k, true) + Laid(rest, open', d)
    decreases items, 0, |items|
  {
    hide Laid, Print;
    var k, open' := d + |open|, open + [false];
    if items == [] {
      assert "" + rest == rest && "" + Laid(rest, open', d) == Laid(rest, open', d);
    } else {
      var p, q := Print(items[0], k + 1, false), Print(items[0], k + 1, true);
      if |items| == 1 {
        assert p + "" == p && q + "" == q;
        LaidPrint(items[0], rest, open', d);
      } else {
        var more, laid := PrintItems(items[1..], k, false), PrintItems(items[1..], k, true);
        assert p + ("," + more) + rest == p + ("," + (more + rest));
        LaidPrint(items[0], "," + (more + rest), open', d);
        LaidBetween(more + rest, open, d);
        LaidItems(items[1..], rest, open, d);
        var z := Laid(rest, open', d);
        assert q + (", " + (laid + z)) == q + (", " + laid) + z;
      }
    }
  }

  lemma {:induction false} LaidObject(ms: seq<Member>, rest: string, open: seq<bool>, d: nat)
    ensures var k := d + |open|;
      Laid(Print(Object(ms), k, false) + rest, open, d) == Print(Object(ms), k, true) + Laid(rest, open, d)
    decreases ms, 1
  {
    hide Laid, PrintMembers, Tabs;
    var k, z := d + |open|, Laid(rest, open, d);
    var body, laid := PrintMembers(ms, k, false), PrintMembers(ms, k, true);
    assert Print(Object(ms), k, false) + rest == "{" + (body + ("}" + rest));
    LaidOpen(body + ("}" + rest), open, d);
    if ms == [] {
      PrintNothing(k, false);
      PrintNothing(k, true);
      assert body + ("}" + rest) == "}" + rest && ("}" + rest)[1..] == rest;
      assert "{" + "\n" + "" + Tabs(k) + "}" + z == "{\n" + Tabs(k) + "}" + z;
    } else {
      FirstKey(ms, k);
      LaidMembers(ms, rest, open, d);
      assert "{\n" + (laid + (Tabs(k) + ("}" + z))) == "{" + "\n" + laid + Tabs(k) + "}" + z;
      assert "{\n" + Tabs(k + 1) + Laid(body + ("}" + rest), open + [true], d)
        == "{\n" + (Tabs(k + 1) + Laid(body + ("}" + rest), open + [true], d));
    }
  }

  lemma FirstKey(ms: seq<Member>, k: nat)
    requires ms != []
    ensures var body := PrintMembers(ms, k, false); body != [] && body[0] == '\"'
  {
    hide Print;
  }

  /** One or more members and the closing brace. */
  lemma {:induction false} LaidMembers(ms: seq<Member>, rest: string, open: seq<bool>, d: nat)
    requires ms != []
    ensures var k, open' := d + |open|, open + [true];
      Tabs(k + 1) + Laid(PrintMembers(ms, k, false) + ("}" + rest), open', d) ==
        PrintMembers(ms, k, true) + (Tabs(k) + ("}" + Laid(rest, open, d)))
    decreases ms, 0, |ms|
  {
    hide Laid, Tabs, PrintMembers, PrintMember, MemberEnd;
    var k, open' := d + |open|, open + [true];
    var more, laid := PrintMembers(ms[1..], k, false), PrintMembers(ms[1..], k, true);
    var end, end', close := MemberEnd(|ms| > 1, false), MemberEnd(|ms| > 1, true), "}" + rest;
    var z := Tabs(k) + ("}" + Laid(rest, open, d));
    MembersUnfold(ms, k, false);
    MembersUnfold(ms, k, true);
    Regroup(PrintMember(ms[0], k, false), end, more, close);
    Regroup(PrintMember(ms[0], k, true), end', laid, z);
    LaidMember(ms[0], end + (more + close), open, d);
    if |ms| == 1 {
      PrintNothing(k, false);
      PrintNothing(k, true);
      assert ms[1..] == [];
    } else {
      LaidMembers(ms[1..], rest, open, d);
    }
    LaidEnd(|ms| > 1, more, laid, rest, open, d);
  }

  /** What stands behind a member. */
  lemma LaidEnd(another: bool, more: string, laid: string, rest: string, open: seq<bool>, d: nat)
    requires var k := d + |open|;
      if another then
        Tabs(k + 1) + Laid(more + ("}" + rest), open + [true], d) == laid + (Tabs(k) + ("}" + Laid(rest, open, d)))
      else more == "" && laid == ""
    ensures var k := d + |open|;
      Laid(MemberEnd(another, false) + (more + ("}" + rest)), open + [true], d) ==
        MemberEnd(another, true) + (laid + (Tabs(k) + ("}" + Laid(rest, open, d))))
  {
    hide Laid, Tabs;
    var k, close := d + |open|, "}" + rest;
    var z := Tabs(k) + ("}" + Laid(rest, open, d));
    if another {
      LaidBetween(more + close, open, d);
      var y := Laid(more + close, open + [true], d);
      assert MemberEnd(true, false) == "," && MemberEnd(true, true) == ",\n";
      assert ",\n" + Tabs(k + 1) + y == ",\n" + (Tabs(k + 1) + y);
    } else {
      LaidClose(rest, open, true, d);
      assert MemberEnd(false, false) + ("" + close) == close && "" + z == z;
      assert MemberEnd(false, true) == "\n";
      assert "\n" + Tabs(k) + "}" + Laid(rest, open, d) == "\n" + z;
    }
  }

  lemma MembersUnfold(ms: seq<Member>, d: nat, f: bool)
    requires ms != []
    ensures PrintMembers(ms, d, f) == PrintMember(ms[0], d, f) + MemberEnd(|ms| > 1, f) + PrintMembers(ms[1..], d, f)
  {
  }

  lemma Regroup(a: string, b: string, c: string, e: string)
    ensures (a + b) + c + e == a + (b + (c + e))
  {
  }

  lemma {:induction false} LaidMember(m: Member, rest: string, open: seq<bool>, d: nat)
    ensures var k, open' := d + |open|, open + [true];
      Tabs(k + 1) + Laid(PrintMember(m, k, false) + rest, open', d) == PrintMember(m, k, true) + Laid(rest, open', d)
    decreases m, 3
  {
    hide Laid, Tabs, Quoted, Print;
    var k, open' := d + |open|, open + [true];
    var q, p, laid, z := Quoted(m.key), Print(m.value, k + 1, false), Print(m.value, k + 1, true), Laid(rest, open', d);
    assert "" + q + ":" + p + rest == q + (":" + (p + rest));
    LaidQuoted(m.key, ":" + (p + rest), open', d);
    LaidBetween(p + rest, open', d);
    LaidPrint(m.value, rest, open', d);
    assert Tabs(k + 1) + (q + (":\t" + (laid + z))) == Tabs(k + 1) + q + ":\t" + laid + z;
  }

  /** The formatted text is the unformatted one laid out, for every document and depth. */
  lemma FormattedIsLaid(v: Json, d: nat)
    ensures Print(v, d, true) == Laid(Print(v, d, false), [], d)
  {
    hide Laid, Print;
    LaidPrint(v, "", [], d);
    assert Print(v, d, false) + "" == Print(v, d, false);
    LaidNothing([], d);
    assert Print(v, d, true) + "" == Print(v, d, true);
  }

  lemma LaidNothing(open: seq<bool>, d: nat)
    ensures Laid("", open, d) == ""
  {
  }
}
