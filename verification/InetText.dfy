/** Textual internet addresses: what the parsers accept, token by token, and what section 2.2 of RFC 4291 writes. */
module InetText {
  import opened CStrings
  import opened Decimal
  import Parser

  type Octet = x: int | 0 <= x < 256

  // ---- fields between separators

  /** The pieces between separators; one more than there are separators. */
  function Fields(s: string, sep: char): (f: seq<string>)
    ensures f != []
  {
    if s == [] then [""]
    else
      var f := Fields(s[1..], sep);
      if s[0] == sep then [""] + f else [[s[0]] + f[0]] + f[1..]
  }

  function Join(parts: seq<string>, sep: char): (s: string) {
    if parts == [] then ""
    else if |parts| == 1 then parts[0]
    else parts[0] + [sep] + Join(parts[1..], sep)
  }

  predicate Free(s: string, c: char) {
    forall i :: 0 <= i < |s| ==> s[i] != c
  }

  predicate AllFree(parts: seq<string>, c: char) {
    forall i :: 0 <= i < |parts| ==> Free(parts[i], c)
  }

  lemma {:induction false} FieldsOfFree(s: string, sep: char)
    requires Free(s, sep)
    ensures Fields(s, sep) == [s]
  {
    if s != [] {
      FieldsOfFree(s[1..], sep);
      assert [s[0]] + s[1..] == s;
    }
  }

  /** The first separator ends the first field. */
  lemma {:induction false} FieldsSplit(a: string, sep: char, b: string)
    requires Free(a, sep)
    ensures Fields(a + [sep] + b, sep) == [a] + Fields(b, sep)
  {
    var s := a + [sep] + b;
    if a == [] {
      assert s[1..] == b;
    } else {
      FieldsSplit(a[1..], sep, b);
      assert s[1..] == a[1..] + [sep] + b;
      assert [a[0]] + a[1..] == a;
      assert ([a[1..]] + Fields(b, sep))[1..] == Fields(b, sep);
    }
  }

  lemma {:induction false} FieldsJoin(parts: seq<string>, sep: char)
    requires parts != [] && AllFree(parts, sep)
    ensures Fields(Join(parts, sep), sep) == parts
  {
    if |parts| == 1 {
      FieldsOfFree(parts[0], sep);
    } else {
      FieldsJoin(parts[1..], sep);
      FieldsSplit(parts[0], sep, Join(parts[1..], sep));
      assert [parts[0]] + parts[1..] == parts;
    }
  }

  /** Fields of a text are free of the separator and join to the text again. */
  lemma {:induction false} JoinFields(s: string, sep: char)
    ensures AllFree(Fields(s, sep), sep) && Join(Fields(s, sep), sep) == s
  {
    if s != [] {
      JoinFields(s[1..], sep);
      var f := Fields(s[1..], sep);
      var g := Fields(s, sep);
      if s[0] == sep {
        assert g[1..] == f;
        assert Join(g, sep) == "" + [sep] + Join(f, sep);
      } else if |f| == 1 {
        assert Join(g, sep) == [s[0]] + f[0];
      } else {
        assert g[1..] == f[1..];
        assert Join(g, sep) == [s[0]] + (f[0] + [sep] + Join(f[1..], sep));
      }
      assert s == [s[0]] + s[1..];
    }
  }

  /** A beginning without separators is a beginning of the first field, and all of it if the text ends there. */
  lemma {:induction false} FirstField(a: string, sep: char, b: string)
    requires Free(a, sep)
    ensures a <= Fields(a + b, sep)[0]
    ensures b != [] && b[0] != sep ==> a + [b[0]] <= Fields(a + b, sep)[0]
  {
    var s := a + b;
    if a == [] {
      assert s == b;
    } else {
      FirstField(a[1..], sep, b);
      assert s[1..] == a[1..] + b;
      assert a == [a[0]] + a[1..];
    }
  }

  lemma {:induction false} OneField(s: string, sep: char)
    requires |Fields(s, sep)| == 1
    ensures Fields(s, sep) == [s]
  {
    JoinFields(s, sep);
  }

  // ---- dotted quads

  predicate OctetText(s: string) {
    s != [] && AllDigits(s) && Value(s) <= 255
  }

  /** Four decimal numbers up to 255, with any number of leading zeros. */
  predicate QuadText(s: string) {
    var f := Fields(s, '.');
    |f| == 4 && forall i :: 0 <= i < 4 ==> OctetText(f[i])
  }

  function Quad(s: string): (r: seq<Octet>)
    requires QuadText(s)
    ensures |r| == 4
  {
    var f := Fields(s, '.');
    [Value(f[0]), Value(f[1]), Value(f[2]), Value(f[3])]
  }

  // ---- hexadecimal groups

  predicate IsHex(c: char) {
    Parser.HexValue(c).Some?
  }

  function HexDigitValue(c: char): (d: nat)
    requires IsHex(c)
    ensures d < 16
  {
    Parser.HexValue(c).value
  }

  predicate AllHex(s: string) {
    forall i :: 0 <= i < |s| ==> IsHex(s[i])
  }

  function HexNumber(s: string): (n: nat)
    requires AllHex(s)
  {
    if s == [] then 0 else 16 * HexNumber(s[..|s| - 1]) + HexDigitValue(s[|s| - 1])
  }

  /** Sixteen bits in either case, with any number of leading zeros. */
  predicate GroupText(s: string) {
    s != [] && AllHex(s) && HexNumber(s) <= 0xFFFF
  }

  function Group(s: string): (r: seq<Octet>)
    requires GroupText(s)
    ensures |r| == 2
  {
    [HexNumber(s) / 256, HexNumber(s) % 256]
  }

  lemma HexSnoc(s: string, c: char)
    requires AllHex(s) && IsHex(c)
    ensures AllHex(s + [c]) && HexNumber(s + [c]) == 16 * HexNumber(s) + HexDigitValue(c)
  {
    assert (s + [c])[..|s|] == s;
  }

  lemma {:induction false} HexPrefix(p: string, s: string)
    requires AllHex(s) && p <= s
    ensures AllHex(p) && HexNumber(p) <= HexNumber(s)
    decreases |s|
  {
    if p != s {
      HexPrefix(p, s[..|s| - 1]);
    }
  }

  // ---- addresses, token by token

  /** Bytes so far and, once `::` was seen, where. */
  datatype Partial = Partial(bytes: seq<Octet>, gap: Option<nat>)

  /** Add the bytes of a token if there is room for them. */
  function Put(p: Partial, more: seq<Octet>): (r: Option<Partial>) {
    if |p.bytes| + |more| <= 16 then Some(p.(bytes := p.bytes + more)) else None
  }

  /** The tokens between colons: an empty one marks the gap, the last one may be empty or a dotted quad. */
  function Tokens(f: seq<string>, p: Partial): (r: Option<Partial>)
    requires f != []
    decreases |f|
  {
    if |f| == 1 then
      if f[0] == "" then Some(p)
      else if GroupText(f[0]) then Put(p, Group(f[0]))
      else if QuadText(f[0]) then Put(p, Quad(f[0]))
      else None
    else if f[0] == "" then
      if p.gap.Some? then None else Tokens(f[1..], p.(gap := Some(|p.bytes|)))
    else if GroupText(f[0]) then (match Put(p, Group(f[0]))
      case Some(q) => Tokens(f[1..], q)
      case None => None)
    else None
  }

  function Zeros(n: nat): (r: seq<Octet>)
    ensures |r| == n && forall i :: 0 <= i < n ==> r[i] == 0
  {
    seq(n, i => 0)
  }

  /** Filling the gap; with no room left to fill, what followed it is lost. */
  function Filled(p: Partial): (r: Option<seq<Octet>>)
    ensures r.Some? ==> |r.value| == 16
  {
    match p.gap
    case None => if |p.bytes| == 16 then Some(p.bytes) else None
    case Some(k) =>
      if k > |p.bytes| || |p.bytes| > 16 then None
      else if |p.bytes| == 16 then Some(p.bytes[..k] + Zeros(16 - k))
      else Some(p.bytes[..k] + Zeros(16 - |p.bytes|) + p.bytes[k..])
  }

  /** A leading colon must be one of two; the first is dropped. */
  predicate BadStart(s: string) {
    CharAt(s, 0) == ':' && CharAt(s, 1) != ':'
  }

  function Strip(s: string): (t: string) {
    if CharAt(s, 0) == ':' then s[1..] else s
  }

  /** What `inet_pton6` answers. */
  function Address(s: string): (r: Option<seq<Octet>>)
    ensures r.Some? ==> |r.value| == 16
  {
    if BadStart(s) then None
    else match Tokens(Fields(Strip(s), ':'), Partial([], None))
      case Some(p) => Filled(p)
      case None => None
  }

  // ---- written addresses

  /** The token behind the last colon. */
  datatype Last = LastGroup(text: string) | LastQuad(text: string) | Nothing

  /** Groups that end in a colon, a gap and more such groups if there is one, and the last token. */
  datatype Text = Text(pre: seq<string>, post: Option<seq<string>>, last: Last)

  function LastText(l: Last): (s: string) {
    if l.Nothing? then "" else l.text
  }

  predicate Groups(gs: seq<string>) {
    forall i :: 0 <= i < |gs| ==> GroupText(gs[i])
  }

  function GroupBytes(gs: seq<string>): (r: seq<Octet>)
    requires Groups(gs)
    ensures |r| == 2 * |gs|
  {
    if gs == [] then [] else Group(gs[0]) + GroupBytes(gs[1..])
  }

  predicate GoodLast(l: Last) {
    match l
    case LastGroup(s) => GroupText(s)
    case LastQuad(s) => QuadText(s)
    case Nothing => true
  }

  function LastBytes(l: Last): (r: seq<Octet>)
    requires GoodLast(l)
  {
    match l
    case LastGroup(s) => Group(s)
    case LastQuad(s) => Quad(s)
    case Nothing => []
  }

  predicate Shaped(t: Text) {
    Groups(t.pre) && (t.post.Some? ==> Groups(t.post.value)) && GoodLast(t.last)
  }

  /** Bytes in front of the gap, and behind it. */
  function Front(t: Text): (r: seq<Octet>)
    requires Shaped(t)
  {
    if t.post.None? then GroupBytes(t.pre) + LastBytes(t.last) else GroupBytes(t.pre)
  }

  function Back(t: Text): (r: seq<Octet>)
    requires Shaped(t)
  {
    if t.post.None? then [] else GroupBytes(t.post.value) + LastBytes(t.last)
  }

  function Layout(t: Text): (f: seq<string>)
    ensures f != []
  {
    t.pre + (if t.post.Some? then [""] + t.post.value else []) + [LastText(t.last)]
  }

  /** Tokens and colons; a gap at the very beginning is written with both its colons. */
  function Spell(t: Text): (s: string) {
    (if t.pre == [] && t.post.Some? then ":" else "") + Join(Layout(t), ':')
  }

  /**
   * Written as section 2.2 of RFC 4291 says: all sixteen bytes, or a gap of at least one group of zeros, and no colon
   * left over.
   */
  predicate Proper(t: Text) {
    && Shaped(t)
    && (t.last.Nothing? ==> t.post == Some([]))
    && (if t.post.None? then |Front(t)| == 16 else |Front(t)| + |Back(t)| < 16)
  }

  function Meaning(t: Text): (r: seq<Octet>)
    requires Proper(t)
    ensures |r| == 16
  {
    Front(t) + Zeros(16 - |Front(t)| - |Back(t)|) + Back(t)
  }

  /** What the parser takes besides: a colon too many at the end, and a gap where nothing is missing. */
  predicate Lax(t: Text) {
    Shaped(t) && (if t.post.None? then |Front(t)| == 16 else |Front(t)| + |Back(t)| <= 16)
  }

  function Outcome(t: Text): (r: seq<Octet>)
    requires Lax(t)
    ensures |r| == 16
  {
    if |Front(t)| + |Back(t)| == 16 then Front(t) + Zeros(|Back(t)|)
    else Front(t) + Zeros(16 - |Front(t)| - |Back(t)|) + Back(t)
  }

  /** Where the writing is proper the outcome is its meaning. */
  lemma ProperIsLax(t: Text)
    requires Proper(t)
    ensures Lax(t) && Outcome(t) == Meaning(t)
  {
  }

  // ---- tokens of a written address

  lemma {:induction false} TokensGroups(gs: seq<string>, rest: seq<string>, p: Partial)
    requires Groups(gs) && rest != [] && |p.bytes| + 2 * |gs| <= 16
    ensures Tokens(gs + rest, p) == Tokens(rest, p.(bytes := p.bytes + GroupBytes(gs)))
    decreases |gs|
  {
    hide GroupText, QuadText, Tokens;
    if gs == [] {
      assert gs + rest == rest && p.bytes + [] == p.bytes;
    } else {
      var q := p.(bytes := p.bytes + Group(gs[0]));
      TokensGroup(gs[0], gs[1..] + rest, p);
      TokensGroups(gs[1..], rest, q);
      assert gs + rest == [gs[0]] + (gs[1..] + rest);
      assert q.bytes + GroupBytes(gs[1..]) == p.bytes + (Group(gs[0]) + GroupBytes(gs[1..]));
    }
  }

  lemma TokensGroup(g: string, rest: seq<string>, p: Partial)
    requires GroupText(g) && rest != [] && |p.bytes| + 2 <= 16
    ensures Tokens([g] + rest, p) == Tokens(rest, p.(bytes := p.bytes + Group(g)))
  {
    hide GroupText, QuadText;
    GroupPlain(g);
    assert ([g] + rest)[1..] == rest;
  }

  lemma GroupPlain(s: string)
    requires GroupText(s)
    ensures s != "" && Free(s, ':')
  {
  }

  lemma QuadIsNoGroup(s: string)
    requires QuadText(s)
    ensures s != "" && !GroupText(s)
  {
    if Free(s, '.') {
      FieldsOfFree(s, '.');
    }
  }

  lemma TokensLast(l: Last, p: Partial)
    requires GoodLast(l) && |p.bytes| + |LastBytes(l)| <= 16
    ensures Tokens([LastText(l)], p) == Some(p.(bytes := p.bytes + LastBytes(l)))
  {
    if l.LastQuad? {
      QuadIsNoGroup(l.text);
    } else if l.Nothing? {
      assert p.bytes + [] == p.bytes;
    }
  }

  lemma TokensOf(t: Text)
    requires Shaped(t) && |Front(t)| + |Back(t)| <= 16
    ensures Tokens(Layout(t), Partial([], None))
      == Some(Partial(Front(t) + Back(t), if t.post.Some? then Some(|Front(t)|) else None))
  {
    hide Tokens, GroupBytes, LastBytes, GoodLast, Groups;
    var start := Partial([], None);
    var last := [LastText(t.last)];
    assert [] + GroupBytes(t.pre) == GroupBytes(t.pre);
    if t.post.None? {
      assert Layout(t) == t.pre + last;
      TokensGroups(t.pre, last, start);
      TokensLast(t.last, Partial(GroupBytes(t.pre), None));
      assert Front(t) + [] == Front(t);
    } else {
      var tail := t.post.value + last;
      assert Layout(t) == t.pre + ([""] + tail);
      TokensGroups(t.pre, [""] + tail, start);
      var p := Partial(GroupBytes(t.pre), None);
      TokensGap(tail, p);
      var g := Partial(p.bytes, Some(|p.bytes|));
      TokensGroups(t.post.value, last, g);
      TokensLast(t.last, g.(bytes := p.bytes + GroupBytes(t.post.value)));
      assert p.bytes + GroupBytes(t.post.value) + LastBytes(t.last) ==
        p.bytes + (GroupBytes(t.post.value) + LastBytes(t.last));
    }
  }

  lemma TokensGap(f: seq<string>, p: Partial)
    requires f != [] && p.gap.None?
    ensures Tokens([""] + f, p) == Tokens(f, p.(gap := Some(|p.bytes|)))
  {
    assert ([""] + f)[1..] == f;
  }

  // ---- fields of a written address

  lemma {:induction false} FieldsCover(s: string, sep: char, c: char)
    requires AllFree(Fields(s, sep), c) && c != sep
    ensures Free(s, c)
  {
    if s != [] {
      var f := Fields(s[1..], sep);
      var g := Fields(s, sep);
      assert AllFree(f, c) by {
        if s[0] == sep {
          assert forall i :: 0 <= i < |f| ==> f[i] == g[i + 1];
        } else {
          assert g[0] == [s[0]] + f[0];
          assert Free(f[0], c) by {
            assert forall i :: 0 <= i < |f[0]| ==> f[0][i] == g[0][i + 1];
          }
          assert forall i :: 1 <= i < |f| ==> f[i] == g[i];
        }
      }
      FieldsCover(s[1..], sep, c);
      assert s[0] != c by {
        if s[0] != sep {
          assert g[0][0] == s[0];
        }
      }
    }
  }

  lemma QuadFree(s: string)
    requires QuadText(s)
    ensures Free(s, ':')
  {
    FieldsCover(s, '.', ':');
  }

  lemma LayoutFields(t: Text)
    requires Shaped(t)
    ensures AllFree(Layout(t), ':') && Fields(Join(Layout(t), ':'), ':') == Layout(t)
  {
    hide Fields, Join, GroupText, QuadText;
    forall g | GroupText(g)
      ensures Free(g, ':')
    {
      GroupPlain(g);
    }
    if t.last.LastQuad? {
      QuadFree(t.last.text);
    }
    FieldsJoin(Layout(t), ':');
  }

  /** How a spelled address starts. */
  lemma SpellStart(t: Text)
    requires Shaped(t)
    ensures !BadStart(Spell(t)) && Strip(Spell(t)) == Join(Layout(t), ':')
  {
    hide Fields, GroupText, QuadText;
    var f := Layout(t);
    if t.pre != [] {
      GroupPlain(t.pre[0]);
      assert f[0] == t.pre[0];
    } else if t.post.Some? {
      assert f[0] == "" && |f| > 1;
      assert Spell(t)[1] == Join(f, ':')[0] == ':';
    } else {
      assert f == [LastText(t.last)];
      if t.last.LastQuad? {
        QuadFree(t.last.text);
      } else if t.last.LastGroup? {
        GroupPlain(t.last.text);
      }
    }
  }

  /** Every lax text is accepted, with the outcome. */
  lemma AddressOf(t: Text)
    requires Lax(t)
    ensures Address(Spell(t)) == Some(Outcome(t))
  {
    hide Tokens, Fields, Join, BadStart, Strip, Spell, Shaped, Layout;
    SpellStart(t);
    LayoutFields(t);
    TokensOf(t);
    var bytes, k := Front(t) + Back(t), |Front(t)|;
    assert bytes[..k] == Front(t) && bytes[k..] == Back(t);
    if t.post.None? {
      assert Front(t) + Zeros(0) == bytes;
    }
  }

  /** Every properly written address is read as what it means. */
  lemma ProperAccepted(t: Text)
    requires Proper(t)
    ensures Address(Spell(t)) == Some(Meaning(t))
  {
    ProperIsLax(t);
    AddressOf(t);
  }

  // ---- and nothing else is accepted

  /** Tokens that are accepted are those of some text. */
  lemma {:induction false} TokensSound(f: seq<string>, p: Partial) returns (t: Text)
    requires f != [] && |p.bytes| <= 16 && Tokens(f, p).Some?
    ensures Shaped(t) && Layout(t) == f && (p.gap.Some? ==> t.post.None?)
    ensures |p.bytes| + |Front(t)| + |Back(t)| <= 16
    decreases |f|
  {
    hide GroupText, QuadText, Shaped, Front, Back, Layout;
    if |f| == 1 {
      t := Text([], None, if f[0] == "" then Nothing else if GroupText(f[0]) then LastGroup(f[0]) else LastQuad(f[0]));
      OnlyLast(t.last);
    } else if f[0] == "" {
      var u := TokensSound(f[1..], p.(gap := Some(|p.bytes|)));
      t := Text([], Some(u.pre), u.last);
      GapFirst(u);
      assert [f[0]] + f[1..] == f;
    } else {
      var u := TokensSound(f[1..], p.(bytes := p.bytes + Group(f[0])));
      t := u.(pre := [f[0]] + u.pre);
      GroupFirst(f[0], u);
      assert [f[0]] + f[1..] == f;
    }
  }

  lemma OnlyLast(l: Last)
    requires GoodLast(l)
    ensures var t := Text([], None, l);
      Shaped(t) && Layout(t) == [LastText(l)] && Front(t) == LastBytes(l) && Back(t) == []
  {
    assert [] + LastBytes(l) == LastBytes(l);
  }

  lemma GapFirst(u: Text)
    requires Shaped(u) && u.post.None?
    ensures var t := Text([], Some(u.pre), u.last);
      Shaped(t) && Layout(t) == [""] + Layout(u) && |Front(t)| + |Back(t)| == |Front(u)| + |Back(u)|
  {
  }

  lemma GroupFirst(g: string, u: Text)
    requires Shaped(u) && GroupText(g)
    ensures var t := u.(pre := [g] + u.pre);
      Shaped(t) && Layout(t) == [g] + Layout(u) && |Front(t)| + |Back(t)| == 2 + |Front(u)| + |Back(u)|
  {
    hide GroupText, GroupBytes;
    var t := u.(pre := [g] + u.pre);
    assert Layout(t) == [g] + Layout(u);
  }

  lemma AddressSound(s: string) returns (t: Text)
    requires Address(s).Some?
    ensures Lax(t) && Spell(t) == s && Outcome(t) == Address(s).value
  {
    hide Tokens, Shaped, Outcome;
    var f := Fields(Strip(s), ':');
    t := TokensSound(f, Partial([], None));
    JoinFields(Strip(s), ':');
    TokensOf(t);
    StartsWithGap(s, t);
    assert s == Spell(t);
    AddressOf(t);
  }

  /** The accepted texts are exactly the lax ones, and the bytes are their outcome. */
  lemma AddressExactly(s: string, b: seq<Octet>)
    ensures Address(s) == Some(b) <==> exists t :: Lax(t) && Spell(t) == s && Outcome(t) == b
  {
    hide Address, Lax, Spell, Outcome;
    if Address(s) == Some(b) {
      var t := AddressSound(s);
    }
    forall t | Lax(t) && Spell(t) == s && Outcome(t) == b
      ensures Address(s) == Some(b)
    {
      AddressOf(t);
    }
  }

  lemma StartsWithGap(s: string, t: Text)
    requires !BadStart(s) && Shaped(t) && Layout(t) == Fields(Strip(s), ':')
    ensures CharAt(s, 0) == ':' <==> t.pre == [] && t.post.Some?
  {
    hide GroupText, QuadText;
    var r := Strip(s);
    var f := Layout(t);
    assert CharAt(s, 0) == CharAt(r, 0);
    if t.pre != [] {
      GroupPlain(t.pre[0]);
      assert f[0] == t.pre[0];
    } else if t.post.Some? {
      assert |f| > 1 && f[0] == "";
    } else {
      OneField(r, ':');
      JoinFields(r, ':');
      assert f == [r];
    }
  }

  // ---- where the accepted texts are proper ones

  /** A single colon at the end. */
  predicate LooseEnd(s: string) {
    |s| > 0 && s[|s| - 1] == ':' && !(|s| > 1 && s[|s| - 2] == ':')
  }

  /** A gap although the tokens already make sixteen bytes. */
  predicate FullGap(s: string) {
    match Tokens(Fields(Strip(s), ':'), Partial([], None))
    case Some(p) => p.gap.Some? && |p.bytes| == 16
    case None => false
  }

  lemma {:induction false} JoinSnoc(f: seq<string>, x: string, sep: char)
    requires f != []
    ensures Join(f + [x], sep) == Join(f, sep) + [sep] + x
  {
    if |f| == 1 {
      assert (f + [x])[1..] == [x];
    } else {
      JoinSnoc(f[1..], x, sep);
      assert (f + [x])[1..] == f[1..] + [x];
      assert f[0] + [sep] + (Join(f[1..], sep) + [sep] + x) == f[0] + [sep] + Join(f[1..], sep) + [sep] + x;
    }
  }

  /** The last character of a join is that of its last part. */
  lemma JoinEnd(f: seq<string>, sep: char)
    requires f != [] && f[|f| - 1] != ""
    ensures var s, x := Join(f, sep), f[|f| - 1]; s != "" && s[|s| - 1] == x[|x| - 1]
  {
    if |f| > 1 {
      JoinSnoc(f[..|f| - 1], f[|f| - 1], sep);
      assert f[..|f| - 1] + [f[|f| - 1]] == f;
    }
  }

  lemma JoinEmptyEnd(f: seq<string>)
    requires f != []
    ensures Join(f + [""], ':') == Join(f, ':') + ":" && Join([""], ':') == ""
  {
    JoinSnoc(f, "", ':');
  }

  lemma LooseEndIff(t: Text)
    requires Lax(t)
    ensures LooseEnd(Spell(t)) <==> t.last.Nothing? && t.post != Some([])
  {
    hide Spell, Layout, Shaped, Front, Back;
    if !t.last.Nothing? {
      EndsInToken(t);
    } else if t.post == Some([]) {
      EndsInGap(t);
    } else {
      EndsLoose(t);
    }
  }

  lemma EndsInToken(t: Text)
    requires Shaped(t) && !t.last.Nothing?
    ensures var s := Spell(t); |s| > 0 && s[|s| - 1] != ':'
  {
    hide Join, GroupText, QuadText;
    var f := Layout(t);
    LastFree(t.last);
    assert f[|f| - 1] == t.last.text;
    JoinEnd(f, ':');
  }

  lemma EndsInGap(t: Text)
    requires Shaped(t) && t.last.Nothing? && t.post == Some([])
    ensures var s := Spell(t); |s| > 1 && s[|s| - 1] == ':' && s[|s| - 2] == ':'
  {
    hide Join, GroupText, QuadText;
    var init := t.pre + [""];
    assert Layout(t) == init + [""];
    JoinEmptyEnd(init);
    if t.pre == [] {
      assert init == [""];
    } else {
      JoinEmptyEnd(t.pre);
    }
  }

  lemma EndsLoose(t: Text)
    requires Lax(t) && t.last.Nothing? && t.post != Some([])
    ensures LooseEnd(Spell(t))
  {
    hide Join, GroupText, QuadText;
    var f := Layout(t);
    var init := f[..|f| - 1];
    assert f == init + [""];
    assert t.post.None? ==> |t.pre| == 8;
    var g := init[|init| - 1];
    assert g == if t.post.None? then t.pre[|t.pre| - 1] else t.post.value[|t.post.value| - 1];
    GroupPlain(g);
    JoinEmptyEnd(init);
    JoinEnd(init, ':');
  }

  lemma LastFree(l: Last)
    requires GoodLast(l) && !l.Nothing?
    ensures l.text != "" && Free(l.text, ':')
  {
    if l.LastQuad? {
      QuadFree(l.text);
      QuadIsNoGroup(l.text);
    } else {
      GroupPlain(l.text);
    }
  }

  lemma FullGapIff(t: Text)
    requires Lax(t)
    ensures FullGap(Spell(t)) <==> t.post.Some? && |Front(t)| + |Back(t)| == 16
  {
    hide Tokens, Fields, Join, Spell, Strip, Layout, Shaped;
    SpellStart(t);
    LayoutFields(t);
    TokensOf(t);
  }

  /**
   * An accepted text is a proper address, read as what it means, exactly when it has neither a loose end nor a full
   * gap.
   */
  lemma AcceptedProper(s: string)
    requires Address(s).Some?
    ensures (exists t :: Proper(t) && Spell(t) == s && Meaning(t) == Address(s).value) <==> !LooseEnd(s) && !FullGap(s)
  {
    hide Address, Spell, LooseEnd, FullGap, Meaning, Outcome, Front, Back;
    var t := AddressSound(s);
    LooseEndIff(t);
    FullGapIff(t);
    if !LooseEnd(s) && !FullGap(s) {
      ProperIsLax(t);
    }
    forall u | Proper(u) && Spell(u) == s
      ensures !LooseEnd(s) && !FullGap(s)
    {
      ProperIsLax(u);
      LooseEndIff(u);
      FullGapIff(u);
    }
  }
}
