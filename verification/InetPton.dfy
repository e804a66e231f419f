/** The address parsers themselves: one character at a time into a small array. */
module InetPton {
  import opened CStrings
  import opened Decimal
  import opened InetText

  // ---- dotted quads

  /** Fields finished so far, and the digits of the one being read. */
  ghost predicate Reading4(src: string, done: seq<string>, cur: nat, i: nat, tmp: seq<Octet>)
  {
    && cur <= i <= |src| && |done| < 4 == |tmp|
    && Fields(src, '.') == done + Fields(src[cur..], '.')
    && (forall k :: 0 <= k < |done| ==> OctetText(done[k]) && tmp[k] == Value(done[k]))
    && AllDigits(src[cur..i]) && tmp[|done|] == Value(src[cur..i])
  }

  lemma {:induction false} ValuePrefix(p: string, s: string)
    requires AllDigits(s) && p <= s
    ensures AllDigits(p) && Value(p) <= Value(s)
    decreases |s|
  {
    if p != s {
      ValuePrefix(p, s[..|s| - 1]);
    }
  }

  /** The digits read, and what stands behind them. */
  lemma Here(src: string, cur: nat, i: nat)
    requires cur <= i <= |src|
    ensures src[cur..] == src[cur..i] + src[i..]
  {
  }

  /** A field that starts with something that is no octet spoils the quad. */
  lemma Spoiled(src: string, done: seq<string>, cur: nat, i: nat, tmp: seq<Octet>)
    requires Reading4(src, done, cur, i, tmp) && i < |src| && src[i] != '.'
    requires IsDigit(src[i]) ==> 10 * tmp[|done|] + DigitValue(src[i]) > 255
    ensures !QuadText(src)
  {
    hide Fields, Value;
    var p, f := src[cur..i] + [src[i]], Fields(src, '.');
    Here(src, cur, i);
    FirstField(src[cur..i], '.', src[i..]);
    var x := f[|done|];
    assert p <= x;
    assert !OctetText(x) by {
      if AllDigits(x) {
        ValuePrefix(p, x);
        assert p[|p| - 1] == src[i];
        ValueSnoc(src[cur..i], src[i]);
      } else {
        assert x != [];
      }
    }
  }

  /** At a point, or at the end, the field is what was read. */
  lemma FieldEnds(src: string, done: seq<string>, cur: nat, i: nat, tmp: seq<Octet>)
    requires Reading4(src, done, cur, i, tmp)
    ensures i < |src| && src[i] == '.' ==> Fields(src, '.') == done + [src[cur..i]] + Fields(src[i + 1..], '.')
    ensures i == |src| ==> Fields(src, '.') == done + [src[cur..i]]
  {
    hide Fields, Value;
    Here(src, cur, i);
    if i < |src| && src[i] == '.' {
      assert src[i..] == ['.'] + src[i + 1..];
      assert src[cur..] == src[cur..i] + ['.'] + src[i + 1..];
      FieldsSplit(src[cur..i], '.', src[i + 1..]);
      assert done + ([src[cur..i]] + Fields(src[i + 1..], '.')) == done + [src[cur..i]] + Fields(src[i + 1..], '.');
    } else if i == |src| {
      assert src[cur..] == src[cur..i];
      FieldsOfFree(src[cur..i], '.');
    }
  }

  lemma NoQuad(src: string, k: nat)
    requires |Fields(src, '.')| != 4 || (k < 4 && !OctetText(Fields(src, '.')[k]))
    ensures !QuadText(src)
  {
  }

  lemma IsQuad(src: string, done: seq<string>, last: string, tmp: seq<Octet>)
    requires |done| == 3 && |tmp| == 4 && Fields(src, '.') == done + [last]
    requires (forall k :: 0 <= k < 3 ==> OctetText(done[k]) && tmp[k] == Value(done[k]))
    requires OctetText(last) && tmp[3] == Value(last)
    ensures QuadText(src) && Quad(src) == tmp
  {
    hide Fields, Value;
  }

  /** The loop of `inet_pton4`. */
  method Scan4(src: string) returns (r: Option<seq<Octet>>)
    requires NulFree(src)
    ensures r == if QuadText(src) then Some(Quad(src)) else None
  {
    hide Fields, Value, QuadText, Quad;
    var tmp: seq<Octet>, tp, octets, saw := [0, 0, 0, 0], 0, 0, false;
    var i := 0;
    ghost var done: seq<string>, cur := [], 0;
    assert src[0..] == src && [] + Fields(src, '.') == Fields(src, '.') && src[cur..i] == "";
    assert Value("") == 0 by {
      ValueEmpty();
    }
    while CharAt(src, i) != '\0'
      invariant i <= |src| && tp == |done| && Reading4(src, done, cur, i, tmp)
      invariant saw <==> cur < i
      invariant octets == tp + if saw then 1 else 0
      decreases |src| - i
    {
      var ch := src[i];
      assert src[cur..i + 1] == src[cur..i] + [ch];
      if IsDigit(ch) {
        var val := tmp[tp] * 10 + DigitValue(ch);
        if val > 255 {
          Spoiled(src, done, cur, i, tmp);
          return None;
        }
        ValueSnoc(src[cur..i], ch);
        tmp := tmp[tp := val];
        if !saw {
          octets := octets + 1;
          saw := true;
        }
      } else if ch == '.' && saw {
        FieldEnds(src, done, cur, i, tmp);
        if octets == 4 {
          NoQuad(src, 0);
          return None;
        }
        tp := tp + 1;
        tmp := tmp[tp := 0];
        saw := false;
        done, cur := done + [src[cur..i]], i + 1;
        assert src[cur..i + 1] == "";
        ValueEmpty();
      } else {
        if ch == '.' {
          FieldEnds(src, done, cur, i, tmp);
          NoQuad(src, tp);
        } else {
          Spoiled(src, done, cur, i, tmp);
        }
        return None;
      }
      i := i + 1;
    }
    FieldEnds(src, done, cur, i, tmp);
    if octets < 4 {
      NoQuad(src, 3);
      return None;
    }
    IsQuad(src, done, src[cur..i], tmp);
    return Some(tmp);
  }

  lemma ValueEmpty()
    ensures Value("") == 0
  {
  }

  /** `inet_pton4`: four octets behind `at`, or nothing touched. */
  method InetPton4(src: string, dst: array<Octet>, at: nat) returns (ok: bool)
    requires NulFree(src) && at + 4 <= dst.Length
    modifies dst
    ensures ok <==> QuadText(src)
    ensures dst[..] == if ok then old(dst[..at]) + Quad(src) + old(dst[at + 4..]) else old(dst[..])
  {
    hide QuadText, Quad;
    var r := Scan4(src);
    match r
    case None => return false;
    case Some(tmp) =>
      forall k | 0 <= k < 4 {
        dst[at + k] := tmp[k];
      }
      return true;
  }

  // ---- addresses with colons

  lemma QuadChars(s: string, c: char)
    requires QuadText(s) && !IsDigit(c) && c != '.'
    ensures Free(s, c)
  {
    FieldsCover(s, '.', c);
  }

  /** Read as hexadecimal, a short decimal number stays short. */
  lemma {:induction false} HexOfDecimal(s: string, k: nat)
    requires AllDigits(s) && Value(s) < Pow(10, k)
    ensures AllHex(s) && HexNumber(s) < Pow(16, k)
  {
    if s != [] {
      var front := s[..|s| - 1];
      if k > 0 {
        assert Value(front) < Pow(10, k - 1);
        HexOfDecimal(front, k - 1);
      } else {
        assert Value(s) == 0 && Value(front) == 0;
        HexOfDecimal(front, 0);
      }
    }
  }

  /** Digits that overflow a group begin no dotted quad. */
  lemma NoQuadOverflow(a: string, s: string)
    requires AllHex(a) && HexNumber(a) > 0xFFFF && a <= s
    ensures !QuadText(s)
  {
    hide Fields, HexNumber, Value;
    if QuadText(s) {
      assert Free(a, '.');
      var b := s[|a|..];
      assert s == a + b;
      FirstField(a, '.', b);
      var x := Fields(s, '.')[0];
      assert OctetText(x);
      assert Pow(10, 3) == 1000 && Pow(16, 3) == 4096;
      HexOfDecimal(x, 3);
      HexPrefix(a, x);
    }
  }

  lemma TokensNone(f: seq<string>, p: Partial)
    requires f != [] && f[0] != "" && !GroupText(f[0])
    requires |f| == 1 ==> !QuadText(f[0]) || |p.bytes| + 4 > 16
    ensures Tokens(f, p).None?
  {
    hide GroupText, QuadText;
  }

  /** A token that goes wrong at its next character makes the whole text wrong. */
  lemma WrongChar(rest: string, n: nat, p: Partial)
    requires n < |rest| && AllHex(rest[..n]) && rest[n] != ':'
    requires IsHex(rest[n]) ==> 16 * HexNumber(rest[..n]) + HexDigitValue(rest[n]) > 0xFFFF
    requires rest[n] == '.' ==> !QuadText(rest) || |p.bytes| + 4 > 16
    ensures Tokens(Fields(rest, ':'), p).None?
  {
    hide Fields, HexNumber, QuadText, Tokens;
    var a, c := rest[..n], rest[n];
    var f := Fields(rest, ':');
    assert rest == a + rest[n..];
    FirstField(a, ':', rest[n..]);
    var x := f[0];
    assert a + [c] <= x;
    assert x[n] == c;
    if IsHex(c) {
      HexSnoc(a, c);
      if AllHex(x) {
        HexPrefix(a + [c], x);
      }
      assert a + [c] <= rest;
      NoQuadOverflow(a + [c], rest);
    } else if c != '.' {
      if QuadText(rest) {
        QuadChars(rest, c);
      }
    }
    if |f| == 1 {
      OneField(rest, ':');
    }
    TokensNone(f, p);
  }

  /** A token ends at a colon. */
  lemma TokenEnds(rest: string, n: nat)
    requires n < |rest| && AllHex(rest[..n]) && rest[n] == ':'
    ensures Fields(rest, ':') == [rest[..n]] + Fields(rest[n + 1..], ':')
  {
    hide Fields;
    FieldsSplit(rest[..n], ':', rest[n + 1..]);
    assert rest == rest[..n] + [':'] + rest[n + 1..];
  }

  lemma TokensAtColon(a: string, f: seq<string>, p: Partial)
    requires AllHex(a) && HexNumber(a) <= 0xFFFF && f != []
    ensures a == "" && p.gap.None? ==> Tokens([a] + f, p) == Tokens(f, p.(gap := Some(|p.bytes|)))
    ensures a == "" && p.gap.Some? ==> Tokens([a] + f, p).None?
    ensures a != "" && |p.bytes| + 2 <= 16 ==> Tokens([a] + f, p) == Tokens(f, p.(bytes := p.bytes + Group(a)))
    ensures a != "" && |p.bytes| + 2 > 16 ==> Tokens([a] + f, p).None?
  {
    hide HexNumber, QuadText;
    assert ([a] + f)[1..] == f;
  }

  lemma TokensAtEnd(rest: string, p: Partial)
    requires AllHex(rest) && HexNumber(rest) <= 0xFFFF
    ensures Tokens(Fields(rest, ':'), p) == if rest == "" then Some(p) else Put(p, Group(rest))
  {
    hide HexNumber, QuadText;
    FieldsOfFree(rest, ':');
  }

  lemma TokensAtQuad(rest: string, p: Partial)
    requires QuadText(rest)
    ensures Tokens(Fields(rest, ':'), p) == Put(p, Quad(rest))
  {
    hide QuadText, GroupText;
    QuadIsNoGroup(rest);
    QuadFree(rest);
    FieldsOfFree(rest, ':');
  }

  /** Bytes so far, zeros behind them, and the token being read. */
  ghost predicate Reading6(t: string, cur: nat, i: nat, tmp: seq<Octet>, tp: nat, colon: Option<nat>, val: nat) {
    && cur <= i <= |t| && tp <= 16 == |tmp| && (colon.Some? ==> colon.value <= tp)
    && (forall k :: tp <= k < 16 ==> tmp[k] == 0)
    && Tokens(Fields(t, ':'), Partial([], None)) == Tokens(Fields(t[cur..], ':'), Partial(tmp[..tp], colon))
    && AllHex(t[cur..i]) && HexNumber(t[cur..i]) == val <= 0xFFFF
  }

  /** Write the two bytes of a group. */
  method PutGroup(tmp: array<Octet>, tp: nat, val: nat)
    requires tmp.Length == 16 && tp + 2 <= 16 && val <= 0xFFFF
    modifies tmp
    ensures tmp[..tp + 2] == old(tmp[..tp]) + [val / 256, val % 256]
    ensures forall k :: tp + 2 <= k < 16 ==> tmp[k] == old(tmp[k])
  {
    tmp[tp] := val / 256;
    tmp[tp + 1] := val % 256;
  }

  /** The loop of `inet_pton6` and the token it ends with. */
  method ScanTokens(t: string, tmp: array<Octet>) returns (ok: bool, tp: nat, colon: Option<nat>)
    requires NulFree(t) && tmp.Length == 16 && (forall k :: 0 <= k < 16 ==> tmp[k] == 0)
    modifies tmp
    ensures tp <= 16 && (colon.Some? ==> colon.value <= tp) && (forall k :: tp <= k < 16 ==> tmp[k] == 0)
    ensures Tokens(Fields(t, ':'), Partial([], None)) == if ok then Some(Partial(tmp[..tp], colon)) else None
  {
    hide Tokens, Fields, HexNumber, QuadText, Quad;
    tp, colon := 0, None;
    var i: nat, curtok: nat, saw, val: nat := 0, 0, false, 0;
    assert t[0..] == t && t[curtok..i] == "" && tmp[..tp] == [];
    HexEmpty();
    while CharAt(t, i) != '\0'
      invariant i <= |t| && Reading6(t, curtok, i, tmp[..], tp, colon, val)
      invariant saw <==> curtok < i
      decreases |t| - i
    {
      ghost var rest, n, p := t[curtok..], i - curtok, Partial(tmp[..tp], colon);
      assert rest[..n] == t[curtok..i] && rest[n] == t[i] && rest[n + 1..] == t[i + 1..];
      assert t[curtok..i + 1] == t[curtok..i] + [t[i]];
      var ch := t[i];
      i := i + 1;
      if IsHex(ch) {
        if 16 * val + HexDigitValue(ch) > 0xFFFF {
          WrongChar(rest, n, p);
          return false, tp, colon;
        }
        HexSnoc(rest[..n], ch);
        val := 16 * val + HexDigitValue(ch);
        saw := true;
        continue;
      }
      if ch == ':' {
        TokenEnds(rest, n);
        TokensAtColon(rest[..n], Fields(t[i..], ':'), p);
        curtok := i;
        assert t[curtok..i] == "";
        HexEmpty();
        if !saw {
          if colon.Some? {
            return false, tp, colon;
          }
          colon := Some(tp);
          continue;
        }
        if tp + 2 > 16 {
          return false, tp, colon;
        }
        PutGroup(tmp, tp, val);
        tp := tp + 2;
        saw := false;
        val := 0;
        continue;
      }
      if ch == '.' && tp + 4 <= 16 {
        var quad := InetPton4(t[curtok..], tmp, tp);
        if quad {
          TokensAtQuad(rest, p);
          tp := tp + 4;
          return true, tp, colon;
        }
      }
      WrongChar(rest, n, p);
      return false, tp, colon;
    }
    assert t[curtok..] == t[curtok..i];
    TokensAtEnd(t[curtok..], Partial(tmp[..tp], colon));
    if saw {
      if tp + 2 > 16 {
        return false, tp, colon;
      }
      PutGroup(tmp, tp, val);
      tp := tp + 2;
    }
    return true, tp, colon;
  }

  lemma HexEmpty()
    ensures HexNumber("") == 0
  {
  }

  /** What the shift leaves: the front, zeros and the back; only zeros if there was no room in between. */
  function Shifted(bytes: seq<Octet>, k: nat): (r: seq<Octet>)
    requires k <= |bytes| <= 16
    ensures |r| == 16
  {
    if |bytes| == 16 then bytes[..k] + Zeros(16 - k) else bytes[..k] + Zeros(16 - |bytes|) + bytes[k..]
  }

  /** The overlapping shift by hand: each byte behind the gap moves to the end and leaves a zero. */
  method Shift(tmp: array<Octet>, tp: nat, colon: nat)
    requires tmp.Length == 16 && colon <= tp <= 16 && (forall k :: tp <= k < 16 ==> tmp[k] == 0)
    modifies tmp
    ensures tmp[..] == Shifted(old(tmp[..tp]), colon)
  {
    hide Shifted, Filled;
    ghost var before := tmp[..tp];
    ghost var gap := 16 - tp;
    var n := tp - colon;
    for i := 1 to n + 1
      invariant forall k :: 0 <= k < tp - (i - 1) ==> tmp[k] == before[k]
      invariant forall k :: tp - (i - 1) <= k < 16 - (i - 1) ==> tmp[k] == 0
      invariant forall k :: 16 - (i - 1) <= k < 16 ==> tmp[k] == if gap == 0 then 0 else before[k - gap]
    {
      tmp[16 - i] := tmp[colon + n - i];
      tmp[colon + n - i] := 0;
    }
    ShiftedAll(before, colon, tmp[..]);
  }

  lemma ShiftedAll(before: seq<Octet>, colon: nat, after: seq<Octet>)
    requires colon <= |before| <= 16 == |after|
    requires forall k :: 0 <= k < colon ==> after[k] == before[k]
    requires forall k :: colon <= k < 16 - (|before| - colon) ==> after[k] == 0
    requires forall k :: 16 - (|before| - colon) <= k < 16 ==>
      after[k] == if |before| == 16 then 0 else before[k - (16 - |before|)]
    ensures after == Shifted(before, colon)
  {
    hide Shifted;
    forall k | 0 <= k < 16
      ensures after[k] == Shifted(before, colon)[k]
    {
      ShiftedAt(before, colon, k);
    }
  }

  lemma ShiftedAt(bytes: seq<Octet>, colon: nat, k: nat)
    requires colon <= |bytes| <= 16 && k < 16
    ensures var gap := 16 - |bytes|;
      Shifted(bytes, colon)[k] ==
      if k < colon then bytes[k] else if k < colon + gap || gap == 0 then 0 else bytes[k - gap]
  {
  }

  /** `inet_pton6`: the sixteen bytes of an accepted text, or nothing touched. */
  method InetPton6(src: string, dst: array<Octet>) returns (ok: bool)
    requires NulFree(src) && dst.Length >= 16
    modifies dst
    ensures ok <==> Address(src).Some?
    ensures dst[..] == if ok then Address(src).value + old(dst[16..]) else old(dst[..])
  {
    hide Tokens, Fields;
    var tmp := new Octet[16](_ => 0);
    var t := src;
    if CharAt(src, 0) == ':' {
      t := src[1..];
      if CharAt(src, 1) != ':' {
        return false;
      }
    }
    var read, tp, colon := ScanTokens(t, tmp);
    if !read {
      return false;
    }
    assert tmp[..tp][..tp] == tmp[..tp];
    match colon {
      case Some(k) =>
        Shift(tmp, tp, k);
        tp := 16;
      case None =>
    }
    if tp != 16 {
      return false;
    }
    forall k | 0 <= k < 16 {
      dst[k] := tmp[k];
    }
    assert dst[..] == tmp[..] + old(dst[16..]);
    return true;
  }

  datatype Family = Inet | Inet6 | Unsupported

  /** `switch_inet_pton`. */
  method InetPtonFamily(af: Family, src: string, dst: array<Octet>) returns (r: int)
    requires NulFree(src) && dst.Length >= (match af { case Inet => 4 case Inet6 => 16 case Unsupported => 0 })
    modifies dst
    ensures r == match af {
      case Inet => if QuadText(src) then 1 else 0
      case Inet6 => if Address(src).Some? then 1 else 0
      case Unsupported => -1 }
    ensures r != 1 ==> dst[..] == old(dst[..])
    ensures r == 1 ==> dst[..] == if af.Inet? then Quad(src) + old(dst[4..]) else Address(src).value + old(dst[16..])
  {
    hide QuadText, Quad, Address;
    match af
    case Inet =>
      var ok := InetPton4(src, dst, 0);
      return if ok then 1 else 0;
    case Inet6 =>
      var ok := InetPton6(src, dst);
      return if ok then 1 else 0;
    case Unsupported =>
      return -1;
  }

  // ---- what is accepted besides proper addresses

  /** A colon too many after eight groups is taken for the end, although no proper address is written like that. */
  lemma LooseEndAccepted(gs: seq<string>)
    requires Groups(gs) && |gs| == 8
    ensures var s := Join(gs, ':') + ":";
      Address(s) == Some(GroupBytes(gs)) && !exists t :: Proper(t) && Spell(t) == s
  {
    hide Address, Join, GroupBytes, Proper;
    var t := Text(gs, None, Nothing);
    assert Front(t) == GroupBytes(gs) && Outcome(t) == GroupBytes(gs);
    assert Layout(t) == gs + [""];
    JoinEmptyEnd(gs);
    assert Spell(t) == Join(gs, ':') + ":";
    AddressOf(t);
    NeverProper(t);
  }

  /** A gap in a full address is not ignored: whatever stands behind it becomes zero. */
  lemma FullGapWipes(pre: seq<string>, post: seq<string>, last: string)
    requires Groups(pre) && Groups(post) && GroupText(last) && |pre| + |post| == 7
    ensures var s := Spell(Text(pre, Some(post), LastGroup(last)));
      Address(s) == Some(GroupBytes(pre) + Zeros(16 - 2 * |pre|)) && !exists t :: Proper(t) && Spell(t) == s
  {
    hide Address, Spell, GroupBytes, Proper;
    var t := Text(pre, Some(post), LastGroup(last));
    assert |Back(t)| == 16 - 2 * |pre|;
    AddressOf(t);
    NeverProper(t);
  }

  lemma NeverProper(t: Text)
    requires Lax(t) && ((t.last.Nothing? && t.post != Some([])) || (t.post.Some? && |Front(t)| + |Back(t)| == 16))
    ensures !exists u :: Proper(u) && Spell(u) == Spell(t)
  {
    hide Spell, LooseEnd, FullGap, Front, Back;
    LooseEndIff(t);
    FullGapIff(t);
    forall u | Proper(u) && Spell(u) == Spell(t)
      ensures false
    {
      ProperIsLax(u);
      LooseEndIff(u);
      FullGapIff(u);
    }
  }
}
