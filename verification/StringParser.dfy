/** `parse_string`: the size estimate, the decoding loop and the buffer it writes. */
module StringParser {
  import opened CStrings
  import opened Parser

  // ---- UTF-16 and UTF-8 against their standards

  /** Section 2.1 of RFC 2781, the inverse of joining. */
  lemma JoinSplit(cp: nat)
    requires 0x10000 <= cp <= 0x10FFFF
    ensures var u := cp - 0x10000;
      var w1, w2 := 0xD800 + u / 0x400, 0xDC00 + u % 0x400;
      HighSurrogate(w1) && LowSurrogate(w2) && JoinSurrogates(w1, w2) == cp
  {
  }

  /** Section 3 of RFC 3629 read in the other direction: the code point the leading bytes denote. */
  function Utf8Decode(s: string): (r: Option<nat>) {
    if s == [] then None
    else
      var b := s[0] as int;
      if b < 0x80 then Some(b)
      else if 0xC0 <= b < 0xE0 && |s| >= 2 then Some((b - 0xC0) * 0x40 + Low(s[1]))
      else if 0xE0 <= b < 0xF0 && |s| >= 3 then Some((b - 0xE0) * 0x1000 + Low(s[1]) * 0x40 + Low(s[2]))
      else if 0xF0 <= b < 0xF8 && |s| >= 4 then
        Some((b - 0xF0) * 0x40000 + Low(s[1]) * 0x1000 + Low(s[2]) * 0x40 + Low(s[3]))
      else None
  }

  function Low(c: char): (n: nat) {
    if c as int < 0x80 then 0 else c as int - 0x80
  }

  /** A number by its six-bit groups. */
  lemma Sextets(n: nat)
    ensures n == n / 0x40 * 0x40 + n % 0x40
    ensures n / 0x40 == n / 0x1000 * 0x40 + n / 0x40 % 0x40
    ensures n / 0x1000 == n / 0x40000 * 0x40 + n / 0x1000 % 0x40
  {
  }

  lemma DecodeUtf8(cp: nat, rest: string)
    requires cp <= 0x10FFFF
    ensures Utf8Decode(Utf8(cp) + rest) == Some(cp)
  {
    Sextets(cp);
    var u := Utf8(cp);
    var s := u + rest;
    assert s[0] == u[0];
    if cp < 0x80 {
    } else if cp < 0x800 {
      assert s[1] == u[1];
    } else if cp < 0x10000 {
      assert s[1] == u[1] && s[2] == u[2];
    } else {
      assert s[1] == u[1] && s[2] == u[2] && s[3] == u[3];
    }
  }

  // ---- the size estimate

  /** Backslashes that hide a character: what the scan counts as skipped. */
  function Skips(t: string): (n: nat)
    ensures n <= |t|
    decreases |t|
  {
    if t == [] then 0
    else if t[0] != '\\' then Skips(t[1..])
    else if |t| == 1 then 1
    else 1 + Skips(t[2..])
  }

  /** Room the literal `t` asks for: every escape takes at least two characters. */
  function Room(t: string): (n: nat) {
    |t| - Skips(t)
  }

  lemma HexIsPlain(t: string)
    requires |t| >= 4 && Hex4(t) != 0
    ensures forall i :: 0 <= i < 4 ==> t[i] != '\\'
  {
  }

  lemma {:induction false} SkipPlain(t: string, n: nat)
    requires n <= |t| && forall i :: 0 <= i < n ==> t[i] != '\\'
    ensures Skips(t) == Skips(t[n..])
  {
    if n > 0 {
      SkipPlain(t[1..], n - 1);
      assert t[1..][n - 1..] == t[n..];
    } else {
      assert t[0..] == t;
    }
  }

  /** A `\u` escape has room for five characters and needs at most three; a pair has room for ten and needs four. */
  lemma UnicodeRoom(t: string)
    requires |t| >= 2 && t[0] == '\\' && t[1] == 'u' && CodePoint(t).Some?
    ensures var (cp, n) := CodePoint(t).value;
      Room(t) >= Room(t[n..]) + |Utf8(cp)|
  {
    var h := t[2..];
    assert t[2..][4..] == t[6..];
    HexIsPlain(h);
    SkipPlain(h, 4);
    assert Skips(t) == 1 + Skips(t[6..]);
    var (cp, n) := CodePoint(t).value;
    if n == 12 {
      var g := t[6..];
      assert g[0] == '\\' && g[2..] == t[8..] && t[8..][4..] == t[12..];
      HexIsPlain(t[8..]);
      SkipPlain(t[8..], 4);
      assert Skips(g) == 1 + Skips(t[12..]);
    }
  }

  /** The scan for the closing quote, counting skipped characters as it goes. */
  method ScanLiteral(input: string) returns (end: Option<nat>, skipped: nat)
    requires NulFree(input)
    ensures end == ScanEnd(input)
    ensures end.Some? ==> skipped == Skips(input[..end.value])
  {
    var i := 0;
    skipped := 0;
    ghost var all := ScanEnd(input);
    assert input[0..] == input;
    while CharAt(input, i) != '\"' && CharAt(input, i) != '\0'
      invariant 0 <= i <= |input|
      invariant all == Offset(i, ScanEnd(input[i..]))
      invariant all.Some? ==> i <= all.value && Skips(input[..all.value]) == skipped + Skips(input[i..all.value])
      decreases |input| - i
    {
      hide ScanEnd, Skips;
      ScanFrom(input, i);
      if CharAt(input, i) == '\\' {
        if CharAt(input, i + 1) == '\0' {
          return None, skipped;
        }
        if all.Some? {
          SkipsFrom(input, i, all.value);
        }
        skipped := skipped + 1;
        i := i + 2;
      } else {
        if all.Some? {
          SkipsFrom(input, i, all.value);
        }
        i := i + 1;
      }
    }
    ScanFrom(input, i);
    if CharAt(input, i) == '\0' {
      return None, skipped;
    }
    assert input[i..i] == [];
    return Some(i), skipped;
  }

  ghost function Offset(i: nat, r: Option<nat>): (s: Option<nat>) {
    match r
    case Some(n) => Some(i + n)
    case None => None
  }

  /** One step of the scan at index `i`. */
  lemma ScanFrom(input: string, i: nat)
    requires NulFree(input) && i <= |input|
    ensures var n := if CharAt(input, i) == '\\' then 2 else 1;
      Offset(i, ScanEnd(input[i..])) ==
        if CharAt(input, i) == '\"' then Some(i)
        else if i + n > |input| then None
        else Offset(i + n, ScanEnd(input[i + n..]))
  {
    var t := input[i..];
    if i < |input| {
      assert t[0] == input[i] && t[1..] == input[i + 1..];
      if i + 1 < |input| {
        assert t[2..] == input[i + 2..];
      }
    }
  }

  lemma SkipsFrom(input: string, i: nat, end: nat)
    requires i < end <= |input|
    ensures var n := if input[i] == '\\' then 2 else 1;
      i + n <= end ==> Skips(input[i..end]) == (if input[i] == '\\' then 1 else 0) + Skips(input[i + n..end])
  {
    var t := input[i..end];
    assert t[0] == input[i] && t[1..] == input[i + 1..end];
    if i + 1 < end {
      assert t[2..] == input[i + 2..end];
    }
  }

  // ---- the decoding loop

  /** `parse_hex4`, digit by digit. */
  method ParseHex4(t: string) returns (h: nat)
    requires |t| >= 4
    ensures h == Hex4(t)
  {
    h := 0;
    for i := 0 to 4
      invariant forall k :: 0 <= k < i ==> HexValue(t[k]).Some?
      invariant i == 1 ==> h == HexValue(t[0]).value * 0x10
      invariant i == 2 ==> h == HexValue(t[0]).value * 0x100 + HexValue(t[1]).value * 0x10
      invariant i == 3 ==>
        h == HexValue(t[0]).value * 0x1000 + HexValue(t[1]).value * 0x100 + HexValue(t[2]).value * 0x10
      invariant i == 4 ==> h == Hex4(t)
      invariant i == 0 ==> h == 0
    {
      var d := HexValue(t[i]);
      if d.None? {
        return 0;
      }
      h := h + d.value;
      if i < 3 {
        h := h * 16;
      }
    }
  }

  /** The low ten bits of each surrogate, one after the other. */
  lemma TenBits(first: nat, second: nat)
    requires 0xD800 <= first <= 0xDBFF && 0xDC00 <= second <= 0xDFFF
    ensures JoinSurrogates(first, second) == 0x10000 + (first % 0x400) * 0x400 + second % 0x400
  {
    assert first % 0x400 == first - 0xD800 && second % 0x400 == second - 0xDC00;
  }

  /** The code point of the escape at the front of `t`, with the checks in the order the source makes them. */
  method ReadCodePoint(t: string) returns (cp: nat, length: nat)
    ensures match CodePoint(t) { case Some((c, n)) => cp == c && length == n case None => length == 0 }
  {
    hide Hex4, JoinSurrogates;
    cp, length := 0, 0;
    if |t| < 6 {
      return;
    }
    var first := ParseHex4(t[2..]);
    if 0xDC00 <= first <= 0xDFFF || first == 0 {
      return;
    }
    if 0xD800 <= first <= 0xDBFF {
      if |t| - 6 < 6 {
        return;
      }
      if t[6] != '\\' || t[7] != 'u' {
        return;
      }
      var second := ParseHex4(t[8..]);
      if second < 0xDC00 || second > 0xDFFF {
        return;
      }
      // the low ten bits of each half, one after the other
      TenBits(first, second);
      cp := 0x10000 + (first % 0x400) * 0x400 + second % 0x400;
      length := 12;
    } else {
      cp, length := first, 6;
    }
  }

  /** The bytes of a code point, written from the last to the first. */
  method WriteUtf8(cp: nat, out: array<char>, o: nat) returns (n: nat)
    requires cp <= 0x10FFFF && o + |Utf8(cp)| <= out.Length
    modifies out
    ensures n == |Utf8(cp)| && out[o..o + n] == Utf8(cp)
    ensures forall k :: 0 <= k < out.Length && !(o <= k < o + n) ==> out[k] == old(out[k])
  {
    hide Utf8;
    n := if cp < 0x80 then 1 else if cp < 0x800 then 2 else if cp < 0x10000 then 3 else 4;
    Utf8Bytes(cp);
    var c := cp;
    if n == 4 {
      out[o + 3] := Byte(0x80 + c % 0x40);
      c := c / 0x40;
    }
    if n >= 3 {
      out[o + 2] := Byte(0x80 + c % 0x40);
      c := c / 0x40;
    }
    if n >= 2 {
      out[o + 1] := Byte(0x80 + c % 0x40);
      c := c / 0x40;
    }
    var mark := if n == 1 then 0 else if n == 2 then 0xC0 else if n == 3 then 0xE0 else 0xF0;
    out[o] := Byte(mark + c);
  }

  /** The bytes by repeated division. */
  lemma Utf8Bytes(cp: nat)
    requires cp <= 0x10FFFF
    ensures var a := cp / 0x40;
      var b := a / 0x40;
      var c := b / 0x40;
      && (cp < 0x80 ==> Utf8(cp) == [Byte(cp)])
      && (0x80 <= cp < 0x800 ==> a < 0x20 && Utf8(cp) == [Byte(0xC0 + a), Byte(0x80 + cp % 0x40)])
      && (0x800 <= cp < 0x10000 ==>
          b < 0x10 && Utf8(cp) == [Byte(0xE0 + b), Byte(0x80 + a % 0x40), Byte(0x80 + cp % 0x40)])
      && (0x10000 <= cp ==>
          c < 8 && Utf8(cp) == [Byte(0xF0 + c), Byte(0x80 + b % 0x40), Byte(0x80 + a % 0x40), Byte(0x80 + cp % 0x40)])
  {
    Sextets(cp);
  }

  /** What one escape or plain character at the front of `t` contributes, and how many characters it takes. */
  function Piece(t: string): (r: Option<(string, nat)>)
    requires t != []
    ensures r.Some? ==> 0 < r.value.1 <= |t|
  {
    if t[0] != '\\' then Some(([t[0]], 1))
    else if |t| == 1 then None
    else if t[1] == 'u' then
      (match CodePoint(t)
       case Some((cp, n)) => Some((Utf8(cp), n))
       case None => None)
    else (match SimpleEscape(t[1])
      case Some(c) => Some(([c], 2))
      case None => None)
  }

  lemma PieceStep(t: string)
    requires t != []
    ensures Piece(t).None? ==> Unescaped(t) == None
    ensures Piece(t).Some? ==> Unescaped(t) == Prepend(Piece(t).value.0, Unescaped(t[Piece(t).value.1..]))
    ensures Piece(t).Some? ==> Room(t) >= Room(t[Piece(t).value.1..]) + |Piece(t).value.0|
  {
    if t[0] == '\\' && |t| > 1 && t[1] == 'u' && CodePoint(t).Some? {
      UnicodeRoom(t);
    }
  }

  /** One turn of the loop: write the piece at `o`. */
  method WritePiece(t: string, out: array<char>, o: nat) returns (n: nat, o': nat)
    requires t != [] && (t[0] == '\\' ==> |t| > 1) && o + Room(t) <= out.Length
    modifies out
    ensures Piece(t).None? ==> n == 0
    ensures Piece(t).Some? ==> n == Piece(t).value.1 && o' == o + |Piece(t).value.0| <= out.Length
    ensures Piece(t).Some? ==> out[o..o'] == Piece(t).value.0
    ensures forall k :: 0 <= k < o ==> out[k] == old(out[k])
    ensures o' >= o
  {
    PieceStep(t);
    o' := o;
    if t[0] != '\\' {
      out[o] := t[0];
      return 1, o + 1;
    }
    if t[1] == 'u' {
      var cp;
      cp, n := ReadCodePoint(t);
      if n != 0 {
        var w := WriteUtf8(cp, out, o);
        o' := o + w;
      }
    } else {
      var c := SimpleEscape(t[1]);
      if c.None? {
        return 0, o;
      }
      out[o] := c.value;
      return 2, o + 1;
    }
  }

  /** Every backslash has the character it hides behind it. */
  predicate Paired(t: string)
    decreases |t|
  {
    t == [] || (if t[0] != '\\' then Paired(t[1..]) else |t| > 1 && Paired(t[2..]))
  }

  lemma {:induction false} ScanPaired(t: string)
    requires ScanEnd(t).Some?
    ensures Paired(t[..ScanEnd(t).value])
    decreases |t|
  {
    var n := ScanEnd(t).value;
    if t[0] == '\"' {
    } else if t[0] == '\\' {
      ScanPaired(t[2..]);
      assert t[..n][2..] == t[2..][..n - 2];
    } else {
      ScanPaired(t[1..]);
      assert t[..n][1..] == t[1..][..n - 1];
    }
  }

  lemma {:induction false} PairedPlain(t: string, n: nat)
    requires n <= |t| && Paired(t) && forall i :: 0 <= i < n ==> t[i] != '\\'
    ensures Paired(t[n..])
  {
    if n > 0 {
      PairedPlain(t[1..], n - 1);
      assert t[1..][n - 1..] == t[n..];
    } else {
      assert t[0..] == t;
    }
  }

  lemma PiecePaired(t: string)
    requires t != [] && Paired(t) && Piece(t).Some?
    ensures Paired(t[Piece(t).value.1..])
  {
    if t[0] == '\\' && t[1] == 'u' {
      var n := CodePoint(t).value.1;
      HexIsPlain(t[2..]);
      PairedPlain(t[2..], 4);
      assert t[2..][4..] == t[6..];
      if n == 12 {
        HexIsPlain(t[8..]);
        assert t[6..][2..] == t[8..];
        PairedPlain(t[8..], 4);
        assert t[8..][4..] == t[12..];
      }
    }
  }

  /** Bytes a C compiler adds for `sizeof` of a character constant, which has type `int`. */
  const SIZEOF_CHAR_CONSTANT: nat := 4

  /** The loop over the literal: it stops at the first bad escape, and never writes past `Room(content)`. */
  method DecodeLiteral(content: string, out: array<char>) returns (ok: bool, o: nat)
    requires Paired(content) && Room(content) < out.Length
    modifies out
    ensures o <= Room(content)
    ensures ok <==> Unescaped(content).Some?
    ensures ok ==> out[..o] == Unescaped(content).value
  {
    hide Unescaped, Piece, Skips, Prepend;
    var i := 0;
    o := 0;
    ghost var all := Unescaped(content);
    assert content[0..] == content;
    ghost var rest := all;
    PrependNothing(all);
    while i < |content|
      invariant 0 <= i <= |content| && Paired(content[i..])
      invariant o + Room(content[i..]) <= Room(content)
      invariant rest == Unescaped(content[i..])
      invariant all == Prepend(out[..o], rest)
      decreases |content| - i
    {
      ghost var t, before := content[i..], out[..o];
      PieceStep(t);
      var n, o' := WritePiece(content[i..], out, o);
      if n == 0 {
        PrependNone(before);
        return false, o;
      }
      PiecePaired(t);
      assert t[n..] == content[i + n..];
      assert out[..o'] == before + out[o..o'];
      rest := Unescaped(content[i + n..]);
      assert all == Prepend(before, Prepend(out[o..o'], rest));
      PrependTwice(before, out[o..o'], rest);
      i, o := i + n, o';
    }
    assert content[i..] == [];
    AllRead(out[..o]);
    return true, o;
  }

  lemma AllRead(s: string)
    ensures Prepend(s, Unescaped([])) == Some(s) && Skips([]) == 0
  {
    assert s + [] == s;
  }

  lemma PrependNone(s: string)
    ensures Prepend(s, None) == None
  {
  }

  /**
   * `parse_string` on the text that starts at the opening quote. Whether or not the literal is accepted, once there is
   * a block fewer than `allocation` characters are written to it before the terminator.
   */
  method ParseLiteral(input: string) returns (r: Option<(string, string)>, allocation: nat, written: nat)
    requires NulFree(input)
    ensures r == ParseString(input)
    ensures if allocation == 0 then r.None? && written == 0 else written < allocation
    ensures r.Some? ==> written == |r.value.0|
  {
    allocation, written := 0, 0;
    if CharAt(input, 0) != '\"' {
      return None, 0, 0;
    }
    var text := input[1..];
    var end, skipped := ScanLiteral(text);
    if end.None? {
      return None, 0, 0;
    }
    var content := text[..end.value];
    ScanPaired(text);
    allocation := |content| + 1 - skipped;
    var output := new char[allocation + SIZEOF_CHAR_CONSTANT];
    var ok;
    ok, written := DecodeLiteral(content, output);
    if !ok {
      return None, allocation, written;
    }
    output[written] := '\0';
    return Some((output[..written], text[end.value + 1..])), allocation, written;
  }
}
