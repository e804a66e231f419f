/** C strings as sequences of characters: the NUL that ends one is the position just past its last character. */
module CStrings {

  datatype Option<+T> = None | Some(value: T)

  const INT_MAX: int := 0x7fff_ffff

  /** No character of a C string is the terminator. */
  predicate NulFree(s: string) {
    forall i :: 0 <= i < |s| ==> s[i] != '\0'
  }

  /** What reading index `i` of the string yields; the terminator is readable, nothing beyond it is asked for. */
  function CharAt(s: string, i: nat): (c: char) {
    if i < |s| then s[i] else '\0'
  }

  /** `size_t` has 64 bits. */
  const SIZE_MODULUS: int := 0x1_0000_0000_0000_0000

  function Min(a: nat, b: nat): (m: nat) {
    if a < b then a else b
  }

  function Max(a: nat, b: nat): (m: nat) {
    if a < b then b else a
  }

  predicate IsDigit(c: char) {
    '0' <= c <= '9'
  }

  /** `tolower` in the C locale. */
  function ToLower(c: char): (r: char) {
    if 'A' <= c <= 'Z' then (c as int + 32) as char else c
  }

  function Fold(s: string): (r: string)
    ensures |r| == |s| && forall i :: 0 <= i < |s| ==> r[i] == ToLower(s[i])
  {
    seq(|s|, i requires 0 <= i < |s| => ToLower(s[i]))
  }

  /** `strcmp`: the difference at the first place the two strings part, the terminator counting as zero. */
  function StrCmp(a: string, b: string): int {
    if a == [] && b == [] then 0
    else if a == [] then -(b[0] as int)
    else if b == [] then a[0] as int
    else if a[0] != b[0] then a[0] as int - b[0] as int
    else StrCmp(a[1..], b[1..])
  }

  /** The strings agree up to index `k`, where both have a character or their end. */
  predicate AgreeTo(a: string, b: string, k: nat) {
    k <= |a| && k <= |b| && a[..k] == b[..k]
  }

  /** The order of a dictionary: a proper prefix, or the smaller character at the first place the strings part. */
  ghost predicate Precedes(a: string, b: string) {
    exists k: nat :: AgreeTo(a, b, k) && k < |b| && (k == |a| || a[k] < b[k])
  }

  lemma AgreeOn(a: string, b: string, k: nat)
    requires a != [] && b != [] && a[0] == b[0]
    ensures AgreeTo(a, b, k + 1) <==> AgreeTo(a[1..], b[1..], k)
  {
    if k < |a| && k < |b| {
      assert a[..k + 1] == [a[0]] + a[1..][..k] && b[..k + 1] == [b[0]] + b[1..][..k];
      assert a[1..][..k] == a[..k + 1][1..] && b[1..][..k] == b[..k + 1][1..];
    }
  }

  /** The result is the difference of the two characters at the first place the strings part. */
  lemma {:induction false} StrCmpAt(a: string, b: string, k: nat)
    requires NulFree(a) && NulFree(b) && AgreeTo(a, b, k) && CharAt(a, k) != CharAt(b, k)
    ensures StrCmp(a, b) == CharAt(a, k) as int - CharAt(b, k) as int
  {
    if k > 0 {
      assert a[0] == a[..k][0] && b[0] == b[..k][0];
      AgreeOn(a, b, k - 1);
      StrCmpAt(a[1..], b[1..], k - 1);
    }
  }

  /** Two strings are equal or part somewhere. */
  lemma {:induction false} PartOrEqual(a: string, b: string) returns (k: nat)
    requires NulFree(a) && NulFree(b)
    ensures AgreeTo(a, b, k) && (a == b || CharAt(a, k) != CharAt(b, k))
  {
    if a != [] && b != [] && a[0] == b[0] {
      k := PartOrEqual(a[1..], b[1..]);
      AgreeOn(a, b, k);
      assert a == [a[0]] + a[1..] && b == [b[0]] + b[1..];
      k := k + 1;
    } else {
      k := 0;
    }
  }

  /** `strcmp` is negative, zero or positive as the dictionary says. */
  lemma StrCmpOrder(a: string, b: string)
    requires NulFree(a) && NulFree(b)
    ensures StrCmp(a, b) < 0 <==> Precedes(a, b)
    ensures StrCmp(a, b) > 0 <==> Precedes(b, a)
    ensures StrCmp(a, b) == 0 <==> a == b
  {
    hide StrCmp;
    StrCmpZero(a, b);
    if a != b {
      var k := PartOrEqual(a, b);
      StrCmpAt(a, b, k);
      assert AgreeTo(b, a, k);
    }
    if Precedes(a, b) {
      var k: nat :| AgreeTo(a, b, k) && k < |b| && (k == |a| || a[k] < b[k]);
      StrCmpAt(a, b, k);
    }
    if Precedes(b, a) {
      var k: nat :| AgreeTo(b, a, k) && k < |a| && (k == |b| || b[k] < a[k]);
      StrCmpAt(a, b, k);
    }
  }

  /** The order both `strcasecmp` copies implement: compare after folding case. */
  function CaseCmp(a: string, b: string): int {
    StrCmp(Fold(a), Fold(b))
  }

  lemma {:induction false} StrCmpZero(a: string, b: string)
    requires NulFree(a) && NulFree(b)
    ensures StrCmp(a, b) == 0 <==> a == b
  {
    if a != [] && b != [] && a[0] == b[0] {
      StrCmpZero(a[1..], b[1..]);
      assert a == [a[0]] + a[1..] && b == [b[0]] + b[1..];
    }
  }

  lemma {:induction false} StrCmpFlip(a: string, b: string)
    ensures StrCmp(a, b) == -StrCmp(b, a)
  {
    if a != [] && b != [] && a[0] == b[0] {
      StrCmpFlip(a[1..], b[1..]);
    }
  }

  lemma {:induction false} StrCmpTransitive(a: string, b: string, c: string)
    requires NulFree(a) && NulFree(b) && NulFree(c)
    requires StrCmp(a, b) <= 0 && StrCmp(b, c) <= 0
    ensures StrCmp(a, c) <= 0
    ensures StrCmp(a, b) < 0 || StrCmp(b, c) < 0 ==> StrCmp(a, c) < 0
  {
    if a != [] && b != [] && c != [] && a[0] == b[0] == c[0] {
      StrCmpTransitive(a[1..], b[1..], c[1..]);
    }
  }

  lemma CaseCmpZero(a: string, b: string)
    requires NulFree(a) && NulFree(b)
    ensures CaseCmp(a, b) == 0 <==> Fold(a) == Fold(b)
    ensures CaseCmp(b, a) == -CaseCmp(a, b)
  {
    StrCmpZero(Fold(a), Fold(b));
    StrCmpFlip(Fold(a), Fold(b));
  }

  lemma CaseCmpTransitive(a: string, b: string, c: string)
    requires NulFree(a) && NulFree(b) && NulFree(c)
    requires CaseCmp(a, b) <= 0 && CaseCmp(b, c) <= 0
    ensures CaseCmp(a, c) <= 0
    ensures CaseCmp(a, b) < 0 || CaseCmp(b, c) < 0 ==> CaseCmp(a, c) < 0
  {
    StrCmpTransitive(Fold(a), Fold(b), Fold(c));
  }

  /** Likewise for `strcasecmp` and the folded strings. */
  lemma CaseCmpOrder(a: string, b: string)
    requires NulFree(a) && NulFree(b)
    ensures CaseCmp(a, b) < 0 <==> Precedes(Fold(a), Fold(b))
    ensures CaseCmp(a, b) > 0 <==> Precedes(Fold(b), Fold(a))
    ensures CaseCmp(a, b) == 0 <==> Fold(a) == Fold(b)
  {
    StrCmpOrder(Fold(a), Fold(b));
  }

  /** A key without upper-case letters: folding leaves it alone. */
  predicate IsLower(s: string) {
    forall i :: 0 <= i < |s| ==> !('A' <= s[i] <= 'Z')
  }

  lemma LowerFold(s: string)
    requires IsLower(s)
    ensures Fold(s) == s
  {
  }

  /** One turn of the walk. */
  lemma StrCmpFrom(a: string, b: string, i: nat)
    requires i <= |a| && i <= |b|
    ensures StrCmp(a[i..], b[i..]) ==
      if i < |a| && i < |b| && a[i] == b[i] then StrCmp(a[i + 1..], b[i + 1..])
      else CharAt(a, i) as int - CharAt(b, i) as int
  {
    if i < |a| && i < |b| {
      assert a[i..][1..] == a[i + 1..] && b[i..][1..] == b[i + 1..];
    }
  }

  /** The character walk of `strcasecmp`, which stops at the first difference or at a shared terminator. */
  method StrCaseCmp(s1: string, s2: string) returns (diff: int)
    requires NulFree(s1) && NulFree(s2)
    ensures diff == CaseCmp(s1, s2)
    ensures (diff < 0 <==> Precedes(Fold(s1), Fold(s2))) && (diff > 0 <==> Precedes(Fold(s2), Fold(s1)))
  {
    hide Precedes, StrCmp;
    CaseCmpOrder(s1, s2);
    var i := 0;
    while ToLower(CharAt(s1, i)) == ToLower(CharAt(s2, i))
      invariant 0 <= i <= |s1| && i <= |s2|
      invariant CaseCmp(s1, s2) == StrCmp(Fold(s1)[i..], Fold(s2)[i..])
      decreases |s1| - i
    {
      StrCmpFrom(Fold(s1), Fold(s2), i);
      if CharAt(s1, i) == '\0' {
        return 0;
      }
      i := i + 1;
    }
    StrCmpFrom(Fold(s1), Fold(s2), i);
    return ToLower(CharAt(s1, i)) as int - ToLower(CharAt(s2, i)) as int;
  }
}
