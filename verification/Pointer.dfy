/** JSON Pointer: finding the pointer of a node and following a pointer to a node. */
module Pointer {
  import opened CStrings
  import opened JsonValue
  import opened Decimal

  /** Where a node is: the child index to take at each level. In a tree this identifies the node. */
  type Address = seq<nat>

  function ChildCount(v: Json): (n: nat) {
    match v
    case Array(items) => |items|
    case Object(ms) => |ms|
    case _ => 0
  }

  function Child(v: Json, i: nat): (c: Json)
    requires i < ChildCount(v)
    ensures c < v
  {
    if v.Array? then v.items[i] else assert v.members[i] < v; v.members[i].value
  }

  function At(v: Json, a: Address): (r: Option<Json>)
    decreases |a|
  {
    if a == [] then Some(v)
    else if a[0] < ChildCount(v) then At(Child(v, a[0]), a[1..])
    else None
  }

  /** Array indices fit the `int` that GetArrayItem takes. */
  predicate Sized(v: Json) {
    match v
    case Array(items) => |items| <= INT_MAX + 1 && forall i :: 0 <= i < |items| ==> Sized(items[i])
    case Object(ms) => forall i :: 0 <= i < |ms| ==> Sized(ms[i].value)
    case _ => true
  }

  // ---- reference tokens

  /** Section 3 of RFC 6901: `~` is written `~0` and `/` is written `~1`. */
  function Escape(key: string): (r: string) {
    if key == [] then []
    else (if key[0] == '/' then "~1" else if key[0] == '~' then "~0" else [key[0]]) + Escape(key[1..])
  }

  /** Section 4 of RFC 6901, with anything else after `~` an error. */
  function Unescape(token: string): (r: Option<string>)
    decreases |token|
  {
    if token == [] then Some([])
    else if token[0] != '~' then
      match Unescape(token[1..])
      case Some(rest) => Some([token[0]] + rest)
      case None => None
    else if |token| >= 2 && (token[1] == '0' || token[1] == '1') then
      match Unescape(token[2..])
      case Some(rest) => Some([if token[1] == '0' then '~' else '/'] + rest)
      case None => None
    else None
  }

  predicate SlashFree(s: string) {
    forall i :: 0 <= i < |s| ==> s[i] != '/'
  }

  lemma {:induction false} EscapeSlashFree(key: string)
    ensures SlashFree(Escape(key))
  {
    if key != [] {
      EscapeSlashFree(key[1..]);
    }
  }

  lemma {:induction false} UnescapeEscape(key: string)
    ensures Unescape(Escape(key)) == Some(key)
  {
    if key != [] {
      UnescapeEscape(key[1..]);
      var e := Escape(key);
      assert key == [key[0]] + key[1..];
      if key[0] == '/' || key[0] == '~' {
        assert e[2..] == Escape(key[1..]);
      } else {
        assert e[1..] == Escape(key[1..]);
      }
    }
  }

  /** All `~` followed by `d`, from left to right, replaced by `c`. */
  function Replaced(s: string, d: char, c: char): (r: string)
    decreases |s|
  {
    if s == [] then []
    else if |s| >= 2 && s[0] == '~' && s[1] == d then [c] + Replaced(s[2..], d, c)
    else [s[0]] + Replaced(s[1..], d, c)
  }

  predicate ProperToken(t: string) {
    forall i :: 0 <= i < |t| && t[i] == '~' ==> EscapedAt(t, i)
  }

  predicate EscapedAt(t: string, i: nat) {
    i + 1 < |t| && (t[i + 1] == '0' || t[i + 1] == '1')
  }

  /**
   * Section 4 of RFC 6901: first every `~1` is replaced by `/`, then every `~0` by `~`; a `~` before anything else is
   * an error.
   */
  lemma {:induction false} UnescapeIs(t: string)
    ensures Unescape(t).Some? <==> ProperToken(t)
    ensures ProperToken(t) ==> Unescape(t) == Some(Replaced(Replaced(t, '1', '/'), '0', '~'))
    decreases |t|
  {
    if t == [] {
    } else if t[0] != '~' {
      UnescapeIs(t[1..]);
      ProperTail(t, 1);
      ReplacedPlain(t[0], t[1..], '1', '/');
      ReplacedPlain(t[0], Replaced(t[1..], '1', '/'), '0', '~');
      assert t == [t[0]] + t[1..];
    } else if |t| >= 2 && (t[1] == '0' || t[1] == '1') {
      UnescapeIs(t[2..]);
      ProperTail(t, 2);
      var u := Replaced(t[2..], '1', '/');
      if t[1] == '1' {
        ReplacedPlain('/', u, '0', '~');
      } else {
        assert t[1..] == ['0'] + t[2..];
        ReplacedPlain('0', t[2..], '1', '/');
        assert Replaced(t, '1', '/') == ['~'] + (['0'] + u);
        assert (['~'] + (['0'] + u))[2..] == u;
      }
    }
  }

  lemma ReplacedPlain(c: char, t: string, d: char, e: char)
    requires c != '~'
    ensures Replaced([c] + t, d, e) == [c] + Replaced(t, d, e)
  {
    assert ([c] + t)[1..] == t;
  }

  lemma ProperTail(t: string, k: nat)
    requires (k == 1 && t != [] && t[0] != '~') || (k == 2 && t != [] && t[0] == '~' && EscapedAt(t, 0))
    ensures ProperToken(t) <==> ProperToken(t[k..])
  {
    var u := t[k..];
    forall i | 0 <= i < |u| && ProperToken(t) && u[i] == '~' ensures EscapedAt(u, i) {
      assert t[i + k] == '~' && EscapedAt(t, i + k);
    }
    forall i | 0 <= i < |t| && ProperToken(u) && t[i] == '~' ensures EscapedAt(t, i) {
      if i >= k {
        assert u[i - k] == '~' && EscapedAt(u, i - k);
      }
    }
  }

  /** The token at the front of `p`: up to the next `/` or the end. */
  function TokenLength(p: string): (n: nat)
    ensures n <= |p| && SlashFree(p[..n]) && (n < |p| ==> p[n] == '/')
  {
    if p == [] || p[0] == '/' then 0
    else
      var r := TokenLength(p[1..]);
      assert p[..1 + r] == [p[0]] + p[1..][..r];
      1 + r
  }

  function Token(p: string): (t: string)
    ensures SlashFree(t)
  {
    p[..TokenLength(p)]
  }

  /** The tokens GetPointer walks over: it stops at the first token that no `/` introduces. */
  function Split(p: string): (tokens: seq<string>)
    decreases |p|
  {
    if p == [] || p[0] != '/' then []
    else [Token(p[1..])] + Split(p[1..][TokenLength(p[1..])..])
  }

  function Render(tokens: seq<string>): (p: string)
    ensures tokens == [] ==> p == []
    ensures p == [] || p[0] == '/'
  {
    if tokens == [] then [] else "/" + tokens[0] + Render(tokens[1..])
  }

  predicate SlashFreeAll(tokens: seq<string>) {
    forall i :: 0 <= i < |tokens| ==> SlashFree(tokens[i])
  }

  lemma {:induction false} TokenOf(t: string, rest: string)
    requires SlashFree(t) && (rest == [] || rest[0] == '/')
    ensures TokenLength(t + rest) == |t| && Token(t + rest) == t && (t + rest)[|t|..] == rest
  {
    if t == [] {
      assert t + rest == rest;
    } else {
      assert (t + rest)[1..] == t[1..] + rest;
      TokenOf(t[1..], rest);
    }
  }

  lemma SplitCons(t: string, rest: string)
    requires SlashFree(t) && (rest == [] || rest[0] == '/')
    ensures Split("/" + t + rest) == [t] + Split(rest)
  {
    hide TokenLength, Split;
    var p := "/" + t + rest;
    assert p[0] == '/' && p[1..] == t + rest;
    TokenOf(t, rest);
    SplitUnfold(p);
  }

  lemma SplitUnfold(p: string)
    requires p != [] && p[0] == '/'
    ensures Split(p) == [Token(p[1..])] + Split(p[1..][TokenLength(p[1..])..])
  {
  }

  lemma {:induction false} SplitRender(tokens: seq<string>)
    requires SlashFreeAll(tokens)
    ensures Split(Render(tokens)) == tokens
  {
    hide Split;
    if tokens == [] {
      SplitEmpty();
    } else {
      SplitRender(tokens[1..]);
      SplitCons(tokens[0], Render(tokens[1..]));
      assert tokens == [tokens[0]] + tokens[1..];
    }
  }

  lemma SplitEmpty()
    ensures Split([]) == []
  {
  }

  lemma {:induction false} RenderAppend(a: seq<string>, b: seq<string>)
    ensures Render(a + b) == Render(a) + Render(b)
  {
    if a == [] {
      assert a + b == b;
    } else {
      RenderAppend(a[1..], b);
      assert (a + b)[0] == a[0] && (a + b)[1..] == a[1..] + b;
      var t, x, y := "/" + a[0], Render(a[1..]), Render(b);
      assert t + (x + y) == (t + x) + y;
    }
  }

  // ---- following a pointer

  /** The index an array token denotes; the digit loop wraps at the width of `size_t`. */
  function IndexOf(token: string): (r: Option<nat>) {
    if !AllDigits(token) then None
    else if Value(token) % SIZE_MODULUS > INT_MAX then None
    else Some(Value(token) % SIZE_MODULUS)
  }

  /** The child a token selects; `ChildCount` means none. */
  function Select(v: Json, token: string): (i: nat)
    ensures i <= ChildCount(v)
  {
    match v
    case Array(items) =>
      (match IndexOf(token)
       case Some(i) => if i < |items| then i else |items|
       case None => |items|)
    case Object(ms) =>
      (match Unescape(token)
       case Some(key) => FindKey(ms, key)
       case None => |ms|)
    case _ => 0
  }

  function Resolve(v: Json, tokens: seq<string>): (r: Option<Address>)
    decreases |tokens|
  {
    if tokens == [] then Some([])
    else
      var i := Select(v, tokens[0]);
      if i == ChildCount(v) then None
      else match Resolve(Child(v, i), tokens[1..])
        case Some(a) => Some([i] + a)
        case None => None
  }

  lemma {:induction false} ResolveAt(v: Json, tokens: seq<string>)
    ensures Resolve(v, tokens).Some? ==> At(v, Resolve(v, tokens).value).Some?
    decreases |tokens|
  {
    if tokens != [] {
      var i := Select(v, tokens[0]);
      if i < ChildCount(v) {
        ResolveAt(Child(v, i), tokens[1..]);
        var r := Resolve(Child(v, i), tokens[1..]);
        assert r.Some? ==> ([i] + r.value)[1..] == r.value;
      }
    }
  }

  // ---- finding a pointer

  /** The token FindPointerFromObjectTo writes for child `i`. */
  function TokenFor(v: Json, i: nat): (t: string)
    requires i < ChildCount(v)
    ensures SlashFree(t)
  {
    if v.Array? then Digits(i) else EscapeSlashFree(v.members[i].key); Escape(v.members[i].key)
  }

  function TokensFor(v: Json, a: Address): (ts: seq<string>)
    requires At(v, a).Some?
    ensures SlashFreeAll(ts) && |ts| == |a|
    decreases |a|
  {
    if a == [] then [] else [TokenFor(v, a[0])] + TokensFor(Child(v, a[0]), a[1..])
  }

  /** The recursive search: `here` is the address of `v`, and the children are tried in order. */
  function FindPath(v: Json, here: Address, target: Address): (r: Option<string>)
    decreases v, 1, 0
  {
    if here == target then Some([]) else FindFrom(v, 0, here, target)
  }

  function FindFrom(v: Json, c: nat, here: Address, target: Address): (r: Option<string>)
    requires c <= ChildCount(v)
    decreases v, 0, ChildCount(v) - c
  {
    if c == ChildCount(v) then None
    else match FindPath(Child(v, c), here + [c], target)
      case Some(found) => Some("/" + TokenFor(v, c) + found)
      case None => FindFrom(v, c + 1, here, target)
  }

  /** The search succeeds exactly for the addresses of nodes, and its answer spells out the tokens on the way there. */
  lemma {:induction false} FindPathIs(v: Json, here: Address, target: Address)
    ensures FindPath(v, here, target).Some? <==> here <= target && At(v, target[|here|..]).Some?
    ensures FindPath(v, here, target).Some? ==>
      FindPath(v, here, target).value == Render(TokensFor(v, target[|here|..]))
    decreases v, 1, 0
  {
    if here == target {
      assert target[|here|..] == [];
    } else {
      FindFromIs(v, 0, here, target);
    }
  }

  lemma {:induction false} FindFromIs(v: Json, c: nat, here: Address, target: Address)
    requires c <= ChildCount(v) && here != target
    ensures FindFrom(v, c, here, target).Some? <==>
      here < target && c <= target[|here|] && At(v, target[|here|..]).Some?
    ensures FindFrom(v, c, here, target).Some? ==>
      FindFrom(v, c, here, target).value == Render(TokensFor(v, target[|here|..]))
    decreases v, 0, ChildCount(v) - c
  {
    if c < ChildCount(v) {
      FindPathIs(Child(v, c), here + [c], target);
      FindFromIs(v, c + 1, here, target);
      assert here + [c] <= target ==> here < target by {
        assert here == (here + [c])[..|here|];
      }
      if here < target {
        var q := target[|here|..];
        assert q[1..] == target[|here| + 1..];
      }
    }
  }

  /**
   * Nothing before child `i` answers to its token: no earlier key equal up to case, and an index that fits an `int`.
   */
  predicate Unshadowed(v: Json, i: nat)
    requires i < ChildCount(v)
  {
    if v.Array? then i <= INT_MAX
    else forall j :: 0 <= j < i ==> Fold(v.members[j].key) != Fold(v.members[i].key)
  }

  /** Every step of the address is unshadowed. */
  predicate Reachable(v: Json, a: Address)
    requires At(v, a).Some?
    decreases |a|
  {
    a == [] || (Unshadowed(v, a[0]) && Reachable(Child(v, a[0]), a[1..]))
  }

  lemma SelectTokenFor(v: Json, i: nat)
    requires i < ChildCount(v)
    ensures Select(v, TokenFor(v, i)) == i <==> Unshadowed(v, i)
  {
    if v.Array? {
      ValueDigits(i);
      if i < SIZE_MODULUS {
        assert i % SIZE_MODULUS == i;
      }
    } else {
      UnescapeEscape(v.members[i].key);
    }
  }

  lemma ResolveCons(v: Json, t: string, ts: seq<string>, a: Address)
    ensures Resolve(v, [t] + ts) == Some(a) <==>
      a != [] && a[0] == Select(v, t) && a[0] < ChildCount(v) && Resolve(Child(v, a[0]), ts) == Some(a[1..])
  {
    hide Select;
    assert ([t] + ts)[1..] == ts;
    if a != [] {
      assert a == [a[0]] + a[1..];
    }
    var i := Select(v, t);
    if i < ChildCount(v) {
      var r := Resolve(Child(v, i), ts);
      assert r.Some? ==> ([i] + r.value)[0] == i && ([i] + r.value)[1..] == r.value;
    }
  }

  lemma {:induction false} ResolveTokensFor(v: Json, a: Address)
    requires At(v, a).Some?
    ensures Resolve(v, TokensFor(v, a)) == Some(a) <==> Reachable(v, a)
    decreases |a|
  {
    hide Resolve, Select, TokenFor, Unshadowed;
    if a == [] {
      ResolveNothing(v);
    } else {
      SelectTokenFor(v, a[0]);
      ResolveTokensFor(Child(v, a[0]), a[1..]);
      ResolveCons(v, TokenFor(v, a[0]), TokensFor(Child(v, a[0]), a[1..]), a);
    }
  }

  lemma ResolveNothing(v: Json)
    ensures Resolve(v, []) == Some([])
  {
  }

  lemma {:induction false} WellFormedReachable(v: Json, a: Address)
    requires WellFormed(v) && Sized(v) && At(v, a).Some?
    ensures Reachable(v, a)
    decreases |a|
  {
    if a != [] {
      WellFormedReachable(Child(v, a[0]), a[1..]);
    }
  }

  /**
   * Sections 3 and 4 of RFC 6901. FindPointerFromObjectTo fails exactly off the tree, and GetPointer follows its
   * answer back to the node exactly if no step is shadowed; in a well-formed document none is.
   */
  lemma PointerRoundTrip(root: Json, target: Address)
    ensures FindPath(root, [], target).Some? <==> At(root, target).Some?
    ensures At(root, target).Some? ==>
      (Resolve(root, Split(FindPath(root, [], target).value)) == Some(target) <==> Reachable(root, target))
    ensures At(root, target).Some? && WellFormed(root) && Sized(root) ==> Reachable(root, target)
  {
    FindPathIs(root, [], target);
    assert target[0..] == target;
    if At(root, target).Some? {
      SplitRender(TokensFor(root, target));
      ResolveTokensFor(root, target);
      if WellFormed(root) && Sized(root) {
        WellFormedReachable(root, target);
      }
    }
  }

  // ---- the loops

  /** Does the key match the escaped token, case aside? */
  predicate KeyMatches(key: string, token: string) {
    match Unescape(token)
    case Some(k) => Fold(k) == Fold(key)
    case None => false
  }

  lemma MatchPlain(key: string, token: string)
    requires token != [] && token[0] != '~'
    ensures KeyMatches(key, token) <==>
      key != [] && ToLower(key[0]) == ToLower(token[0]) && KeyMatches(key[1..], token[1..])
  {
    var u := Unescape(token[1..]);
    if u.Some? && key != [] {
      FoldCons(token[0], u.value);
      FoldCons(key[0], key[1..]);
      assert key == [key[0]] + key[1..];
    }
  }

  lemma FoldCons(c: char, s: string)
    ensures Fold([c] + s) == [ToLower(c)] + Fold(s)
  {
  }

  lemma MatchEscaped(key: string, token: string)
    requires token != [] && token[0] == '~'
    ensures KeyMatches(key, token) <==>
      && key != [] && |token| >= 2
      && ((token[1] == '0' && key[0] == '~') || (token[1] == '1' && key[0] == '/'))
      && KeyMatches(key[1..], token[2..])
  {
    hide Fold, ToLower;
    if |token| >= 2 {
      var u, c := Unescape(token[2..]), if token[1] == '0' then '~' else '/';
      if u.Some? {
        FoldCons(c, u.value);
        FoldFirst(key);
        Caseless(if key == [] then c else key[0]);
      }
    }
  }

  lemma FoldFirst(key: string)
    ensures key == [] ==> Fold(key) == []
    ensures key != [] ==> Fold(key) == [ToLower(key[0])] + Fold(key[1..])
  {
    if key != [] {
      FoldCons(key[0], key[1..]);
      assert key == [key[0]] + key[1..];
    }
  }

  lemma Caseless(c: char)
    ensures (ToLower(c) == ToLower('~') <==> c == '~') && (ToLower(c) == ToLower('/') <==> c == '/')
  {
  }

  /** `cJSONUtils_Pstrcasecmp`: compare a key with the token at the front of a pointer. */
  method PStrCaseCmp(a: string, e: string) returns (r: int)
    requires NulFree(a) && NulFree(e)
    ensures r == 0 <==> KeyMatches(a, Token(e))
  {
    var i, j := 0, 0;
    ghost var t := Token(e);
    while CharAt(a, i) != '\0' && CharAt(e, j) != '\0' && CharAt(e, j) != '/'
      invariant 0 <= i <= |a| && 0 <= j <= |t|
      invariant KeyMatches(a, t) <==> KeyMatches(a[i..], t[j..])
      decreases |a| - i
    {
      assert e[j] == t[j];
      if CharAt(e, j) == '~' {
        MatchEscaped(a[i..], t[j..]);
        if !(CharAt(e, j + 1) == '0' && CharAt(a, i) == '~') && !(CharAt(e, j + 1) == '1' && CharAt(a, i) == '/') {
          return 1;
        }
        assert j + 1 < |t|;
        j := j + 1;
      } else {
        MatchPlain(a[i..], t[j..]);
        if ToLower(CharAt(a, i)) != ToLower(CharAt(e, j)) {
          return 1;
        }
      }
      i, j := i + 1, j + 1;
    }
    if (CharAt(e, j) != '\0' && CharAt(e, j) != '/') != (CharAt(a, i) != '\0') {
      return 1;
    }
    return 0;
  }

  /** The digit loop of GetPointer, with the wrap-around of its accumulator. */
  method ParseIndex(p: string) returns (which: nat, n: nat)
    ensures n == DigitRun(p)
    ensures which == Value(p[..n]) % SIZE_MODULUS
  {
    which, n := 0, 0;
    while IsDigit(CharAt(p, n))
      invariant 0 <= n <= |p| && AllDigits(p[..n])
      invariant which == Value(p[..n]) % SIZE_MODULUS
      decreases |p| - n
    {
      assert p[..n + 1] == p[..n] + [p[n]];
      ValueSnoc(p[..n], p[n]);
      WrapStep(Value(p[..n]), DigitValue(p[n]));
      which := (10 * which + DigitValue(p[n])) % SIZE_MODULUS;
      n := n + 1;
    }
    DigitRunIs(p, n);
  }

  lemma WrapStep(v: nat, d: nat)
    ensures (10 * (v % SIZE_MODULUS) + d) % SIZE_MODULUS == (10 * v + d) % SIZE_MODULUS
  {
    var q := v / SIZE_MODULUS;
    assert 10 * v + d == 10 * (v % SIZE_MODULUS) + d + (10 * q) * SIZE_MODULUS;
  }

  /** An array token is a run of digits up to the next `/` or the end. */
  lemma DigitToken(p: string)
    ensures AllDigits(Token(p)) <==> DigitRun(p) == TokenLength(p)
    ensures DigitRun(p) == TokenLength(p) <==> DigitRun(p) == |p| || p[DigitRun(p)] == '/'
  {
    hide TokenLength, DigitRun;
    var n, d := TokenLength(p), DigitRun(p);
    if AllDigits(Token(p)) {
      DigitRunIs(p, n);
    }
    if d == |p| || p[d] == '/' {
      assert SlashFree(p[..d]);
      assert p == p[..d] + p[d..];
      TokenOf(p[..d], p[d..]);
    }
  }

  /** The search for an object member; `i` is the number of members passed over. */
  method FindMember(ms: seq<Member>, p: string) returns (i: nat)
    requires NulFree(p) && forall j :: 0 <= j < |ms| ==> NulFree(ms[j].key)
    ensures i == Select(Object(ms), Token(p))
  {
    ghost var u := Unescape(Token(p));
    i := 0;
    while i < |ms|
      invariant i <= |ms|
      invariant forall j :: 0 <= j < i ==> !KeyMatches(ms[j].key, Token(p))
    {
      var r := PStrCaseCmp(ms[i].key, p);
      if r == 0 {
        break;
      }
      i := i + 1;
    }
  }

  ghost function Under(a: Address, r: Option<Address>): (s: Option<Address>) {
    match r
    case Some(b) => Some(a + b)
    case None => None
  }

  /** Every key in the tree is a C string; keys may repeat. */
  predicate CKeyed(v: Json) {
    match v
    case Array(items) => forall i :: 0 <= i < |items| ==> CKeyed(items[i])
    case Object(ms) => forall i :: 0 <= i < |ms| ==> NulFree(ms[i].key) && CKeyed(ms[i].value)
    case _ => true
  }

  /** One turn of the walk: the child the token at the front of `p` selects, and the text behind the token. */
  method FollowToken(node: Json, p: string) returns (r: Option<(nat, string)>)
    requires CKeyed(node) && NulFree(p)
    ensures var i := Select(node, Token(p));
      r == if i < ChildCount(node) then Some((i, p[TokenLength(p)..])) else None
  {
    if node.Array? {
      var which, n := ParseIndex(p);
      DigitToken(p);
      if CharAt(p, n) != '\0' && CharAt(p, n) != '/' {
        return None;
      }
      if which > INT_MAX || which >= |node.items| {
        return None;
      }
      return Some((which, p[n..]));
    } else if node.Object? {
      var i := FindMember(node.members, p);
      var n := 0;
      while CharAt(p, n) != '\0' && CharAt(p, n) != '/'
        invariant 0 <= n <= TokenLength(p)
        decreases |p| - n
      {
        n := n + 1;
      }
      ghost var c := CharAt(Token(p), n);
      return if i < |node.members| then Some((i, p[n..])) else None;
    } else {
      return None;
    }
  }

  /** `cJSONUtils_GetPointer`: follow token after token while a `/` introduces one. */
  method GetPointer(root: Json, pointer: string) returns (r: Option<Address>)
    requires CKeyed(root) && NulFree(pointer)
    ensures r == Resolve(root, Split(pointer))
  {
    var node, a: Address, p := root, [], pointer;
    UnderNothing(Resolve(root, Split(pointer)));
    while CharAt(p, 0) == '/'
      invariant CKeyed(node) && NulFree(p)
      invariant Resolve(root, Split(pointer)) == Under(a, Resolve(node, Split(p)))
      decreases |p|
    {
      var step := FollowToken(node, p[1..]);
      StepInto(node, a, p);
      if step.None? {
        return None;
      }
      var (i, rest) := step.value;
      node, a, p := Child(node, i), a + [i], rest;
    }
    assert a + [] == a;
    return Some(a);
  }

  lemma UnderNothing(r: Option<Address>)
    ensures Under([], r) == r
  {
    assert r.Some? ==> [] + r.value == r.value;
  }

  lemma StepInto(v: Json, a: Address, p: string)
    requires p != [] && p[0] == '/'
    ensures var t, rest := Token(p[1..]), p[1..][TokenLength(p[1..])..];
      var i := Select(v, t);
      Under(a, Resolve(v, Split(p))) ==
        if i == ChildCount(v) then None else Under(a + [i], Resolve(Child(v, i), Split(rest)))
  {
    hide Split, Select, TokenLength;
    SplitUnfold(p);
    var t, rest := Token(p[1..]), p[1..][TokenLength(p[1..])..];
    var i := Select(v, t);
    assert ([t] + Split(rest))[1..] == Split(rest);
    if i < ChildCount(v) {
      var r := Resolve(Child(v, i), Split(rest));
      if r.Some? {
        assert a + ([i] + r.value) == a + [i] + r.value;
      }
    }
  }

  /** `cJSONUtils_PointerEncodedstrcpy` writes exactly the length PointerEncodedstrlen counted, and a terminator. */
  method EncodedStrLen(s: string) returns (l: nat)
    ensures l == |Escape(s)|
  {
    l := 0;
    for k := 0 to |s|
      invariant l + |Escape(s[k..])| == |Escape(s)|
    {
      assert s[k..][1..] == s[k + 1..];
      l := l + if s[k] == '~' || s[k] == '/' then 2 else 1;
    }
  }

  method EncodedStrCpy(d: array<char>, at: nat, s: string)
    requires at + |Escape(s)| < d.Length
    modifies d
    ensures d[..at] == old(d[..at])
    ensures d[at..at + |Escape(s)|] == Escape(s) && d[at + |Escape(s)|] == '\0'
    ensures d[at + |Escape(s)| + 1..] == old(d[at + |Escape(s)| + 1..])
  {
    hide Escape;
    ghost var enc := Escape(s);
    var o := at;
    assert s[0..] == s;
    for k := 0 to |s|
      invariant at <= o <= at + |enc| && enc[o - at..] == Escape(s[k..])
      invariant forall j :: at <= j < o ==> d[j] == enc[j - at]
      invariant forall j :: 0 <= j < d.Length && !(at <= j < o) ==> d[j] == old(d[j])
    {
      EscapeHere(s, k);
      ghost var n := if s[k] == '/' || s[k] == '~' then 2 else 1;
      assert enc[o - at..][n..] == enc[o - at + n..] && enc[o - at] == enc[o - at..][0];
      if s[k] == '/' {
        assert enc[o - at + 1] == enc[o - at..][1];
        d[o], d[o + 1] := '~', '1';
        o := o + 2;
      } else if s[k] == '~' {
        assert enc[o - at + 1] == enc[o - at..][1];
        d[o], d[o + 1] := '~', '0';
        o := o + 2;
      } else {
        d[o] := s[k];
        o := o + 1;
      }
    }
    EscapeEnd(s);
    d[o] := '\0';
  }

  lemma EscapeHere(s: string, k: nat)
    requires k < |s|
    ensures var piece := if s[k] == '/' then "~1" else if s[k] == '~' then "~0" else [s[k]];
      Escape(s[k..]) == piece + Escape(s[k + 1..])
  {
    assert s[k..][1..] == s[k + 1..];
  }

  lemma EscapeEnd(s: string)
    ensures Escape(s[|s|..]) == ""
  {
  }

  /** `cJSONUtils_FindPointerFromObjectTo`: a depth-first search that writes the tokens on the way back up. */
  method FindPointer(v: Json, here: Address, target: Address) returns (r: Option<string>)
    ensures r == FindPath(v, here, target)
    decreases v
  {
    if here == target {
      return Some("");
    }
    var c := 0;
    while c < ChildCount(v)
      invariant 0 <= c <= ChildCount(v)
      invariant FindPath(v, here, target) == FindFrom(v, c, here, target)
    {
      var found := FindPointer(Child(v, c), here + [c], target);
      if found.Some? {
        return Some("/" + TokenFor(v, c) + found.value);
      }
      c := c + 1;
    }
    return None;
  }
}
