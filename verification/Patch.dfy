/** Applying a JSON Patch to a document. */
module Patch {
  import opened CStrings
  import opened JsonValue
  import opened Decimal
  import opened Pointer
  import opened Compare

  // ---- editing the tree at an address

  function SetChild(v: Json, i: nat, w: Json): (r: Json)
    requires i < ChildCount(v)
  {
    if v.Array? then Array(v.items[i := w]) else Object(v.members[i := Member(v.members[i].key, w)])
  }

  function SetAt(v: Json, a: Address, w: Json): (r: Json)
    requires At(v, a).Some?
    decreases |a|
  {
    if a == [] then w else SetChild(v, a[0], SetAt(Child(v, a[0]), a[1..], w))
  }

  // ---- the text of a path

  /** Index of the last `/`, as `strrchr` finds it. */
  function LastSlash(p: string): (r: Option<nat>)
    ensures r.Some? ==> r.value < |p| && p[r.value] == '/' && SlashFree(p[r.value + 1..])
    ensures r.None? ==> SlashFree(p)
  {
    if p == [] then None
    else if p[|p| - 1] == '/' then Some(|p| - 1)
    else
      var r := LastSlash(p[..|p| - 1]);
      assert p == p[..|p| - 1] + [p[|p| - 1]];
      assert r.Some? ==> p[r.value + 1..] == p[..|p| - 1][r.value + 1..] + [p[|p| - 1]];
      r
  }

  /** InplaceDecodePointerString; a `~` at the very end makes its loop step over the terminator. */
  function Decode(s: string): (r: Option<string>)
    decreases |s|
  {
    if s == [] then Some([])
    else if s[0] != '~' then
      match Decode(s[1..])
      case Some(rest) => Some([s[0]] + rest)
      case None => None
    else if |s| == 1 then None
    else
      match Decode(s[2..])
      case Some(rest) => Some([if s[1] == '0' then '~' else '/'] + rest)
      case None => None
  }

  lemma {:induction false} DecodeEscape(key: string)
    ensures Decode(Escape(key)) == Some(key)
  {
    if key != [] {
      DecodeEscape(key[1..]);
      var e := Escape(key);
      assert key == [key[0]] + key[1..];
      if key[0] == '/' || key[0] == '~' {
        assert e[2..] == Escape(key[1..]);
      } else {
        assert e[1..] == Escape(key[1..]);
      }
    }
  }

  /** A proper token is decoded as a pointer reads it. */
  lemma {:induction false} DecodeIsUnescape(t: string)
    ensures Unescape(t).Some? ==> Decode(t) == Unescape(t)
    decreases |t|
  {
    if t != [] {
      DecodeIsUnescape(t[1..]);
      if |t| > 1 {
        DecodeIsUnescape(t[2..]);
      }
    }
  }

  predicate IsSpace(c: char) {
    c == ' ' || '\t' <= c <= '\r'
  }

  /** `atoi`: white space, a sign, digits; undefined outside `int`. */
  function Atoi(s: string): (r: Option<int>)
    decreases |s|
  {
    if s != [] && IsSpace(s[0]) then Atoi(s[1..])
    else if s != [] && (s[0] == '-' || s[0] == '+') then
      var n: int := Value(s[1..][..DigitRun(s[1..])]);
      InInt(if s[0] == '-' then -n else n)
    else
      InInt(Value(s[..DigitRun(s)]))
  }

  function InInt(n: int): (r: Option<int>) {
    if -INT_MAX - 1 <= n <= INT_MAX then Some(n) else None
  }

  /** Section 7.22.1.4 of the C standard, base 10: spaces, a sign, digits, anything. */
  lemma {:induction false} AtoiIs(w: string, sign: string, digits: string, rest: string)
    requires (forall i :: 0 <= i < |w| ==> IsSpace(w[i])) && sign in ["", "+", "-"] && AllDigits(digits)
    requires rest == [] || !IsDigit(rest[0])
    requires sign == "" && digits == "" && rest != [] ==> !IsSpace(rest[0]) && rest[0] != '+' && rest[0] != '-'
    ensures Atoi(w + (sign + (digits + rest))) == InInt(if sign == "-" then -(Value(digits) as int) else Value(digits))
  {
    hide Value, DigitRun, InInt;
    var d := digits + rest;
    var s := sign + d;
    if w == [] {
      assert w + s == s && d[..|digits|] == digits;
      DigitRunIs(d, |digits|);
      if sign == "" {
        assert s == d;
        assert digits != [] ==> d[0] == digits[0] && IsDigit(d[0]);
      } else {
        assert s[0] == sign[0] && s[1..] == d;
      }
    } else {
      assert (w + s)[0] == w[0] && (w + s)[1..] == w[1..] + s;
      AtoiIs(w[1..], sign, digits, rest);
    }
  }

  lemma AtoiDigits(n: nat)
    requires n <= INT_MAX
    ensures Atoi(Digits(n)) == Some(n)
  {
    AtoiIs("", "", Digits(n), "");
    ValueDigits(n);
    assert "" + ("" + (Digits(n) + "")) == Digits(n);
  }

  // ---- the two halves of a patch: take a node out, put a node in

  /**
   * A detached node, if there was one, and the tree without it; `Undetachable` where the C code has no defined effect.
   */
  datatype Detached = Detached(item: Option<Json>, doc: Json) | Undetachable

  function DetachFrom(parent: Json, child: string): (r: Detached) {
    match parent
    case Array(items) =>
      (match Atoi(child)
       case None => Undetachable
       case Some(i) =>
         if 0 <= i < |items| then Detached(Some(items[i]), Array(RemoveAt(items, i))) else Detached(None, parent))
    case Object(ms) =>
      var i := FindKey(ms, child);
      if i < |ms| then Detached(Some(ms[i].value), Object(RemoveAt(ms, i))) else Detached(None, parent)
    case _ => Detached(None, parent)
  }

  /** `cJSONUtils_PatchDetach`. */
  function PatchDetach(doc: Json, path: string): (r: Detached) {
    match LastSlash(path)
    case None => Detached(None, doc)
    case Some(k) =>
      match Decode(path[k + 1..])
      case None => Undetachable
      case Some(child) =>
        match Resolve(doc, Split(path[..k]))
        case None => Detached(None, doc)
        case Some(a) =>
          ResolveAt(doc, Split(path[..k]));
          match DetachFrom(At(doc, a).value, child)
          case Undetachable => Undetachable
          case Detached(item, node) => Detached(item, SetAt(doc, a, node))
  }

  /** The status ApplyPatch returns and the document it leaves; `Undefined` where the C code has no defined effect. */
  datatype Applied = Applied(err: int, doc: Json) | Undefined

  /** Where InsertItemInArray puts a new item. */
  function InsertIndex(i: int, n: nat): (r: nat)
    ensures r <= n
  {
    if i < 0 then 0 else if i < n then i else n
  }

  function AddTo(parent: Json, child: string, value: Json): (r: Option<Json>) {
    match parent
    case Array(items) =>
      if child == "-" then Some(Array(items + [value]))
      else (match Atoi(child)
        case None => None
        case Some(i) => Some(Array(InsertAt(items, InsertIndex(i, |items|), value))))
    case Object(ms) => Some(Object(PutKey(ms, child, value)))
    case _ => Some(parent)
  }

  /** In an array: at the index, at the front for a negative one, at the end for `-` and past the end; in order else. */
  lemma AddToArray(items: seq<Json>, child: string, value: Json)
    requires child == "-" || Atoi(child).Some?
    ensures var r, n := AddTo(Array(items), child, value), |items|;
      var k := if child == "-" then n else Atoi(child).value;
      var i := if k >= n then n else if k < 0 then 0 else k;
      && r.Some? && r.value.Array? && |r.value.items| == n + 1 && r.value.items[i] == value
      && (forall j :: 0 <= j < i ==> r.value.items[j] == items[j])
      && (forall j :: i <= j < n ==> r.value.items[j + 1] == items[j])
  {
    hide Atoi;
  }

  /** The end of ApplyPatch: put `value` at `path`. A path without `/` has no child part. */
  function AddValue(doc: Json, path: string, value: Json): (r: Applied) {
    match LastSlash(path)
    case None =>
      // the whole path is the parent pointer, and it names the root
      (match doc
       case Array(_) => Undefined
       case Object(ms) => Applied(0, Object(ms + [Member("", value)]))
       case _ => Applied(0, doc))
    case Some(k) =>
      match Decode(path[k + 1..])
      case None => Undefined
      case Some(child) =>
        match Resolve(doc, Split(path[..k]))
        case None => Applied(9, doc)
        case Some(a) =>
          ResolveAt(doc, Split(path[..k]));
          match AddTo(At(doc, a).value, child, value)
          case None => Undefined
          case Some(node) => Applied(0, SetAt(doc, a, node))
  }

  // ---- the six operations

  /** `cJSON_GetObjectItem` on a patch; only objects have named children. */
  function Field(v: Json, name: string): (r: Option<Json>) {
    if v.Object? && FindKey(v.members, name) < |v.members| then Some(v.members[FindKey(v.members, name)].value)
    else None
  }

  /** `cJSONUtils_ApplyPatch`. */
  function ApplyPatch(doc: Json, patch: Json): (r: Applied) {
    match (Field(patch, "op"), Field(patch, "path"))
    case (Some(String(op)), Some(String(path))) => ApplyOp(doc, op, path, patch)
    case (None, _) => Applied(2, doc)
    case (_, None) => Applied(2, doc)
    case (Some(String(op)), _) =>
      if op in ["add", "remove", "replace", "move", "copy", "test"] then Undefined else Applied(3, doc)
    case _ => Undefined
  }

  function ApplyOp(doc: Json, op: string, path: string, patch: Json): (r: Applied) {
    if op == "add" then ApplyAdd(doc, path, patch)
    else if op == "remove" then ApplyRemove(doc, path)
    else if op == "replace" then ApplyReplace(doc, path, patch)
    else if op == "move" then ApplyMove(doc, path, patch)
    else if op == "copy" then ApplyCopy(doc, path, patch)
    else if op == "test" then ApplyTest(doc, path, patch)
    else Applied(3, doc)
  }

  function ApplyAdd(doc: Json, path: string, patch: Json): (r: Applied) {
    match Field(patch, "value")
    case None => Applied(7, doc)
    case Some(v) => AddValue(doc, path, v)
  }

  function ApplyRemove(doc: Json, path: string): (r: Applied) {
    match PatchDetach(doc, path)
    case Undetachable => Undefined
    case Detached(_, rest) => Applied(0, rest)
  }

  function ApplyReplace(doc: Json, path: string, patch: Json): (r: Applied) {
    match PatchDetach(doc, path)
    case Undetachable => Undefined
    case Detached(_, rest) => ApplyAdd(rest, path, patch)
  }

  function ApplyMove(doc: Json, path: string, patch: Json): (r: Applied) {
    match Field(patch, "from")
    case None => Applied(4, doc)
    case Some(String(from)) =>
      (match PatchDetach(doc, from)
       case Undetachable => Undefined
       case Detached(None, rest) => Applied(5, rest)
       case Detached(Some(v), rest) => AddValue(rest, path, v))
    case Some(_) => Undefined
  }

  function ApplyCopy(doc: Json, path: string, patch: Json): (r: Applied) {
    match Field(patch, "from")
    case None => Applied(4, doc)
    case Some(String(from)) =>
      (match Resolve(doc, Split(from))
       case None => Applied(5, doc)
       case Some(a) => ResolveAt(doc, Split(from)); AddValue(doc, path, At(doc, a).value))
    case Some(_) => Undefined
  }

  /** The comparison leaves the node it looked at reordered. */
  function ApplyTest(doc: Json, path: string, patch: Json): (r: Applied) {
    match (Resolve(doc, Split(path)), Field(patch, "value"))
    case (Some(a), Some(v)) =>
      ResolveAt(doc, Split(path));
      Applied(CompareCode(At(doc, a).value, v), SetAt(doc, a, Touched(At(doc, a).value, v).0))
    case _ => Applied(-1, doc)
  }

  /** `cJSONUtils_ApplyPatches`: stop at the first patch that fails. */
  function ApplyAll(doc: Json, patches: seq<Json>): (r: Applied)
    decreases |patches|
  {
    if patches == [] then Applied(0, doc)
    else match ApplyPatch(doc, patches[0])
      case Undefined => Undefined
      case Applied(err, d) => if err != 0 then Applied(err, d) else ApplyAll(d, patches[1..])
  }

  // ---- the loops

  /** The in-place decoder: the write index never passes the read index. */
  method DecodeInPlace(a: array<char>, len: nat) returns (n: nat)
    requires len < a.Length && NulFree(a[..len]) && a[len] == '\0' && Decode(a[..len]).Some?
    modifies a
    ensures n <= len && a[..n] == Decode(old(a[..len])).value && a[n] == '\0'
    ensures a[len + 1..] == old(a[len + 1..])
  {
    hide Decode;
    ghost var text := a[..len];
    ghost var all := Decode(text).value;
    var i := 0;
    n := 0;
    assert text[0..] == text && all[0..] == all;
    while a[i] != '\0'
      invariant 0 <= n <= i <= len
      invariant forall k :: i <= k < a.Length ==> a[k] == old(a[k])
      invariant i < len ==> a[i] != '\0'
      invariant Decode(text[i..]).Some? && n + |Decode(text[i..]).value| == |all|
      invariant forall k :: 0 <= k < n ==> a[k] == all[k]
      invariant all[n..] == Decode(text[i..]).value
      decreases len - i
    {
      DecodeStep(text, i);
      assert a[i] == text[i];
      var c := a[i];
      if c == '~' {
        i := i + 1;
        assert a[i] == text[i];
        c := if a[i] == '0' then '~' else '/';
      }
      assert all[n..][0] == c && all[n..][1..] == all[n + 1..];
      a[n] := c;
      i, n := i + 1, n + 1;
    }
    assert text[i..] == [];
    DecodeEnd();
    a[n] := '\0';
    assert a[..n] == all;
  }

  /** One turn of the decoder. */
  lemma DecodeStep(text: string, i: nat)
    requires i < |text| && Decode(text[i..]).Some?
    ensures var n := if text[i] == '~' then 2 else 1;
      && i + n <= |text| && Decode(text[i + n..]).Some?
      && Decode(text[i..]).value ==
        [if text[i] != '~' then text[i] else if text[i + 1] == '0' then '~' else '/'] + Decode(text[i + n..]).value
  {
    var t := text[i..];
    assert t[0] == text[i] && t[1..] == text[i + 1..];
    if text[i] == '~' {
      assert t[1] == text[i + 1] && t[2..] == text[i + 2..];
    }
  }

  lemma DecodeEnd()
    ensures Decode([]) == Some([])
  {
  }
}
