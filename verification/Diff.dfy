/** Generating a JSON Patch: the walk over two documents and what the patch it writes really does. */
module Diff {
  import opened CStrings
  import opened JsonValue
  import opened Decimal
  import opened Pointer
  import opened ChildList
  import opened Compare
  import opened Patch
  import opened PatchMeaning

  // ---- the patches written

  /** `cJSONUtils_GeneratePatch`, the path already complete. */
  function MakePatch(op: string, path: string, value: Option<Json>): (p: Json) {
    Object([Member("op", String(op)), Member("path", String(path))] +
           match value { case Some(v) => [Member("value", v)] case None => [] })
  }

  function Replace(path: string, to: Json): (ps: seq<Json>) {
    [MakePatch("replace", path, Some(to))]
  }

  /** `cJSONUtils_CompareToPatch`. */
  function CompareToPatch(path: string, from: Json, to: Json): (ps: seq<Json>)
    decreases from, 1, 0
  {
    if !SameType(from, to) then Replace(path, to)
    else match from
      case Number(n) => if n != to.n then Replace(path, to) else []
      case String(s) => if s != to.s then Replace(path, to) else []
      case Array(items) => DiffItems(path, items, to.items, 0)
      case Object(ms) =>
        SortedBelow(from);
        DiffMembers(path, Sorted(ms), Sorted(to.members), from)
      case _ => []
  }

  /** The array loops: element by element, then removals at growing indices, then appends. */
  function DiffItems(path: string, xs: seq<Json>, ys: seq<Json>, c: nat): (ps: seq<Json>)
    decreases xs, 0, 0
  {
    if xs == [] then AddPatches(path, ys)
    else if ys == [] then RemovePatches(path, c, |xs|)
    else CompareToPatch(path + "/" + Digits(c), xs[0], ys[0]) + DiffItems(path, xs[1..], ys[1..], c + 1)
  }

  function RemovePatches(path: string, c: nat, n: nat): (ps: seq<Json>)
    decreases n
  {
    if n == 0 then []
    else [MakePatch("remove", path + "/" + Escape(Digits(c)), None)] + RemovePatches(path, c + 1, n - 1)
  }

  function AddPatches(path: string, ys: seq<Json>): (ps: seq<Json>) {
    if ys == [] then [] else [MakePatch("add", path + "/" + Escape("-"), Some(ys[0]))] + AddPatches(path, ys[1..])
  }

  /** The object loop: a merge walk over two sorted member lists. */
  function DiffMembers(path: string, xs: seq<Member>, ys: seq<Member>, ghost root: Json): (ps: seq<Json>)
    requires Below(xs, root)
    decreases root, 0, |xs| + |ys|
  {
    if xs == [] && ys == [] then []
    else
      var diff := if xs == [] then 1 else if ys == [] then -1 else CaseCmp(xs[0].key, ys[0].key);
      if diff == 0 then
        CompareToPatch(path + "/" + Escape(xs[0].key), xs[0].value, ys[0].value) +
          DiffMembers(path, xs[1..], ys[1..], root)
      else if diff < 0 then
        [MakePatch("remove", path + "/" + Escape(xs[0].key), None)] + DiffMembers(path, xs[1..], ys, root)
      else
        [MakePatch("add", path + "/" + Escape(ys[0].key), Some(ys[0].value))] + DiffMembers(path, xs, ys[1..], root)
  }

  /** `cJSONUtils_GeneratePatches`. */
  function GeneratePatches(from: Json, to: Json): (ps: Json) {
    Array(CompareToPatch("", from, to))
  }

  // ---- reading a written patch back

  lemma FoldNames()
    ensures Fold("op") == "op" && Fold("path") == "path" && Fold("value") == "value" && Fold("from") == "from"
  {
    LowerFold("op");
    LowerFold("path");
    LowerFold("value");
    LowerFold("from");
  }

  lemma ItemsOfPatch(op: string, path: string, value: Option<Json>)
    ensures var p := MakePatch(op, path, value);
      && Field(p, "op") == Some(String(op)) && Field(p, "path") == Some(String(path))
      && Field(p, "value") == value && Field(p, "from") == None
  {
    FoldNames();
    var ms := MakePatch(op, path, value).members;
    assert ms[0].key == "op" && ms[1].key == "path";
    assert value.Some? ==> ms[2] == Member("value", value.value);
    assert FindKey(ms, "op") == 0;
    assert FindKey(ms, "path") == 1;
    if value.Some? {
      assert |ms| == 3;
      assert FindKey(ms, "value") == 2;
      assert FindKey(ms, "from") == 3;
    } else {
      assert |ms| == 2;
      assert FindKey(ms, "value") == 2;
      assert FindKey(ms, "from") == 2;
    }
  }

  lemma PatchWellFormed(op: string, path: string, value: Option<Json>)
    requires value.Some? ==> WellFormed(value.value)
    ensures WellFormed(MakePatch(op, path, value))
  {
    FoldNames();
    var ms := MakePatch(op, path, value).members;
    assert ms[0] == Member("op", String(op)) && ms[1] == Member("path", String(path));
    assert value.Some? ==> ms[2] == Member("value", value.value);
  }

  predicate PlainTokens(tokens: seq<string>) {
    forall i :: 0 <= i < |tokens| ==> SlashFree(tokens[i]) && NulFree(tokens[i])
  }

  lemma {:induction false} LastSlashOf(p: string, t: string)
    requires SlashFree(t)
    ensures LastSlash(p + "/" + t) == Some(|p|)
    ensures (p + "/" + t)[..|p|] == p && (p + "/" + t)[|p| + 1..] == t
    decreases |t|
  {
    if t == [] {
      assert p + "/" + t == p + "/";
    } else {
      var u := t[..|t| - 1];
      assert (p + "/" + t)[..|p| + |t|] == p + "/" + u;
      LastSlashOf(p, u);
    }
  }

  lemma {:induction false} RenderNulFree(tokens: seq<string>)
    requires PlainTokens(tokens)
    ensures NulFree(Render(tokens))
  {
    if tokens != [] {
      RenderNulFree(tokens[1..]);
    }
  }

  /** A patch the walk writes for token `t` under `tokens`. */
  ghost predicate Written(p: Json, op: string, tokens: seq<string>, t: string, value: Option<Json>) {
    && p == MakePatch(op, Render(tokens) + "/" + t, value)
    && PlainTokens(tokens) && SlashFree(t) && NulFree(t)
    && (value.Some? ==> WellFormed(value.value))
  }

  lemma WrittenPlaced(p: Json, op: string, tokens: seq<string>, t: string, value: Option<Json>)
    requires Written(p, op, tokens, t, value)
    ensures Placed(p)
  {
    var path := Render(tokens) + "/" + t;
    ItemsOfPatch(op, path, value);
    PatchWellFormed(op, path, value);
    RenderNulFree(tokens);
    LastSlashOf(Render(tokens), t);
  }

  lemma WrittenPath(p: Json, op: string, tokens: seq<string>, t: string, value: Option<Json>)
    requires Written(p, op, tokens, t, value)
    ensures var path := Render(tokens) + "/" + t;
      && Field(p, "op") == Some(String(op)) && Field(p, "path") == Some(String(path)) && Field(p, "value") == value
      && LastSlash(path) == Some(|Render(tokens)|) && path[|Render(tokens)| + 1..] == t
      && Split(path[..|Render(tokens)|]) == tokens
  {
    ItemsOfPatch(op, Render(tokens) + "/" + t, value);
    LastSlashOf(Render(tokens), t);
    SplitRender(tokens);
  }

  /** The effect of one written removal: the parent without the child. */
  lemma RemoveEffect(s: Sem, p: Json, tokens: seq<string>, t: string, child: string)
    requires Written(p, "remove", tokens, t, None) && Decode(t) == Some(child)
    requires SemAt(s, tokens).Some? && SemDetachFrom(SemAt(s, tokens).value, child).SemDetached?
    ensures Placed(p)
    ensures SemApply(s, p) == SemApplied(true, SemSet(s, tokens, SemDetachFrom(SemAt(s, tokens).value, child).doc))
  {
    hide SemDetachFrom, Split, Render, Decode, SemAt, LastSlash;
    WrittenPlaced(p, "remove", tokens, t, None);
    WrittenPath(p, "remove", tokens, t, None);
  }

  /** The effect of one written addition. */
  lemma AddEffect(s: Sem, p: Json, tokens: seq<string>, t: string, child: string, v: Json)
    requires Written(p, "add", tokens, t, Some(v)) && Decode(t) == Some(child)
    requires SemAt(s, tokens).Some? && SemAddTo(SemAt(s, tokens).value, child, Norm(v)).Some?
    ensures Placed(p)
    ensures SemApply(s, p) ==
      SemApplied(true, SemSet(s, tokens, SemAddTo(SemAt(s, tokens).value, child, Norm(v)).value))
  {
    hide SemAddTo, Split, Render, Decode, SemAt, LastSlash;
    WrittenPlaced(p, "add", tokens, t, Some(v));
    WrittenPath(p, "add", tokens, t, Some(v));
  }

  /** Taking a child out of its parent and putting another in its place is replacing it. */
  lemma ReplaceInPlace(parent: Sem, t: string, child: string, w: Sem)
    requires Decode(t) == Some(child) && Step(parent, t).Some? && ChildToken(parent, t, child)
    ensures var d := SemDetachFrom(parent, child);
      d.SemDetached? && SemAddTo(d.doc, child, w) == Some(PutStep(parent, t, w))
  {
    hide Decode, IndexOf, Atoi, Unescape;
    if parent.SArray? {
      var i := IndexOf(t).value;
      assert InsertAt(RemoveAt(parent.items, i), i, w) == parent.items[i := w];
    } else {
      var k := Fold(child);
      assert (parent.fields - {k})[k := w] == parent.fields[k := w];
    }
  }

  /** `t` names the same child as a pointer token and, decoded, as the last part of a path. */
  ghost predicate ChildToken(parent: Sem, t: string, child: string) {
    match parent
    case SArray(_) => child != "-" && exists i: nat :: IndexOf(t) == Some(i) && Atoi(child) == Some(i)
    case _ => Unescape(t) == Some(child)
  }

  /** The effect of one written replacement, wherever in the document it lands. */
  lemma ReplaceEffect(s: Sem, p: Json, tokens: seq<string>, t: string, child: string, v: Json)
    requires Written(p, "replace", tokens, t, Some(v)) && Decode(t) == Some(child)
    requires SemAt(s, tokens).Some? && Step(SemAt(s, tokens).value, t).Some?
    requires ChildToken(SemAt(s, tokens).value, t, child)
    ensures Placed(p)
    ensures SemAt(s, tokens + [t]).Some? && SemApply(s, p) == SemApplied(true, SemSet(s, tokens + [t], Norm(v)))
  {
    hide SemDetachFrom, SemAddTo, Split, Render, Decode, LastSlash, ChildToken, Step, SemAt, SemSet, PutStep, Norm;
    WrittenPlaced(p, "replace", tokens, t, Some(v));
    WrittenPath(p, "replace", tokens, t, Some(v));
    var parent := SemAt(s, tokens).value;
    ReplaceInPlace(parent, t, child, Norm(v));
    var rest := SemDetachFrom(parent, child).doc;
    SetTwice(s, tokens, rest, PutStep(parent, t, Norm(v)));
    SetSnoc(s, tokens, t, Norm(v));
  }

  // ---- the walk as the source runs it

  /** `cJSONUtils_CompareToPatch`: append the patches for this pair to the list. */
  method AppendPatches(patches: seq<Json>, path: string, from: Json, to: Json) returns (out: seq<Json>)
    requires WellFormed(from) && WellFormed(to)
    ensures out == patches + CompareToPatch(path, from, to)
    decreases from, 1
  {
    out := patches;
    if !SameType(from, to) {
      out := out + [MakePatch("replace", path, Some(to))];
    } else {
      match from
      case Number(n) =>
        if n != to.n {
          out := out + [MakePatch("replace", path, Some(to))];
        }
      case String(s) =>
        if s != to.s {
          out := out + [MakePatch("replace", path, Some(to))];
        }
      case Array(_) =>
        out := AppendArrayPatches(patches, path, from, to);
      case Object(_) =>
        out := AppendObjectPatches(patches, path, from, to);
      case _ =>
    }
  }

  lemma ItemsWellFormed(v: Json)
    requires WellFormed(v) && v.Array?
    ensures forall i :: 0 <= i < |v.items| ==> WellFormed(v.items[i])
  {
  }

  method AppendArrayPatches(patches: seq<Json>, path: string, from: Json, to: Json) returns (out: seq<Json>)
    requires WellFormed(from) && WellFormed(to) && from.Array? && to.Array?
    ensures out == patches + DiffItems(path, from.items, to.items, 0)
    decreases from, 0
  {
    hide MakePatch, Escape, Digits, CompareToPatch, WellFormed, DiffItems, RemovePatches, AddPatches;
    assert forall i :: 0 <= i < |from.items| ==> WellFormed(from.items[i]) by { ItemsWellFormed(from); }
    assert forall i :: 0 <= i < |to.items| ==> WellFormed(to.items[i]) by { ItemsWellFormed(to); }
    var xs, ys, c := from.items, to.items, 0;
    ghost var all := DiffItems(path, xs, ys, 0);
    out := patches;
    assert xs[0..] == xs && ys[0..] == ys;
    while c < |xs| && c < |ys|
      invariant 0 <= c <= |xs| && c <= |ys|
      invariant out + DiffItems(path, xs[c..], ys[c..], c) == patches + all
    {
      DiffItemsStep(out, path, xs, ys, c);
      out := AppendPatches(out, path + "/" + Digits(c), xs[c], ys[c]);
      c := c + 1;
    }
    ghost var done := out;
    DiffItemsRest(path, xs, ys, c);
    out := AppendRemovals(out, path, c, |xs|);
    out := AppendAdditions(out, path, if c < |xs| then |xs| else c, ys);
    assert done + [] == done && (c == |ys| ==> ys[c..] == []);
    if c < |xs| {
      assert out == done + RemovePatches(path, c, |xs| - c) + [];
    } else {
      assert out == done + AddPatches(path, ys[c..]);
    }
  }

  /** While both lists last. */
  lemma DiffItemsStep(out: seq<Json>, path: string, xs: seq<Json>, ys: seq<Json>, c: nat)
    requires c < |xs| && c < |ys|
    ensures out + DiffItems(path, xs[c..], ys[c..], c)
      == out + CompareToPatch(path + "/" + Digits(c), xs[c], ys[c]) + DiffItems(path, xs[c + 1..], ys[c + 1..], c + 1)
  {
    hide CompareToPatch;
    assert xs[c..][1..] == xs[c + 1..] && ys[c..][1..] == ys[c + 1..];
  }

  /** When one has ended. */
  lemma DiffItemsRest(path: string, xs: seq<Json>, ys: seq<Json>, c: nat)
    requires c == |xs| <= |ys| || c == |ys| <= |xs|
    ensures DiffItems(path, xs[c..], ys[c..], c) ==
      if c == |xs| then AddPatches(path, ys[c..]) else RemovePatches(path, c, |xs| - c)
    ensures AddPatches(path, []) == []
  {
  }

  /** The loop over what `from` has left. */
  method AppendRemovals(patches: seq<Json>, path: string, start: nat, n: nat) returns (out: seq<Json>)
    ensures out == patches + if start < n then RemovePatches(path, start, n - start) else []
  {
    hide MakePatch, Escape, Digits;
    out := patches;
    var c := start;
    while c < n
      invariant start < n ==>
        c <= n && out + RemovePatches(path, c, n - c) == patches + RemovePatches(path, start, n - start)
      invariant start >= n ==> c == start && out == patches
    {
      out := out + [MakePatch("remove", path + "/" + Escape(Digits(c)), None)];
      c := c + 1;
    }
  }

  /** The loop over what `to` has left; nothing if the counter is past its end. */
  method AppendAdditions(patches: seq<Json>, path: string, start: nat, ys: seq<Json>) returns (out: seq<Json>)
    ensures out == patches + if start < |ys| then AddPatches(path, ys[start..]) else []
  {
    hide MakePatch, Escape;
    out := patches;
    var c := start;
    while c < |ys|
      invariant start < |ys| ==> c <= |ys| && out + AddPatches(path, ys[c..]) == patches + AddPatches(path, ys[start..])
      invariant start >= |ys| ==> c == start && out == patches
    {
      assert ys[c..][1..] == ys[c + 1..];
      out := out + [MakePatch("add", path + "/" + Escape("-"), Some(ys[c]))];
      c := c + 1;
    }
  }

  /** The patches one turn of the object walk appends, and where both lists then stand. */
  lemma WalkStep(out: seq<Json>, path: string, xs: seq<Member>, ys: seq<Member>, i: nat, j: nat, root: Json)
    requires Below(xs, root) && i <= |xs| && j <= |ys| && (i < |xs| || j < |ys|)
    ensures var diff := if i == |xs| then 1 else if j == |ys| then -1 else CaseCmp(xs[i].key, ys[j].key);
      out + DiffMembers(path, xs[i..], ys[j..], root) ==
        if diff == 0 then
          out + CompareToPatch(path + "/" + Escape(xs[i].key), xs[i].value, ys[j].value) +
            DiffMembers(path, xs[i + 1..], ys[j + 1..], root)
        else if diff < 0 then
          out + [MakePatch("remove", path + "/" + Escape(xs[i].key), None)] +
            DiffMembers(path, xs[i + 1..], ys[j..], root)
        else
          out + [MakePatch("add", path + "/" + Escape(ys[j].key), Some(ys[j].value))] +
            DiffMembers(path, xs[i..], ys[j + 1..], root)
  {
    hide CaseCmp, MakePatch, Escape, CompareToPatch, DiffMembers;
    WalkUnfold(path, xs[i..], ys[j..], root);
    assert i < |xs| ==> xs[i..][0] == xs[i] && xs[i..][1..] == xs[i + 1..];
    assert j < |ys| ==> ys[j..][0] == ys[j] && ys[j..][1..] == ys[j + 1..];
  }

  lemma WalkUnfold(path: string, xs: seq<Member>, ys: seq<Member>, root: Json)
    requires Below(xs, root) && (xs != [] || ys != [])
    ensures var diff := if xs == [] then 1 else if ys == [] then -1 else CaseCmp(xs[0].key, ys[0].key);
      DiffMembers(path, xs, ys, root) ==
        if diff == 0 then
          CompareToPatch(path + "/" + Escape(xs[0].key), xs[0].value, ys[0].value) +
            DiffMembers(path, xs[1..], ys[1..], root)
        else if diff < 0 then
          [MakePatch("remove", path + "/" + Escape(xs[0].key), None)] + DiffMembers(path, xs[1..], ys, root)
        else
          [MakePatch("add", path + "/" + Escape(ys[0].key), Some(ys[0].value))] + DiffMembers(path, xs, ys[1..], root)
  {
    hide CaseCmp, MakePatch, Escape, CompareToPatch;
  }

  method AppendObjectPatches(patches: seq<Json>, path: string, from: Json, to: Json) returns (out: seq<Json>)
    requires WellFormed(from) && WellFormed(to) && from.Object? && to.Object?
    ensures out == patches + CompareToPatch(path, from, to)
    decreases from, 0
  {
    hide CaseCmp, MakePatch, Escape, DiffMembers, WellFormed, CompareToPatch, Sorted, DistinctKeys;
    WalkStart(path, from, to);
    var xs, ys, i, j := Sorted(from.members), Sorted(to.members), 0, 0;
    ghost var all := CompareToPatch(path, from, to);
    out := patches;
    assert xs[0..] == xs && ys[0..] == ys;
    while i < |xs| || j < |ys|
      invariant 0 <= i <= |xs| && 0 <= j <= |ys|
      invariant out + DiffMembers(path, xs[i..], ys[j..], from) == patches + all
      decreases |xs| - i + |ys| - j
    {
      WalkStep(out, path, xs, ys, i, j, from);
      var diff := 1;
      if i < |xs| {
        diff := -1;
        if j < |ys| {
          diff := StrCaseCmp(xs[i].key, ys[j].key);
        }
      }
      if diff == 0 {
        out := AppendPatches(out, path + "/" + Escape(xs[i].key), xs[i].value, ys[j].value);
        i, j := i + 1, j + 1;
      } else if diff < 0 {
        out := out + [MakePatch("remove", path + "/" + Escape(xs[i].key), None)];
        i := i + 1;
      } else {
        out := out + [MakePatch("add", path + "/" + Escape(ys[j].key), Some(ys[j].value))];
        j := j + 1;
      }
    }
    assert xs[i..] == [] && ys[j..] == [];
    WalkEnd(path, from);
  }

  lemma WalkStart(path: string, from: Json, to: Json)
    requires WellFormed(from) && WellFormed(to) && from.Object? && to.Object?
    ensures var xs, ys := Sorted(from.members), Sorted(to.members);
      && Below(xs, from) && WellFormedMembers(xs) && WellFormedMembers(ys)
      && CompareToPatch(path, from, to) == DiffMembers(path, xs, ys, from)
  {
    SortedBelow(from);
    SortedObject(from.members);
    SortedObject(to.members);
  }

  lemma WalkEnd(path: string, root: Json)
    ensures DiffMembers(path, [], [], root) == []
  {
  }
}
