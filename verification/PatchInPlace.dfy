/** Documents patched in place: where stale heads come from, and which patches never meet one. */
module PatchInPlace {
  import opened CStrings
  import opened JsonValue
  import opened Decimal
  import opened Pointer
  import opened ChildList
  import opened Compare
  import opened Patch
  import opened PatchMeaning
  import opened Diff
  import opened PatchRoundTrip
  import opened StaleHeads
  import Rfc6902

  // ---- no stale head anywhere

  /** What a parsed or a duplicated document is. */
  predicate Fresh(m: Marks) {
    !m.stale && AllFresh(m.kids)
  }

  predicate AllFresh(ks: seq<Marks>) {
    forall i :: 0 <= i < |ks| ==> Fresh(ks[i])
  }

  lemma KidsFresh(m: Marks, n: nat)
    requires AllFresh(m.kids)
    ensures AllFresh(Kids(m, n)) && Fresh(Kid(m, n))
  {
    assert Fresh(CLEAN);
    forall i | 0 <= i < n
      ensures Fresh(Kids(m, n)[i])
    {
      assert Kids(m, n)[i] == Kid(m, i);
    }
  }

  lemma {:induction false} AtFresh(t: Tree, a: Address)
    requires At(t.doc, a).Some? && Fresh(t.marks)
    ensures Fresh(TreeAt(t, a).marks)
    decreases |a|
  {
    if a != [] {
      KidsFresh(t.marks, a[0]);
      AtFresh(KidTree(t, a[0]), a[1..]);
    }
  }

  /** Replacing one subtree of a fresh document: fresh again exactly if the new subtree is. */
  lemma {:induction false} SetFresh(t: Tree, a: Address, m: Marks)
    requires At(t.doc, a).Some? && Fresh(t.marks)
    ensures Fresh(SetMarks(t, a, m)) <==> Fresh(m)
    decreases |a|
  {
    if a != [] {
      var n := ChildCount(t.doc);
      KidsFresh(t.marks, n);
      KidsFresh(t.marks, a[0]);
      SetFresh(KidTree(t, a[0]), a[1..], m);
      var k := SetMarks(KidTree(t, a[0]), a[1..], m);
      var ks := Kids(t.marks, n)[a[0] := k];
      assert ks[a[0]] == k;
      assert SetMarks(t, a, m) == Marks(false, ks);
      assert AllFresh(ks) <==> Fresh(k);
    }
  }

  lemma TakeFresh(t: Tree, path: string)
    requires Fresh(t.marks)
    ensures !Takes(t, path)
    ensures var d := Take(t, path);
      d.Taken? ==> Fresh(d.rest.marks) && (d.item.Some? ==> Fresh(d.item.value.marks))
  {
    hide IndexIn, Resolve, Split, SetAt, SetMarks, Fresh, AllFresh;
    TakeIs(t, path);
    var p := Parent(t, path);
    if p.Some? {
      var (c, child) := p.value;
      var a := Resolve(t.doc, Split(path[..LastSlash(path).value])).value;
      ResolveAt(t.doc, Split(path[..LastSlash(path).value]));
      AtFresh(t, a);
      var d := TakeFrom(c, child);
      TakeFromFresh(c, child);
      if d.Taken? {
        SetFresh(t, a, d.rest.marks);
      }
    }
  }

  lemma TakeFromFresh(c: Tree, child: string)
    requires Fresh(c.marks)
    ensures !OnStaleHead(c, child)
    ensures var d := TakeFrom(c, child);
      d.Taken? ==> Fresh(d.rest.marks) && (d.item.Some? ==> Fresh(d.item.value.marks))
  {
    var i := IndexIn(c.doc, child);
    if i.Some? && i.value < ChildCount(c.doc) {
      KidsFresh(c.marks, ChildCount(c.doc));
      KidsFresh(c.marks, i.value);
    }
  }

  lemma PutInFresh(c: Tree, child: string, x: Tree)
    requires Fresh(c.marks) && Fresh(x.marks)
    ensures !OnStaleHead(c, child)
    ensures var r := PutIn(c, child, x);
      r.Tracked? ==> Fresh(r.tree.marks)
  {
    hide Atoi, FindKey;
    KidsFresh(c.marks, ChildCount(c.doc));
    match c.doc
    case Object(ms) =>
      var i := FindKey(ms, child);
      if i < |ms| {
        var rest := Unlinked(c, i).value;
        KidsFresh(rest.marks, |ms| - 1);
      }
    case _ =>
  }

  lemma PutFresh(t: Tree, path: string, x: Tree)
    requires Fresh(t.marks) && Fresh(x.marks)
    ensures !Displaces(t, path)
    ensures Put(t, path, x).Tracked? ==> Fresh(Put(t, path, x).tree.marks)
  {
    hide PutIn, OnStaleHead, Resolve, Split, SetAt, SetMarks, Fresh, AllFresh;
    var k := LastSlash(path);
    var p := Parent(t, path);
    if k.None? {
      RootFresh(t, x);
    } else if p.Some? {
      var (c, child) := p.value;
      var a := Resolve(t.doc, Split(path[..k.value])).value;
      ResolveAt(t.doc, Split(path[..k.value]));
      AtFresh(t, a);
      PutInFresh(c, child, x);
      var r := PutIn(c, child, x);
      if r.Tracked? {
        SetFresh(t, a, r.tree.marks);
      }
    }
  }

  lemma RootFresh(t: Tree, x: Tree)
    requires Fresh(t.marks) && Fresh(x.marks)
    ensures t.doc.Object? ==> Fresh(Appended(t, "", x).marks)
  {
    KidsFresh(t.marks, ChildCount(t.doc));
  }

  // ---- a comparison makes a head stale exactly if it moves one

  /** The comparison meets an object whose first member it moves. */
  predicate Reorders(a: Json, b: Json)
    decreases a, 1, 0
  {
    if a.Array? && b.Array? then ReordersItems(a.items, b.items)
    else if a.Object? && b.Object? then
      SortedBelow(a);
      HeadMoves(a.members) || ReordersMembers(Sorted(a.members), Sorted(b.members), a)
    else false
  }

  predicate ReordersItems(xs: seq<Json>, ys: seq<Json>)
    decreases xs, 0, 0
  {
    xs != [] && ys != [] &&
    (Reorders(xs[0], ys[0]) || (CompareCode(xs[0], ys[0]) == 0 && ReordersItems(xs[1..], ys[1..])))
  }

  predicate ReordersMembers(xs: seq<Member>, ys: seq<Member>, ghost root: Json)
    requires Below(xs, root)
    decreases root, 0, |xs|
  {
    xs != [] && ys != [] && CaseCmp(xs[0].key, ys[0].key) == 0 &&
    (Reorders(xs[0].value, ys[0].value) ||
     (CompareCode(xs[0].value, ys[0].value) == 0 && ReordersMembers(xs[1..], ys[1..], root)))
  }

  lemma {:induction false} TouchFresh(t: Tree, b: Json)
    requires Fresh(t.marks)
    ensures Fresh(TouchMarks(t, b)) <==> !Reorders(t.doc, b)
    decreases t.doc, 1, 0
  {
    if t.doc.Array? && b.Array? {
      KidsFresh(t.marks, |t.doc.items|);
      TouchItemsFresh(t.doc.items, Kids(t.marks, |t.doc.items|), b.items);
    } else if t.doc.Object? && b.Object? {
      var ms, s := t.doc.members, Sorted(t.doc.members);
      var ks := seq(|s|, i requires 0 <= i < |s| => Kid(t.marks, FindKey(ms, s[i].key)));
      forall i | 0 <= i < |s|
        ensures Fresh(ks[i])
      {
        KidsFresh(t.marks, FindKey(ms, s[i].key));
      }
      SortedBelow(t.doc);
      TouchMembersFresh(s, ks, Sorted(b.members), t.doc);
    }
  }

  lemma ConsFresh(k: Marks, ks: seq<Marks>)
    ensures AllFresh([k] + ks) <==> Fresh(k) && AllFresh(ks)
  {
    var all := [k] + ks;
    assert all[0] == k && all[1..] == ks;
    assert forall i :: 0 <= i < |ks| ==> ks[i] == all[i + 1];
  }

  lemma {:induction false} TouchItemsFresh(xs: seq<Json>, ks: seq<Marks>, ys: seq<Json>)
    requires |ks| == |xs| && AllFresh(ks)
    ensures AllFresh(TouchItems(xs, ks, ys)) <==> !ReordersItems(xs, ys)
    decreases xs, 0, 0
  {
    hide Fresh, AllFresh, CompareCode, TouchMarks, Reorders;
    if xs != [] && ys != [] {
      assert ks == [ks[0]] + ks[1..];
      ConsFresh(ks[0], ks[1..]);
      TouchFresh(Tree(xs[0], ks[0]), ys[0]);
      TouchItemsFresh(xs[1..], ks[1..], ys[1..]);
      ConsFresh(TouchMarks(Tree(xs[0], ks[0]), ys[0]),
                if CompareCode(xs[0], ys[0]) != 0 then ks[1..] else TouchItems(xs[1..], ks[1..], ys[1..]));
    }
  }

  lemma {:induction false} TouchMembersFresh(xs: seq<Member>, ks: seq<Marks>, ys: seq<Member>, root: Json)
    requires |ks| == |xs| && Below(xs, root) && AllFresh(ks)
    ensures AllFresh(TouchMembers(xs, ks, ys, root)) <==> !ReordersMembers(xs, ys, root)
    decreases root, 0, |xs|
  {
    hide Fresh, AllFresh, CompareCode, CaseCmp, TouchMarks, Reorders;
    if xs != [] && ys != [] && CaseCmp(xs[0].key, ys[0].key) == 0 {
      assert ks == [ks[0]] + ks[1..];
      ConsFresh(ks[0], ks[1..]);
      TouchFresh(Tree(xs[0].value, ks[0]), ys[0].value);
      TouchMembersFresh(xs[1..], ks[1..], ys[1..], root);
      ConsFresh(TouchMarks(Tree(xs[0].value, ks[0]), ys[0].value),
                if CompareCode(xs[0].value, ys[0].value) != 0 then ks[1..]
                else TouchMembers(xs[1..], ks[1..], ys[1..], root));
    }
  }

  /** The patch is a `test` whose comparison moves the first member of some object. */
  predicate Sorts(doc: Json, patch: Json) {
    match (Field(patch, "op"), Field(patch, "path"), Field(patch, "value"))
    case (Some(String(op)), Some(String(path)), Some(v)) =>
      op == "test" &&
      (match Resolve(doc, Split(path))
       case Some(a) => ResolveAt(doc, Split(path)); Reorders(At(doc, a).value, v)
       case None => false)
    case _ => false
  }

  /** On a fresh tree no patch trips, and the tree stays fresh exactly if the patch is no sorting `test`. */
  lemma TrackFresh(t: Tree, patch: Json)
    requires Fresh(t.marks)
    ensures !Trips(t, patch)
    ensures var r := Track(t, patch);
      r.Tracked? ==> (Fresh(r.tree.marks) <==> !Sorts(t.doc, patch))
  {
    hide TrackOp, Field, Fresh, Sorts, Take, Takes, Displaces, MoveTrips, CopyTrips;
    var o, p := Field(patch, "op"), Field(patch, "path");
    OnlyTestSorts(t.doc, patch);
    if o.Some? && o.value.String? && p.Some? && p.value.String? {
      var op, path := o.value.s, p.value.s;
      TakeFresh(t, path);
      if op == "add" || op == "remove" || op == "replace" {
        EditFresh(t, op, path, patch);
      } else if op == "move" {
        MoveFresh(t, path, patch);
      } else if op == "copy" {
        CopyFresh(t, path, patch);
      } else if op == "test" {
        TestFresh(t, path, patch);
      }
      TrackOpIs(t, op, path, patch);
    }
  }

  lemma OnlyTestSorts(doc: Json, patch: Json)
    ensures Sorts(doc, patch) ==>
      Field(patch, "op") == Some(String("test")) && Field(patch, "path").Some? && Field(patch, "path").value.String?
  {
  }

  lemma TrackOpIs(t: Tree, op: string, path: string, patch: Json)
    ensures op == "move" ==> TrackOp(t, op, path, patch) == TrackMove(t, path, patch)
    ensures op == "copy" ==> TrackOp(t, op, path, patch) == TrackCopy(t, path, patch)
    ensures op == "test" ==> TrackOp(t, op, path, patch) == TrackTest(t, path, patch)
    ensures op !in ["add", "remove", "replace", "move", "copy", "test"] ==>
      TrackOp(t, op, path, patch) == Tracked(3, t)
  {
  }

  lemma EditFresh(t: Tree, op: string, path: string, patch: Json)
    requires Fresh(t.marks) && op in ["add", "remove", "replace"]
    ensures !Displaces(t, path)
    ensures TrackOp(t, op, path, patch).Tracked? ==> Fresh(TrackOp(t, op, path, patch).tree.marks)
  {
    hide Take, Takes, Displaces, Put, Field, Fresh;
    CleanFresh();
    var v, d := Field(patch, "value"), Take(t, path);
    TakeFresh(t, path);
    PutFresh(t, path, Tree(if v.Some? then v.value else Null, CLEAN));
    if d.Taken? && v.Some? {
      PutFresh(d.rest, path, Tree(v.value, CLEAN));
    }
  }

  lemma CleanFresh()
    ensures Fresh(CLEAN)
  {
  }

  lemma MoveFresh(t: Tree, path: string, patch: Json)
    requires Fresh(t.marks)
    ensures !MoveTrips(t, path, patch)
    ensures TrackMove(t, path, patch).Tracked? ==> Fresh(TrackMove(t, path, patch).tree.marks)
  {
    hide Take, Takes, Displaces, Put, Field, Fresh;
    var from := Field(patch, "from");
    if from.Some? && from.value.String? {
      TakeFresh(t, from.value.s);
      var d := Take(t, from.value.s);
      if d.Taken? && d.item.Some? {
        PutFresh(d.rest, path, d.item.value);
      }
    }
  }

  lemma CopyFresh(t: Tree, path: string, patch: Json)
    requires Fresh(t.marks)
    ensures !CopyTrips(t, path, patch)
    ensures TrackCopy(t, path, patch).Tracked? ==> Fresh(TrackCopy(t, path, patch).tree.marks)
  {
    hide Displaces, Put, Field, Fresh, Resolve, Split;
    CleanFresh();
    var from := Field(patch, "from");
    if from.Some? && from.value.String? {
      var a := Resolve(t.doc, Split(from.value.s));
      if a.Some? {
        ResolveAt(t.doc, Split(from.value.s));
        PutFresh(t, path, Tree(At(t.doc, a.value).value, CLEAN));
      }
    }
  }

  lemma TestFresh(t: Tree, path: string, patch: Json)
    requires Fresh(t.marks)
    requires Field(patch, "op") == Some(String("test")) && Field(patch, "path") == Some(String(path))
    ensures TrackTest(t, path, patch).Tracked? &&
      (Fresh(TrackTest(t, path, patch).tree.marks) <==> !Sorts(t.doc, patch))
  {
    hide Field, Resolve, Split, Reorders, TouchMarks, Touched, CompareCode, Fresh, SetAt, SetMarks;
    var r, v := Resolve(t.doc, Split(path)), Field(patch, "value");
    if r.Some? && v.Some? {
      ResolveAt(t.doc, Split(path));
      AtFresh(t, r.value);
      TouchFresh(TreeAt(t, r.value), v.value);
      SetFresh(t, r.value, TouchMarks(TreeAt(t, r.value), v.value));
    }
  }

  // ---- whole runs

  /** Some `test` of the run sorts. */
  predicate SortsSome(doc: Json, patches: seq<Json>)
    decreases |patches|
  {
    patches != [] &&
    (Sorts(doc, patches[0]) ||
     (var r := ApplyPatch(doc, patches[0]);
      r.Applied? && r.err == 0 && SortsSome(r.doc, patches[1..])))
  }

  /** A fresh document goes astray only if an earlier `test` moved the first member of an object. */
  lemma {:induction false} StumblesAfterSort(t: Tree, patches: seq<Json>)
    requires Fresh(t.marks) && !SortsSome(t.doc, patches)
    ensures !Stumbles(t, patches)
    decreases |patches|
  {
    hide Track, Trips, Sorts, ApplyPatch, Fresh;
    if patches != [] {
      TrackFresh(t, patches[0]);
      TrackExactly(t, patches[0]);
      var r := Track(t, patches[0]);
      if r.Tracked? && r.err == 0 {
        StumblesAfterSort(r.tree, patches[1..]);
      }
    }
  }

  // ---- generated patches

  predicate NoTest(patches: seq<Json>) {
    forall i :: 0 <= i < |patches| ==> Field(patches[i], "op") != Some(String("test"))
  }

  lemma {:induction false} NoTestNoSort(doc: Json, patches: seq<Json>)
    requires NoTest(patches)
    ensures !SortsSome(doc, patches)
    decreases |patches|
  {
    hide ApplyPatch, Field;
    if patches != [] {
      var r := ApplyPatch(doc, patches[0]);
      if r.Applied? {
        NoTestNoSort(r.doc, patches[1..]);
      }
    }
  }

  lemma MadeNoTest(op: string, path: string, value: Option<Json>)
    requires op != "test"
    ensures NoTest([MakePatch(op, path, value)])
  {
    ItemsOfPatch(op, path, value);
  }

  lemma {:induction false} RemoveNoTest(path: string, c: nat, n: nat)
    ensures NoTest(RemovePatches(path, c, n))
    decreases n
  {
    if n > 0 {
      MadeNoTest("remove", path + "/" + Escape(Digits(c)), None);
      RemoveNoTest(path, c + 1, n - 1);
    }
  }

  lemma {:induction false} AddNoTest(path: string, ys: seq<Json>)
    ensures NoTest(AddPatches(path, ys))
  {
    if ys != [] {
      MadeNoTest("add", path + "/" + Escape("-"), Some(ys[0]));
      AddNoTest(path, ys[1..]);
    }
  }

  lemma {:induction false} DiffNoTest(path: string, from: Json, to: Json)
    ensures NoTest(CompareToPatch(path, from, to))
    decreases from, 1, 0
  {
    hide NoTest;
    NoTestNil();
    MadeNoTest("replace", path, Some(to));
    if SameType(from, to) {
      match from
      case Array(items) => ItemsNoTest(path, items, to.items, 0);
      case Object(ms) =>
        SortedBelow(from);
        MembersNoTest(path, Sorted(ms), Sorted(to.members), from);
      case _ =>
    }
  }

  lemma NoTestNil()
    ensures NoTest([])
  {
  }

  lemma NoTestAppend(a: seq<Json>, b: seq<Json>)
    requires NoTest(a) && NoTest(b)
    ensures NoTest(a + b)
  {
  }

  lemma {:induction false} ItemsNoTest(path: string, xs: seq<Json>, ys: seq<Json>, c: nat)
    ensures NoTest(DiffItems(path, xs, ys, c))
    decreases xs, 0, 0
  {
    hide NoTest;
    if xs == [] {
      AddNoTest(path, ys);
    } else if ys == [] {
      RemoveNoTest(path, c, |xs|);
    } else {
      DiffNoTest(path + "/" + Digits(c), xs[0], ys[0]);
      ItemsNoTest(path, xs[1..], ys[1..], c + 1);
      NoTestAppend(CompareToPatch(path + "/" + Digits(c), xs[0], ys[0]), DiffItems(path, xs[1..], ys[1..], c + 1));
    }
  }

  lemma {:induction false} MembersNoTest(path: string, xs: seq<Member>, ys: seq<Member>, root: Json)
    requires Below(xs, root)
    ensures NoTest(DiffMembers(path, xs, ys, root))
    decreases root, 0, |xs| + |ys|
  {
    hide NoTest, CaseCmp;
    if xs == [] && ys == [] {
      NoTestNil();
    } else {
      var diff := if xs == [] then 1 else if ys == [] then -1 else CaseCmp(xs[0].key, ys[0].key);
      if diff == 0 {
        DiffNoTest(path + "/" + Escape(xs[0].key), xs[0].value, ys[0].value);
        MembersNoTest(path, xs[1..], ys[1..], root);
        NoTestAppend(CompareToPatch(path + "/" + Escape(xs[0].key), xs[0].value, ys[0].value),
                     DiffMembers(path, xs[1..], ys[1..], root));
      } else if diff < 0 {
        var p := MakePatch("remove", path + "/" + Escape(xs[0].key), None);
        MadeNoTest("remove", path + "/" + Escape(xs[0].key), None);
        MembersNoTest(path, xs[1..], ys, root);
        NoTestAppend([p], DiffMembers(path, xs[1..], ys, root));
      } else {
        var p := MakePatch("add", path + "/" + Escape(ys[0].key), Some(ys[0].value));
        MadeNoTest("add", path + "/" + Escape(ys[0].key), Some(ys[0].value));
        MembersNoTest(path, xs, ys[1..], root);
        NoTestAppend([p], DiffMembers(path, xs, ys[1..], root));
      }
    }
  }

  /** The root is replaced, or nothing is to do: the same for every document of that meaning. */
  lemma RootPatches(from: Json, doc: Json, to: Json)
    requires Norm(doc) == Norm(from)
    ensures SameContainer(doc, to) <==> SameContainer(from, to)
    ensures !SameContainer(from, to) ==> GeneratePatches(doc, to) == GeneratePatches(from, to)
  {
    if !SameContainer(from, to) {
      ScalarDiff(from, to);
      ScalarDiff(doc, to);
    }
  }

  /** The patches from `from` to `to`, applied on values to a document that means what `from` means. */
  lemma RoundTripOnMeaning(from: Json, doc: Json, to: Json)
    requires Ready(from) && WellFormed(to) && WellFormed(doc) && Norm(doc) == Norm(from)
    ensures var r := ApplyAll(doc, GeneratePatches(from, to).items);
      (r.Applied? && r.err == 0 && Norm(r.doc) == Norm(to)) <==> CanPatch(from, to)
  {
    hide ApplyAll, Norm, Ready, CompareToPatch, WellFormed, Sets, Outcome, SemApplyAll, DoublesSome, AllPatches;
    hide AllPlaced, Shrinks;
    RootPatches(from, doc, to);
    PatchRoundTrip.PatchRoundTrip(from, to);
    if SameContainer(from, to) {
      var ps := CompareToPatch("", from, to);
      ReadyMeans(from);
      RootEffect(from, to);
      RootSets(ps, Norm(from), Outcome(from, to));
      PlacedNeverDoubles(Norm(from), ps);
      ApplyAllMeaning(from, ps);
      ApplyAllMeaning(doc, ps);
    } else {
      RootReplace(doc, to);
    }
  }

  /**
   * The round trip in place, on any tree that means what `from` means: a duplicate, or `from` itself as the generator
   * leaves it, sorted and with stale heads. It holds exactly if CanPatch does and no patch detaches a stale head; on a
   * fresh tree none does, for generated patches hold no `test`.
   */
  lemma RoundTripInPlace(from: Json, t: Tree, to: Json)
    requires Ready(from) && WellFormed(to) && WellFormed(t.doc) && Norm(t.doc) == Norm(from)
    ensures var ps := GeneratePatches(from, to).items;
      var r := Run(t, ps);
      && ((r.Tracked? && r.err == 0 && Norm(r.tree.doc) == Norm(to)) <==> CanPatch(from, to) && !Stumbles(t, ps))
      && (Fresh(t.marks) ==> !Stumbles(t, ps))
  {
    hide ApplyAll, Run, Norm, CanPatch, Fresh, Ready, CompareToPatch, WellFormed, Stumbles, SortsSome;
    var ps := GeneratePatches(from, to).items;
    RunAstray(t, ps);
    if !Stumbles(t, ps) {
      RunIsApplyAll(t, ps);
      RoundTripOnMeaning(from, t.doc, to);
    }
    if Fresh(t.marks) {
      DiffNoTest("", from, to);
      NoTestNoSort(t.doc, ps);
      StumblesAfterSort(t, ps);
    }
  }

  // ---- the order of members decides

  function Two(k: string, n: int, l: string, m: int): (v: Json) {
    Object([Member(k, Number(n)), Member(l, Number(m))])
  }

  function Under(v: Json): (doc: Json) {
    Object([Member("x", v)])
  }

  /** Compare the member `x` with {"a": m, "b": n}, then remove `a` from it. */
  function TestThenRemove(n: int, m: int): (ps: seq<Json>) {
    [MakePatch("test", "/x", Some(Two("a", m, "b", n))), MakePatch("remove", "/x/a", None)]
  }

  lemma ReadX()
    ensures Split("/x") == ["x"] && Unescape("x") == Some("x")
    ensures LastSlash("/x/a") == Some(2) && "/x/a"[..2] == "/x" && "/x/a"[3..] == "a" && Decode("a") == Some("a")
  {
    assert Render(["x"]) == "/x" by { assert ["x"][1..] == []; assert "/" + "x" + "" == "/x"; }
    SplitRender(["x"]);
    assert "/x/a" == "/x" + "/" + "a";
    LastSlashOf("/x", "a");
    assert "x"[1..] == "" && "a"[1..] == "" && ['x'] + "" == "x" && ['a'] + "" == "a";
    assert Unescape("") == Some("") && Decode("") == Some("");
  }

  lemma AtX(v: Json, m: Marks)
    ensures var t := Tree(Under(v), m);
      Resolve(t.doc, Split("/x")) == Some([0]) && At(t.doc, [0]) == Some(v) && TreeAt(t, [0]) == Tree(v, Kid(m, 0))
  {
    ReadX();
    var t := Tree(Under(v), m);
    assert FindKey(t.doc.members, "x") == 0;
    assert Select(t.doc, "x") == 0 && ["x"][1..] == [] && [0][1..] == [];
    assert Child(t.doc, 0) == v && [0] + [] == [0];
    ResolveNothing(v);
    assert Resolve(t.doc, ["x"]) == Some([0]);
    assert At(v, []) == Some(v) && TreeAt(KidTree(t, 0), []) == KidTree(t, 0);
  }

  lemma SetX(v: Json, m: Marks, x: Tree)
    ensures At(Under(v), [0]).Some?
    ensures SetTree(Tree(Under(v), m), [0], x) == Tree(Under(x.doc), Marks(m.stale, [x.marks]))
  {
    AtX(v, m);
    var t := Tree(Under(v), m);
    assert [0][1..] == [];
    assert SetMarks(KidTree(t, 0), [], x.marks) == x.marks;
    assert Kids(m, 1)[0 := x.marks] == [x.marks];
    assert t.doc.members[0 := Member("x", x.doc)] == [Member("x", x.doc)];
    assert SetAt(v, [], x.doc) == x.doc;
  }

  lemma KeysAB()
    ensures Fold("a") == "a" && Fold("b") == "b" && CaseCmp("b", "a") > 0 && CaseCmp("a", "b") < 0
    ensures CaseCmp("a", "a") == 0 && CaseCmp("b", "b") == 0
  {
    LowerFold("a");
    LowerFold("b");
    StrCmpZero("a", "a");
    StrCmpZero("b", "b");
  }

  lemma SortedAB(n: int, m: int)
    ensures Sorted(Two("b", n, "a", m).members) == Two("a", m, "b", n).members
    ensures Sorted(Two("a", m, "b", n).members) == Two("a", m, "b", n).members
    ensures HeadMoves(Two("b", n, "a", m).members) && !HeadMoves(Two("a", m, "b", n).members)
  {
    hide CaseCmp, Sorted;
    KeysAB();
    SortedPair(Member("b", Number(n)), Member("a", Number(m)));
    SortedUnfold(Two("a", m, "b", n).members);
  }

  lemma CompareUnfold(x: Json, w: Json)
    requires x.Object? && w.Object?
    ensures Below(Sorted(x.members), x)
    ensures CompareCode(x, w) == CompareMembers(Sorted(x.members), Sorted(w.members), x)
    ensures Touched(x, w).0 == Object(TouchedMembers(Sorted(x.members), Sorted(w.members), x).0)
    ensures TouchMarks(Tree(x, CLEAN), w).stale == HeadMoves(x.members)
  {
    SortedBelow(x);
  }

  /** Two numbers under the same names compare equal and stay as they are. */
  lemma SameTwo(ms: seq<Member>, root: Json)
    requires Below(ms, root) && |ms| == 2 && ms[0].value.Number? && ms[1].value.Number?
    requires CaseCmp(ms[0].key, ms[0].key) == 0 && CaseCmp(ms[1].key, ms[1].key) == 0
    ensures CompareMembers(ms, ms, root) == 0 && TouchedMembers(ms, ms, root).0 == ms
  {
    hide CaseCmp;
    assert ms[1..][0] == ms[1] && ms[1..][1..] == [];
    assert CompareMembers([], [], root) == 0 && TouchedMembers([], [], root).0 == [];
    assert CompareCode(ms[0].value, ms[0].value) == 0 && CompareCode(ms[1].value, ms[1].value) == 0;
    assert Touched(ms[0].value, ms[0].value).0 == ms[0].value && Touched(ms[1].value, ms[1].value).0 == ms[1].value;
    assert CompareMembers(ms[1..], ms[1..], root) == 0;
    assert TouchedMembers(ms[1..], ms[1..], root).0 == [ms[1]] + [];
    assert ms == [ms[0]] + ([ms[1]] + []);
  }

  lemma TrackMade(t: Tree, op: string, path: string, value: Option<Json>)
    ensures Track(t, MakePatch(op, path, value)) == TrackOp(t, op, path, MakePatch(op, path, value))
    ensures op == "remove" ==> (Trips(t, MakePatch(op, path, value)) <==> Takes(t, path))
  {
    hide TrackOp, Takes, Field;
    ItemsOfPatch(op, path, value);
  }

  /** The `test` passes and leaves `x` sorted, with a stale head exactly if its first member moved. */
  lemma TestX(x: Json, n: int, m: int)
    requires x == Two("b", n, "a", m) || x == Two("a", m, "b", n)
    ensures var r := Track(Tree(Under(x), CLEAN), TestThenRemove(n, m)[0]);
      r.Tracked? && r.err == 0 && r.tree.doc == Under(Two("a", m, "b", n)) &&
      Kid(r.tree.marks, 0).stale == HeadMoves(x.members)
  {
    hide CaseCmp, Sorted, CompareCode, Touched, TouchMarks, TouchedMembers, CompareMembers, Field, Resolve, Split;
    hide Track;
    var w, t := Two("a", m, "b", n), Tree(Under(x), CLEAN);
    var p := MakePatch("test", "/x", Some(w));
    ItemsOfPatch("test", "/x", Some(w));
    TrackMade(t, "test", "/x", Some(w));
    AtX(x, CLEAN);
    TouchTwo(x, n, m);
    SetX(x, CLEAN, Tree(Touched(x, w).0, TouchMarks(Tree(x, CLEAN), w)));
    assert TrackTest(t, "/x", p) ==
      Tracked(0, SetTree(t, [0], Tree(Touched(x, w).0, TouchMarks(Tree(x, CLEAN), w))));
  }

  lemma TouchTwo(x: Json, n: int, m: int)
    requires x == Two("b", n, "a", m) || x == Two("a", m, "b", n)
    ensures var w := Two("a", m, "b", n);
      CompareCode(x, w) == 0 && Touched(x, w).0 == w && TouchMarks(Tree(x, CLEAN), w).stale == HeadMoves(x.members)
  {
    hide CaseCmp, Sorted, CompareCode, Touched, TouchMarks, TouchedMembers, CompareMembers;
    var w := Two("a", m, "b", n);
    SortedAB(n, m);
    KeysAB();
    CompareUnfold(x, w);
    SameTwo(w.members, x);
  }

  lemma FirstIsA(n: int, m: int)
    ensures IndexIn(Two("a", m, "b", n), "a") == Some(0)
    ensures DropChild(Two("a", m, "b", n), 0) == Object([Member("b", Number(n))])
  {
  }

  lemma RemoveA(t: Tree, n: int, m: int)
    requires t.doc == Under(Two("a", m, "b", n))
    ensures Trips(t, TestThenRemove(n, m)[1]) <==> Kid(t.marks, 0).stale
    ensures !Kid(t.marks, 0).stale ==>
      var r := Track(t, TestThenRemove(n, m)[1]);
      r.Tracked? && r.err == 0 && r.tree.doc == Under(Object([Member("b", Number(n))]))
  {
    hide Field, Resolve, Split, IndexIn, DropChild, Track, Trips, SetAt, SetMarks;
    var v, k := Two("a", m, "b", n), Kid(t.marks, 0);
    ReadX();
    AtX(v, t.marks);
    FirstIsA(n, m);
    TrackMade(t, "remove", "/x/a", None);
    if !k.stale {
      SetX(v, t.marks, Unlinked(Tree(v, k), 0).value);
    }
  }

  lemma SameMeaning(n: int, m: int)
    ensures Norm(Under(Two("b", n, "a", m))) == Norm(Under(Two("a", m, "b", n)))
  {
    hide Sorted, CaseCmp, NormMembers, SetAt;
    var v, w := Two("b", n, "a", m), Two("a", m, "b", n);
    KeysAB();
    SortedAB(n, m);
    assert WellFormedMembers(v.members);
    SortedObject(v.members);
    assert WellFormed(Under(v)) by { assert WellFormed(v) && WellFormedMembers([Member("x", v)]); }
    ReadX();
    AtX(v, CLEAN);
    SetMeaning(Under(v), ["x"], w);
    SetAtSame(Norm(Under(v)), ["x"]);
    ResolveMeaning(Under(v), ["x"]);
    SetX(v, CLEAN, Tree(w, CLEAN));
  }

  lemma RunTwo(t: Tree, p: Json, q: Json)
    ensures var r := Track(t, p);
      r.Tracked? && r.err == 0 ==>
        Run(t, [p, q]) == match Track(r.tree, q) { case Tracked(0, t') => Tracked(0, t') case other => other }
  {
    hide Track;
    assert [p, q][1..] == [q] && [q][1..] == [];
    var r := Track(t, p);
    if r.Tracked? && r.err == 0 {
      assert Run(t, [p, q]) == Run(r.tree, [q]);
      var r' := Track(r.tree, q);
      if r'.Tracked? {
        assert Run(r'.tree, []) == Tracked(0, r'.tree);
      }
    }
  }

  /**
   * The same meaning, the same patches: with `b` first the second patch writes through a stale link, with `a` first
   * both apply.
   */
  lemma OrderMatters(n: int, m: int)
    ensures Norm(Under(Two("b", n, "a", m))) == Norm(Under(Two("a", m, "b", n)))
    ensures Run(Tree(Under(Two("b", n, "a", m)), CLEAN), TestThenRemove(n, m)).Astray?
    ensures var r := Run(Tree(Under(Two("a", m, "b", n)), CLEAN), TestThenRemove(n, m));
      r.Tracked? && r.err == 0 && r.tree.doc == Under(Object([Member("b", Number(n))]))
  {
    hide Track, Trips, Run, HeadMoves, Norm, MakePatch;
    SameMeaning(n, m);
    SortedAB(n, m);
    var ps := TestThenRemove(n, m);
    var v, w := Two("b", n, "a", m), Two("a", m, "b", n);
    TestX(v, n, m);
    TestX(w, n, m);
    var tv, tw := Track(Tree(Under(v), CLEAN), ps[0]).tree, Track(Tree(Under(w), CLEAN), ps[0]).tree;
    RemoveA(tv, n, m);
    RemoveA(tw, n, m);
    TrackExactly(tv, ps[1]);
    RunTwo(Tree(Under(v), CLEAN), ps[0], ps[1]);
    RunTwo(Tree(Under(w), CLEAN), ps[0], ps[1]);
  }

  lemma RemoveFirst(n: int, m: int)
    ensures GeneratePatches(Two("b", n, "a", m), Object([Member("b", Number(n))])) ==
      Array([MakePatch("remove", "/a", None)])
  {
    hide MakePatch, Sorted, CaseCmp, DiffMembers, Escape;
    var from, ys := Two("b", n, "a", m), [Member("b", Number(n))];
    SortedAB(n, m);
    SortedUnfold(ys);
    SortedBelow(from);
    RemoveFirstWalk(n, m, from);
  }

  lemma RemoveFirstWalk(n: int, m: int, root: Json)
    requires Below(Two("a", m, "b", n).members, root)
    ensures DiffMembers("", Two("a", m, "b", n).members, [Member("b", Number(n))], root) ==
      [MakePatch("remove", "/a", None)]
  {
    hide MakePatch, CaseCmp, Escape, CompareToPatch, DiffMembers;
    var xs, ys := Two("a", m, "b", n).members, [Member("b", Number(n))];
    assert xs[1..] == ys && ys[1..] == [];
    KeysAB();
    NothingLeft(root);
    SameNumber("" + "/" + Escape("b"), n);
    WalkUnfold("", ys, ys, root);
    WalkUnfold("", xs, ys, root);
    EscapeA();
    assert "" + "/" + "a" == "/a";
  }

  lemma NothingLeft(root: Json)
    ensures DiffMembers("", [], [], root) == []
  {
  }

  lemma EscapeA()
    ensures Escape("a") == "a"
  {
    assert "a"[1..] == "" && ['a'] + "" == "a" && Escape("") == "";
  }

  lemma SameNumber(path: string, n: int)
    ensures CompareToPatch(path, Number(n), Number(n)) == []
  {
  }

  /**
   * Generating sorts {"b": n, "a": m} and leaves its new head stale; applied there, the patch to {"b": n} goes
   * astray.
   */
  lemma AppliedToItself(n: int, m: int)
    ensures var from, to := Two("b", n, "a", m), Object([Member("b", Number(n))]);
      && HeadMoves(from.members) && Sorted(from.members) == Two("a", m, "b", n).members
      && Run(Tree(Two("a", m, "b", n), Marks(true, [])), GeneratePatches(from, to).items).Astray?
  {
    hide MakePatch, Sorted, GeneratePatches, Track, Trips, Takes, HeadMoves;
    var t, p := Tree(Two("a", m, "b", n), Marks(true, [])), MakePatch("remove", "/a", None);
    SortedAB(n, m);
    RemoveFirst(n, m);
    TakesFirst(n, m);
    TrackMade(t, "remove", "/a", None);
    TrackExactly(t, p);
    assert Run(t, [p]).Astray?;
  }

  lemma TakesFirst(n: int, m: int)
    ensures Takes(Tree(Two("a", m, "b", n), Marks(true, [])), "/a")
  {
    hide LastSlash, Decode, IndexIn, Split, Resolve;
    assert "/a" == "" + "/" + "a";
    LastSlashOf("", "a");
    ReadX();
    SplitEmpty();
    ResolveNothing(Two("a", m, "b", n));
    FirstIsA(n, m);
    assert "/a"[..0] == "" && "/a"[1..] == "a";
  }

  lemma EmptyName(n: int)
    ensures var doc := Object([Member("", Number(n))]);
      WellFormed(doc) && "" in NormMembers(doc.members) && Norm(doc) == SObject(NormMembers(doc.members))
  {
    var ms := [Member("", Number(n))];
    assert WellFormed(ms[0].value);
    assert NormMembers(ms) == NormMembers(ms[1..])[Fold("") := SNumber(n)] && Fold("") == "";
  }

  /** A second member with an empty name: the input on which adding leaves the well-formed documents. */
  lemma SecondEmptyName(n: int, v: Json)
    requires WellFormed(v)
    ensures var doc, p := Object([Member("", Number(n))]), MakePatch("add", "", Some(v));
      && WellFormed(doc) && IsPatch(p) && Doubles(Norm(doc), p)
      && ApplyPatch(doc, p) == Applied(0, Object([Member("", Number(n)), Member("", v)]))
  {
    hide Field, MakePatch, WellFormed, Norm, NormMembers;
    var doc := Object([Member("", Number(n))]);
    ItemsOfPatch("add", "", Some(v));
    PatchWellFormed("add", "", Some(v));
    EmptyName(n);
    assert LastSlash("") == None;
    assert doc.members + [Member("", v)] == [Member("", Number(n)), Member("", v)];
  }

  // ---- the standard, in place

  /** No write went through a stale link, and the outcome is the standard's. */
  ghost predicate AgreesInPlace(r: Tracked, o: Option<Sem>) {
    !r.Astray? && Rfc6902.Agrees(TrackedValue(r), o)
  }

  /** One call in place agrees with section 4 of RFC 6902 exactly if the patch conforms and detaches no stale head. */
  lemma ConformsInPlace(t: Tree, patch: Json)
    requires WellFormed(t.doc) && Rfc6902.SemSized(Norm(t.doc)) && IsPatch(patch)
    ensures AgreesInPlace(Track(t, patch), Rfc6902.Standard(Norm(t.doc), patch)) <==>
      !Trips(t, patch) && Rfc6902.Conforms(Norm(t.doc), patch)
  {
    hide Track, Trips, ApplyPatch, IsPatch, Norm, WellFormed;
    TrackExactly(t, patch);
    Rfc6902.ConformsExactly(t.doc, patch);
  }

  /** Agreement in place after every patch of the list. */
  ghost predicate InPlaceThroughout(t: Tree, patches: seq<Json>) {
    forall k :: 0 <= k <= |patches| ==>
      AgreesInPlace(Run(t, patches[..k]), Rfc6902.StandardAll(Norm(t.doc), patches[..k]))
  }

  /**
   * ApplyPatches in place and section 5 of RFC 6902. They agree after every patch exactly if every patch conforms on
   * the document it meets and none detaches a stale head. If every patch conforms, the outcome of the list decides
   * alike.
   */
  lemma ConformingRun(t: Tree, patches: seq<Json>)
    requires WellFormed(t.doc) && AllPatches(patches) && Rfc6902.SizedRun(Norm(t.doc), patches)
    ensures InPlaceThroughout(t, patches) <==>
      !Stumbles(t, patches) && Rfc6902.ConformsAll(Norm(t.doc), patches)
    ensures Rfc6902.ConformsAll(Norm(t.doc), patches) ==>
      (AgreesInPlace(Run(t, patches), Rfc6902.StandardAll(Norm(t.doc), patches)) <==> !Stumbles(t, patches))
  {
    hide Run, ApplyAll, Norm, WellFormed, AllPatches, Stumbles;
    assert patches[..|patches|] == patches;
    RunAstray(t, patches);
    if !Stumbles(t, patches) {
      Rfc6902.AgreesExactly(t.doc, patches);
      forall k | 0 <= k <= |patches|
        ensures !Run(t, patches[..k]).Astray? && TrackedValue(Run(t, patches[..k])) == ApplyAll(t.doc, patches[..k])
      {
        if Stumbles(t, patches[..k]) {
          StumblesEarlier(t, patches, k);
        }
        RunIsApplyAll(t, patches[..k]);
      }
    }
  }

  /** The meaning of {"x": {"a": m, "b": n}}. */
  lemma MeaningXA(n: int, m: int)
    ensures var w := SObject(map["a" := SNumber(m), "b" := SNumber(n)]);
      && Norm(Two("a", m, "b", n)) == w && Norm(Under(Two("a", m, "b", n))) == SObject(map["x" := w])
      && Rfc6902.SemSized(SObject(map["x" := w]))
  {
    var v := Two("a", m, "b", n);
    var ms, ns := [Member("x", v)], v.members;
    KeysAB();
    assert NormMembers([]) == map[] && Fold("x") == "x";
    assert ns[1..] == [Member("b", Number(n))] && ns[1..][1..] == [] && ms[1..] == [];
    assert NormMembers(ns[1..]) == map["b" := SNumber(n)];
    assert NormMembers(ns) == map["a" := SNumber(m), "b" := SNumber(n)];
    assert Rfc6902.SemSized(Norm(v));
  }

  /** Its pointers, read by the standard. */
  lemma ReadXA(n: int, m: int)
    ensures var w := SObject(map["a" := SNumber(m), "b" := SNumber(n)]);
      var s := SObject(map["x" := w]);
      && Rfc6902.Tokens("/x") == Some(["x"]) && Rfc6902.Target(s, ["x"]) == Some(w)
      && Rfc6902.Names(s, "/x") && Rfc6902.Names(s, "/x/a")
  {
    hide Split, LastSlash;
    var w := SObject(map["a" := SNumber(m), "b" := SNumber(n)]);
    var s := SObject(map["x" := w]);
    ReadX();
    Rfc6902.TokensOfPath("/x/a");
    assert Unescape("a") == Some("a") by { assert "a"[1..] == "" && ['a'] + "" == "a" && Unescape("") == Some(""); }
    assert Fold("x") == "x" && Fold("a") == "a";
    assert Rfc6902.Refer(s, "x") == Some(w) && Rfc6902.Refer(w, "a") == Some(SNumber(m));
    assert ["x"][1..] == [] && Rfc6902.Target(w, []) == Some(w);
    Rfc6902.TargetSnoc(s, ["x"], "a");
  }

  /** The patches of OrderMatters conform, whichever member comes first: conforming does not save a run. */
  lemma ConformingYetAstray(n: int, m: int)
    ensures var s, ps := Norm(Under(Two("b", n, "a", m))), TestThenRemove(n, m);
      AllPatches(ps) && Rfc6902.SizedRun(s, ps) && Rfc6902.ConformsAll(s, ps)
  {
    hide Field, Norm, MakePatch, Rfc6902.Names, Rfc6902.SemSized, Rfc6902.Standard, Rfc6902.Target, Rfc6902.Tokens;
    hide WellFormed, CaseCmp;
    var s, ps := Norm(Under(Two("b", n, "a", m))), TestThenRemove(n, m);
    var w := Two("a", m, "b", n);
    SameMeaning(n, m);
    MeaningXA(n, m);
    ReadXA(n, m);
    ItemsOfPatch("test", "/x", Some(w));
    ItemsOfPatch("remove", "/x/a", None);
    assert WellFormed(w) by { TwoWellFormed(n, m); }
    PatchWellFormed("test", "/x", Some(w));
    PatchWellFormed("remove", "/x/a", None);
    Rfc6902.StandardByPath(s, "test", "/x", ps[0]);
    assert Rfc6902.Standard(s, ps[0]) == Some(s);
    var q := ps[1..];
    assert q[0] == ps[1] && q[1..] == [];
    assert Rfc6902.Conforms(s, ps[0]) && Rfc6902.Conforms(s, ps[1]);
    var o := Rfc6902.Standard(s, ps[1]);
    assert o.Some? ==> Rfc6902.ConformsAll(o.value, []) && Rfc6902.SizedRun(o.value, []);
    assert Rfc6902.ConformsAll(s, q) && Rfc6902.SizedRun(s, q);
  }

  lemma TwoWellFormed(n: int, m: int)
    ensures WellFormed(Two("a", m, "b", n))
  {
    KeysAB();
    var ms := Two("a", m, "b", n).members;
    assert ms[0].key == "a" && ms[1].key == "b";
  }

  // ---- the loop

  /** The document a program holds. `intact` goes down when a patch writes through a stale link. */
  class Document {
    var tree: Tree
    var intact: bool

    /** A document fresh from the parser or from Duplicate. */
    constructor (v: Json)
      ensures tree == Tree(v, CLEAN) && intact && Fresh(tree.marks)
    {
      tree := Tree(v, CLEAN);
      intact := true;
    }

    method Apply(patch: Json) returns (err: int)
      requires intact && !Track(tree, patch).TrackUndefined?
      modifies this
      ensures intact <==> !Trips(old(tree), patch)
      ensures intact ==> Tracked(err, tree) == Track(old(tree), patch)
    {
      TrackExactly(tree, patch);
      var r := Track(tree, patch);
      if r.Astray? {
        intact, err := false, 0;
      } else {
        tree, err := r.tree, r.err;
      }
    }

    /** All patches in order, up to the first that fails; what a failing patch already did stays done. */
    method ApplyPatches(patches: Json) returns (err: int)
      requires intact && (patches.Array? ==> !Run(tree, patches.items).TrackUndefined?)
      modifies this
      ensures !patches.Array? ==> err == 1 && intact && tree == old(tree)
      ensures patches.Array? ==> (intact <==> !Stumbles(old(tree), patches.items))
      ensures patches.Array? && intact ==> Tracked(err, tree) == Run(old(tree), patches.items)
    {
      if !patches.Array? {
        return 1;
      }
      var ps := patches.items;
      var k := 0;
      assert ps[0..] == ps;
      while k < |ps|
        invariant 0 <= k <= |ps| && intact
        invariant Run(old(tree), ps) == Run(tree, ps[k..])
        invariant Stumbles(old(tree), ps) == Stumbles(tree, ps[k..])
      {
        hide Run, Stumbles, Track, Trips;
        RunFrom(tree, ps, k);
        TrackExactly(tree, ps[k]);
        err := Apply(ps[k]);
        if !intact || err != 0 {
          return;
        }
        k := k + 1;
      }
      RunNothing(tree, ps);
      err := 0;
    }
  }

  lemma RunFrom(t: Tree, ps: seq<Json>, k: nat)
    requires k < |ps|
    ensures var r := Track(t, ps[k]);
      && Run(t, ps[k..]) == (if r.Tracked? && r.err == 0 then Run(r.tree, ps[k + 1..]) else r)
      && (Stumbles(t, ps[k..]) <==>
          Trips(t, ps[k]) || (r.Tracked? && r.err == 0 && Stumbles(r.tree, ps[k + 1..])))
  {
    hide Track, Trips;
    assert ps[k..][0] == ps[k] && ps[k..][1..] == ps[k + 1..];
  }

  lemma RunNothing(t: Tree, ps: seq<Json>)
    ensures Run(t, ps[|ps|..]) == Tracked(0, t) && !Stumbles(t, ps[|ps|..])
  {
  }
}
