/** Applying the patch generated from two documents: what comes out, and exactly when it is the second document. */
module PatchRoundTrip {
  import opened CStrings
  import opened JsonValue
  import opened Decimal
  import opened Pointer
  import opened ChildList
  import opened Compare
  import opened Patch
  import opened PatchMeaning
  import opened Diff

  // ---- the outcome

  /** What is left of `r` once index i, then i + 1, then i + 2 and so on have been removed while they exist. */
  function Residue(r: seq<Sem>, i: nat): (t: seq<Sem>)
    decreases |r| - i
  {
    if i < |r| then Residue(RemoveAt(r, i), i + 1) else r
  }

  /** The meaning a generated patch leaves in place of `from`. */
  function Outcome(from: Json, to: Json): (r: Sem)
    decreases from, 1, 0
  {
    if !SameType(from, to) then Norm(to)
    else match from
      case Array(items) => SArray(OutcomeItems(items, to.items))
      case Object(ms) =>
        SortedBelow(from);
        SObject(OutcomeMembers(Sorted(ms), Sorted(to.members), from))
      case _ => Norm(to)
  }

  function OutcomeItems(xs: seq<Json>, ys: seq<Json>): (r: seq<Sem>)
    decreases xs, 0, 0
  {
    if xs == [] then NormItems(ys)
    else if ys == [] then Residue(NormItems(xs), 0)
    else [Outcome(xs[0], ys[0])] + OutcomeItems(xs[1..], ys[1..])
  }

  function OutcomeMembers(xs: seq<Member>, ys: seq<Member>, ghost root: Json): (r: map<string, Sem>)
    requires Below(xs, root)
    decreases root, 0, |xs| + |ys|
  {
    if xs == [] && ys == [] then map[]
    else
      var diff := if xs == [] then 1 else if ys == [] then -1 else CaseCmp(xs[0].key, ys[0].key);
      if diff == 0 then OutcomeMembers(xs[1..], ys[1..], root)[Fold(xs[0].key) := Outcome(xs[0].value, ys[0].value)]
      else if diff < 0 then OutcomeMembers(xs[1..], ys, root)
      else OutcomeMembers(xs, ys[1..], root)[Fold(ys[0].key) := Norm(ys[0].value)]
  }

  // ---- arrays

  lemma RenderSnoc(tokens: seq<string>, t: string)
    ensures Render(tokens + [t]) == Render(tokens) + "/" + t
  {
    RenderAppend(tokens, [t]);
    assert Render([t]) == "/" + t + Render([]);
  }

  lemma {:induction false} DecodePlain(s: string)
    requires '~' !in s && '/' !in s
    ensures Decode(s) == Some(s) && Escape(s) == s
    decreases |s|
  {
    if s != [] {
      DecodePlain(s[1..]);
      assert s == [s[0]] + s[1..];
    }
  }

  /** The token written for an index reads back as that index in every place it is read. */
  lemma IndexToken(c: nat)
    requires c <= INT_MAX
    ensures var t := Digits(c);
      && Escape(t) == t && Decode(t) == Some(t) && SlashFree(t) && NulFree(t)
      && IndexOf(t) == Some(c) && Atoi(t) == Some(c) && t != "-"
  {
    hide Decode, Escape, Atoi, Value, Digits;
    var t := Digits(c);
    DecodePlain(t);
    AtoiDigits(c);
    ValueDigits(c);
    assert c < SIZE_MODULUS;
    assert IsDigit(t[0]);
  }

  lemma DashToken()
    ensures Escape("-") == "-" && Decode("-") == Some("-") && SlashFree("-") && NulFree("-")
  {
    DecodePlain("-");
  }

  lemma PlainSnoc(tokens: seq<string>, t: string)
    requires PlainTokens(tokens) && SlashFree(t) && NulFree(t)
    ensures PlainTokens(tokens + [t])
  {
  }

  /** A run of one or more patches whose first is applied, then the rest. */
  lemma ApplyCons(s: Sem, p: Json, rest: seq<Json>)
    requires Placed(p) && AllPlaced(rest)
    requires SemApply(s, p).SemApplied? && SemApply(s, p).ok
    ensures AllPlaced([p] + rest)
    ensures SemApplyAll(s, [p] + rest) == SemApplyAll(SemApply(s, p).doc, rest)
  {
    hide SemApply, Placed;
    assert ([p] + rest)[1..] == rest;
  }

  function Without(r: seq<Sem>, i: nat): (t: seq<Sem>) {
    if i < |r| then RemoveAt(r, i) else r
  }

  /** One removal of the leftover loop: index `i` counted from where the leftovers start. */
  lemma RemoveOne(s: Sem, tokens: seq<string>, c: nat, done: seq<Sem>, r: seq<Sem>, i: nat)
    requires PlainTokens(tokens) && SemAt(s, tokens) == Some(SArray(done + r))
    requires c == |done| + i && c <= INT_MAX
    ensures var p := MakePatch("remove", Render(tokens) + "/" + Escape(Digits(c)), None);
      Placed(p) && SemApply(s, p) == SemApplied(true, SemSet(s, tokens, SArray(done + Without(r, i))))
  {
    hide SemApply, Placed, Render, Atoi, Escape, Digits, Decode, SemAt, SemSet, MakePatch;
    IndexToken(c);
    var t := Digits(c);
    RemoveEffect(s, MakePatch("remove", Render(tokens) + "/" + t, None), tokens, t, t);
    assert i < |r| ==> RemoveAt(done + r, c) == done + RemoveAt(r, i);
  }

  /** The leftover loop removes every second element and no more: the indices grow while the array shrinks. */
  lemma {:induction false} RemoveRun(s: Sem, tokens: seq<string>, c: nat, n: nat, done: seq<Sem>, r: seq<Sem>, i: nat)
    requires PlainTokens(tokens) && SemAt(s, tokens) == Some(SArray(done + r))
    requires c == |done| + i && n >= |r| - i && c + n <= INT_MAX + 1
    ensures var ps := RemovePatches(Render(tokens), c, n);
      AllPlaced(ps) && SemApplyAll(s, ps) == SemApplied(true, SemSet(s, tokens, SArray(done + Residue(r, i))))
    decreases n
  {
    hide SemApply, Placed, Render, Escape, Digits, SemAt, SemSet, MakePatch;
    if n == 0 {
      SetAtSame(s, tokens);
    } else {
      RemoveOne(s, tokens, c, done, r, i);
      var r' := Without(r, i);
      assert Residue(r, i) == Residue(r', i + 1);
      SetTwice(s, tokens, SArray(done + r'), SArray(done + Residue(r, i)));
      var p := MakePatch("remove", Render(tokens) + "/" + Escape(Digits(c)), None);
      RemoveRun(SemApply(s, p).doc, tokens, c + 1, n - 1, done, r', i + 1);
      ApplyCons(s, p, RemovePatches(Render(tokens), c + 1, n - 1));
    }
  }

  lemma {:induction false} AddRun(s: Sem, tokens: seq<string>, done: seq<Sem>, ys: seq<Json>)
    requires PlainTokens(tokens) && SemAt(s, tokens) == Some(SArray(done))
    requires forall i :: 0 <= i < |ys| ==> WellFormed(ys[i])
    ensures var ps := AddPatches(Render(tokens), ys);
      AllPlaced(ps) && SemApplyAll(s, ps) == SemApplied(true, SemSet(s, tokens, SArray(done + NormItems(ys))))
    decreases |ys|
  {
    hide SemApply, Placed, Render, Norm, SemAt, SemSet, MakePatch, Escape, Decode;
    if ys == [] {
      SetAtSame(s, tokens);
      assert done + NormItems(ys) == done;
    } else {
      DashToken();
      var p := MakePatch("add", Render(tokens) + "/" + "-", Some(ys[0]));
      AddEffect(s, p, tokens, "-", "-", ys[0]);
      var done' := done + [Norm(ys[0])];
      var s' := SemSet(s, tokens, SArray(done'));
      assert done + NormItems(ys) == done' + NormItems(ys[1..]);
      SetTwice(s, tokens, SArray(done'), SArray(done + NormItems(ys)));
      AddRun(s', tokens, done', ys[1..]);
      ApplyCons(s, p, AddPatches(Render(tokens), ys[1..]));
    }
  }

  // ---- the walk

  ghost predicate Ready(v: Json) {
    WellFormed(v) && Sized(v)
  }

  /** Applying `ps` to `s` replaces what is at `tokens` by `w`. */
  ghost predicate Sets(ps: seq<Json>, s: Sem, tokens: seq<string>, w: Sem) {
    AllPlaced(ps) && SemAt(s, tokens).Some? && SemApplyAll(s, ps) == SemApplied(true, SemSet(s, tokens, w))
  }

  /** Two runs of patches for the same place: the second decides. */
  lemma SetsThenSets(ps: seq<Json>, qs: seq<Json>, s: Sem, tokens: seq<string>, w: Sem, w': Sem)
    requires Sets(ps, s, tokens, w) && Sets(qs, SemSet(s, tokens, w), tokens, w')
    ensures Sets(ps + qs, s, tokens, w')
  {
    hide SemApplyAll, SemSet, SemAt, AllPlaced;
    SemApplyAllAppend(s, ps, qs);
    SetTwice(s, tokens, w, w');
  }

  /** A run for a child is a run for its parent. */
  lemma SetsChild(ps: seq<Json>, s: Sem, tokens: seq<string>, t: string, w: Sem)
    requires SemAt(s, tokens).Some? && Step(SemAt(s, tokens).value, t).Some?
    requires Sets(ps, s, tokens + [t], w)
    ensures Sets(ps, s, tokens, PutStep(SemAt(s, tokens).value, t, w))
  {
    SetSnoc(s, tokens, t, w);
  }

  lemma SetsNothing(s: Sem, tokens: seq<string>)
    requires SemAt(s, tokens).Some?
    ensures Sets([], s, tokens, SemAt(s, tokens).value)
  {
    SetAtSame(s, tokens);
  }

  lemma SetsOne(p: Json, s: Sem, tokens: seq<string>, w: Sem)
    requires Placed(p) && SemAt(s, tokens).Some? && SemApply(s, p) == SemApplied(true, SemSet(s, tokens, w))
    ensures Sets([p], s, tokens, w)
  {
    hide SemApply, Placed, SemAt;
    assert [p] + [] == [p];
    ApplyCons(s, p, []);
  }

  /** The patches for a child that exists turn it into its outcome. */
  lemma {:induction false} DiffEffect(s: Sem, tokens: seq<string>, t: string, child: string, from: Json, to: Json)
    requires Ready(from) && WellFormed(to)
    requires PlainTokens(tokens) && SlashFree(t) && NulFree(t) && Decode(t) == Some(child)
    requires SemAt(s, tokens).Some? && Step(SemAt(s, tokens).value, t) == Some(Norm(from))
    requires ChildToken(SemAt(s, tokens).value, t, child)
    ensures Sets(CompareToPatch(Render(tokens) + "/" + t, from, to), s, tokens + [t], Outcome(from, to))
    decreases from, 1, 0
  {
    hide SemApply, Placed, Render, SemAt, SemSet, Step, ChildToken, Decode, SemApplyAll, AllPlaced, MakePatch;
    hide Sets, PlainTokens, NormItems, OutcomeItems, SlashFree, NulFree;
    var path := Render(tokens) + "/" + t;
    AtSnoc(s, tokens, t);
    ReplaceEffect(s, MakePatch("replace", path, Some(to)), tokens, t, child, to);
    SetsOne(MakePatch("replace", path, Some(to)), s, tokens + [t], Norm(to));
    SetsNothing(s, tokens + [t]);
    RenderSnoc(tokens, t);
    PlainSnoc(tokens, t);
    if SameType(from, to) {
      match from
      case Array(items) =>
        assert [] + NormItems(items) == NormItems(items);
        ItemsEffect(s, tokens + [t], [], items, to.items);
        assert [] + OutcomeItems(items, to.items) == OutcomeItems(items, to.items);
      case Object(ms) =>
        ObjectEffect(s, tokens + [t], from, to);
      case _ =>
    }
  }

  /** The array loops, started with `done` finished elements in front. */
  lemma {:induction false} ItemsEffect(s: Sem, tokens: seq<string>, done: seq<Sem>, xs: seq<Json>, ys: seq<Json>)
    requires PlainTokens(tokens) && SemAt(s, tokens) == Some(SArray(done + NormItems(xs)))
    requires |done| + |xs| <= INT_MAX + 1
    requires (forall i :: 0 <= i < |xs| ==> Ready(xs[i])) && (forall i :: 0 <= i < |ys| ==> WellFormed(ys[i]))
    ensures Sets(DiffItems(Render(tokens), xs, ys, |done|), s, tokens, SArray(done + OutcomeItems(xs, ys)))
    decreases xs, 0, 0
  {
    hide Render, SemAt, SemSet, Sets, Ready, WellFormed, Norm, NormItems, Digits;
    hide CompareToPatch, Outcome, Residue, AddPatches, RemovePatches, SemApplyAll, AllPlaced, PlainTokens;
    hide DiffItems, OutcomeItems;
    var c := |done|;
    ItemsUnfold(Render(tokens), xs, ys, c);
    if xs == [] {
      assert NormItems(xs) == [] && done + [] == done;
      AddRun(s, tokens, done, ys);
      SetsIntro(AddPatches(Render(tokens), ys), s, tokens, SArray(done + NormItems(ys)));
    } else if ys == [] {
      RemoveRun(s, tokens, c, |xs|, done, NormItems(xs), 0);
      SetsIntro(RemovePatches(Render(tokens), c, |xs|), s, tokens, SArray(done + Residue(NormItems(xs), 0)));
    } else {
      var o := Outcome(xs[0], ys[0]);
      var next := done + [o];
      ItemEffect(s, tokens, done, xs, ys[0]);
      var ps, w := CompareToPatch(Render(tokens) + "/" + Digits(c), xs[0], ys[0]), SArray(next + NormItems(xs[1..]));
      SetsReads(ps, s, tokens, w);
      ItemsEffect(SemSet(s, tokens, w), tokens, next, xs[1..], ys[1..]);
      SetsThenSets(ps, DiffItems(Render(tokens), xs[1..], ys[1..], c + 1), s, tokens, w,
                   SArray(next + OutcomeItems(xs[1..], ys[1..])));
      assert done + OutcomeItems(xs, ys) == next + OutcomeItems(xs[1..], ys[1..]);
    }
  }

  lemma SetsIntro(ps: seq<Json>, s: Sem, tokens: seq<string>, w: Sem)
    requires AllPlaced(ps) && SemAt(s, tokens).Some? && SemApplyAll(s, ps) == SemApplied(true, SemSet(s, tokens, w))
    ensures Sets(ps, s, tokens, w)
  {
  }

  /** One turn of the array loop: the element after `done` becomes its outcome. */
  lemma ItemEffect(s: Sem, tokens: seq<string>, done: seq<Sem>, xs: seq<Json>, y: Json)
    requires PlainTokens(tokens) && SemAt(s, tokens) == Some(SArray(done + NormItems(xs)))
    requires xs != [] && |done| <= INT_MAX && Ready(xs[0]) && WellFormed(y)
    ensures Sets(CompareToPatch(Render(tokens) + "/" + Digits(|done|), xs[0], y), s, tokens,
                 SArray(done + [Outcome(xs[0], y)] + NormItems(xs[1..])))
    decreases xs[0], 2, 0
  {
    hide Render, SemAt, Sets, Decode, Digits, IndexOf, Atoi, Ready, WellFormed, Norm, Outcome, CompareToPatch;
    var t, o := Digits(|done|), Outcome(xs[0], y);
    IndexToken(|done|);
    ItemPlace(done, xs, o);
    DiffEffect(s, tokens, t, t, xs[0], y);
    SetsChild(CompareToPatch(Render(tokens) + "/" + t, xs[0], y), s, tokens, t, o);
  }

  lemma ItemsUnfold(path: string, xs: seq<Json>, ys: seq<Json>, c: nat)
    ensures DiffItems(path, xs, ys, c) ==
      if xs == [] then AddPatches(path, ys)
      else if ys == [] then RemovePatches(path, c, |xs|)
      else CompareToPatch(path + "/" + Digits(c), xs[0], ys[0]) + DiffItems(path, xs[1..], ys[1..], c + 1)
    ensures OutcomeItems(xs, ys) ==
      if xs == [] then NormItems(ys)
      else if ys == [] then Residue(NormItems(xs), 0)
      else [Outcome(xs[0], ys[0])] + OutcomeItems(xs[1..], ys[1..])
  {
  }

  /** The place of the first unfinished element. */
  lemma ItemPlace(done: seq<Sem>, xs: seq<Json>, o: Sem)
    requires xs != [] && |done| <= INT_MAX
    ensures var t, a := Digits(|done|), SArray(done + NormItems(xs));
      && Step(a, t) == Some(Norm(xs[0])) && PutStep(a, t, o) == SArray(done + [o] + NormItems(xs[1..]))
      && ChildToken(a, t, t)
  {
    hide Norm, NormItems, Digits, Atoi, Decode, Escape, IndexOf, SlashFree, NulFree, IsDigit;
    var t, items := Digits(|done|), done + NormItems(xs);
    IndexToken(|done|);
    NormTail(xs);
    assert items[|done| := o] == done + [o] + NormItems(xs[1..]);
  }

  lemma NormTail(xs: seq<Json>)
    requires xs != []
    ensures NormItems(xs) == [Norm(xs[0])] + NormItems(xs[1..])
  {
  }

  // ---- objects

  function KeySet(ms: seq<Member>): (ks: set<string>) {
    set i | 0 <= i < |ms| :: Fold(ms[i].key)
  }

  /** The map once the walk is over: what the walk never touches, and the outcome of what it does. */
  function Expected(m: map<string, Sem>, xs: seq<Member>, ys: seq<Member>, ghost root: Json): (r: map<string, Sem>)
    requires Below(xs, root)
  {
    (m - KeySet(xs)) + OutcomeMembers(xs, ys, root)
  }

  /** The members still to come are in the map, and the additions still to come are not, unless they are both. */
  ghost predicate Pending(m: map<string, Sem>, xs: seq<Member>, ys: seq<Member>) {
    && (forall i {:trigger xs[i]} :: 0 <= i < |xs| ==> Fold(xs[i].key) in m && m[Fold(xs[i].key)] == Norm(xs[i].value))
    && (forall j {:trigger ys[j]} :: 0 <= j < |ys| && Fold(ys[j].key) in m ==> Fold(ys[j].key) in KeySet(xs))
  }

  /** Both lists are sorted member lists of documents the walk can take. */
  ghost predicate Walkable(xs: seq<Member>, ys: seq<Member>) {
    && WellFormedMembers(xs) && WellFormedMembers(ys) && Ordered(xs) && Ordered(ys)
    && (forall i :: 0 <= i < |xs| ==> Sized(xs[i].value))
  }

  lemma TailKeys(ms: seq<Member>)
    requires WellFormedMembers(ms) && Ordered(ms) && ms != []
    ensures WellFormedMembers(ms[1..]) && Ordered(ms[1..])
    ensures KeySet(ms) == KeySet(ms[1..]) + {Fold(ms[0].key)} && Fold(ms[0].key) !in KeySet(ms[1..])
  {
    hide WellFormed, CaseCmp;
    assert forall k :: 1 <= k < |ms| ==> ms[1..][k - 1] == ms[k];
    forall k | k in KeySet(ms)
      ensures k in KeySet(ms[1..]) + {Fold(ms[0].key)}
    {
      var i :| 0 <= i < |ms| && Fold(ms[i].key) == k;
      if i > 0 {
        assert ms[1..][i - 1] == ms[i];
      }
    }
  }

  lemma AbsentKey(key: string, ms: seq<Member>)
    requires NulFree(key) && NulFreeKeys(ms) && Ordered(ms)
    requires ms != [] ==> CaseCmp(key, ms[0].key) < 0
    ensures Fold(key) !in KeySet(ms)
  {
    KeyAbsent(key, ms);
  }

  lemma {:induction false} OutcomeKeys(xs: seq<Member>, ys: seq<Member>, root: Json)
    requires Below(xs, root) && WellFormedMembers(xs) && WellFormedMembers(ys) && Ordered(xs) && Ordered(ys)
    ensures OutcomeMembers(xs, ys, root).Keys == KeySet(ys)
    decreases |xs| + |ys|
  {
    hide Outcome, Norm, WellFormed, CaseCmp;
    if xs == [] && ys == [] {
    } else {
      var diff := if xs == [] then 1 else if ys == [] then -1 else CaseCmp(xs[0].key, ys[0].key);
      if xs != [] { TailKeys(xs); }
      if ys != [] { TailKeys(ys); }
      if diff == 0 {
        CaseCmpZero(xs[0].key, ys[0].key);
        OutcomeKeys(xs[1..], ys[1..], root);
      } else if diff < 0 {
        OutcomeKeys(xs[1..], ys, root);
      } else {
        OutcomeKeys(xs, ys[1..], root);
      }
    }
  }

  lemma MapBoth(m: map<string, Sem>, ks: set<string>, k: string, o: Sem, om: map<string, Sem>)
    requires k !in ks && k !in om
    ensures (m[k := o] - ks) + om == (m - (ks + {k})) + om[k := o]
  {
  }

  lemma MapAdd(m: map<string, Sem>, ks: set<string>, l: string, n: Sem, om: map<string, Sem>)
    requires l !in ks && l !in om
    ensures (m[l := n] - ks) + om == (m - ks) + om[l := n]
  {
  }

  lemma MapDrop(m: map<string, Sem>, ks: set<string>, k: string, om: map<string, Sem>)
    ensures ((m - {k}) - ks) + om == (m - (ks + {k})) + om
  {
  }

  lemma TailWalkable(xs: seq<Member>, ys: seq<Member>)
    requires Walkable(xs, ys)
    ensures xs != [] ==> Walkable(xs[1..], ys)
    ensures ys != [] ==> Walkable(xs, ys[1..])
  {
    hide WellFormed, CaseCmp, Sized, KeySet;
    if xs != [] {
      TailKeys(xs);
    }
    if ys != [] {
      TailKeys(ys);
    }
  }

  /** Changing the map at a key that no pending member has keeps the pending members. */
  lemma PendingKept(m: map<string, Sem>, m': map<string, Sem>, xs: seq<Member>, ys: seq<Member>,
                    xs': seq<Member>, ys': seq<Member>, k: string)
    requires Pending(m, xs, ys)
    requires forall q :: q != k ==> (q in m' <==> q in m) && (q in m ==> m'[q] == m[q])
    requires k !in KeySet(xs') && k !in KeySet(ys')
    requires forall i :: 0 <= i < |xs'| ==> xs'[i] in xs
    requires forall j :: 0 <= j < |ys'| ==> ys'[j] in ys
    requires KeySet(xs) <= KeySet(xs') + {k}
    ensures Pending(m', xs', ys')
  {
    hide Norm, Fold;
    forall i {:trigger xs'[i]} | 0 <= i < |xs'|
      ensures Fold(xs'[i].key) in m' && m'[Fold(xs'[i].key)] == Norm(xs'[i].value)
    {
      assert Fold(xs'[i].key) in KeySet(xs');
      var p :| 0 <= p < |xs| && xs[p] == xs'[i];
    }
    forall j {:trigger ys'[j]} | 0 <= j < |ys'| && Fold(ys'[j].key) in m'
      ensures Fold(ys'[j].key) in KeySet(xs')
    {
      assert Fold(ys'[j].key) in KeySet(ys');
      var p :| 0 <= p < |ys| && ys[p] == ys'[j];
    }
  }

  /** A key in both documents: its value becomes the outcome of the two values. */
  lemma StepBoth(m: map<string, Sem>, xs: seq<Member>, ys: seq<Member>, root: Json)
    requires Below(xs, root) && Walkable(xs, ys) && Pending(m, xs, ys)
    requires xs != [] && ys != [] && CaseCmp(xs[0].key, ys[0].key) == 0
    ensures var k, o := Fold(xs[0].key), Outcome(xs[0].value, ys[0].value);
      && Walkable(xs[1..], ys[1..]) && Pending(m[k := o], xs[1..], ys[1..])
      && Expected(m[k := o], xs[1..], ys[1..], root) == Expected(m, xs, ys, root)
      && k in m && m[k] == Norm(xs[0].value)
  {
    hide Outcome, Norm, CaseCmp, KeySet, Fold, WellFormed, Sized;
    var k, o := Fold(xs[0].key), Outcome(xs[0].value, ys[0].value);
    BothKeys(xs, ys);
    TailWalkable(xs, ys);
    TailWalkable(xs[1..], ys);
    OutcomeKeys(xs[1..], ys[1..], root);
    assert xs[0] == xs[0];
    PendingKept(m, m[k := o], xs, ys, xs[1..], ys[1..], k);
    MapBoth(m, KeySet(xs[1..]), k, o, OutcomeMembers(xs[1..], ys[1..], root));
  }

  lemma BothKeys(xs: seq<Member>, ys: seq<Member>)
    requires Walkable(xs, ys) && xs != [] && ys != [] && CaseCmp(xs[0].key, ys[0].key) == 0
    ensures var k := Fold(xs[0].key);
      KeySet(xs) == KeySet(xs[1..]) + {k} && k !in KeySet(xs[1..]) && k !in KeySet(ys[1..])
  {
    hide CaseCmp, WellFormed;
    CaseCmpZero(xs[0].key, ys[0].key);
    TailKeys(xs);
    TailKeys(ys);
  }

  /** A key only in the old document goes. */
  lemma StepDrop(m: map<string, Sem>, xs: seq<Member>, ys: seq<Member>, root: Json)
    requires Below(xs, root) && Walkable(xs, ys) && Pending(m, xs, ys)
    requires xs != [] && (ys == [] || CaseCmp(xs[0].key, ys[0].key) < 0)
    ensures var k := Fold(xs[0].key);
      && Walkable(xs[1..], ys) && Pending(m - {k}, xs[1..], ys)
      && Expected(m - {k}, xs[1..], ys, root) == Expected(m, xs, ys, root)
      && k in m
  {
    hide Outcome, Norm, CaseCmp, KeySet, Fold, WellFormed;
    var k := Fold(xs[0].key);
    TailKeys(xs);
    AbsentKey(xs[0].key, ys);
    TailWalkable(xs, ys);
    assert xs[0] == xs[0];
    PendingKept(m, m - {k}, xs, ys, xs[1..], ys, k);
    MapDrop(m, KeySet(xs[1..]), k, OutcomeMembers(xs[1..], ys, root));
  }

  /** A key only in the new document comes. */
  lemma StepAdd(m: map<string, Sem>, xs: seq<Member>, ys: seq<Member>, root: Json)
    requires Below(xs, root) && Walkable(xs, ys) && Pending(m, xs, ys)
    requires ys != [] && (xs == [] || CaseCmp(xs[0].key, ys[0].key) > 0)
    ensures var l, n := Fold(ys[0].key), Norm(ys[0].value);
      && Walkable(xs, ys[1..]) && Pending(m[l := n], xs, ys[1..])
      && Expected(m[l := n], xs, ys[1..], root) == Expected(m, xs, ys, root)
  {
    hide Outcome, Norm, CaseCmp, KeySet, Fold, WellFormed;
    var l, n := Fold(ys[0].key), Norm(ys[0].value);
    TailKeys(ys);
    if xs != [] {
      CaseCmpZero(xs[0].key, ys[0].key);
    }
    AbsentKey(ys[0].key, xs);
    TailWalkable(xs, ys);
    OutcomeKeys(xs, ys[1..], root);
    PendingKept(m, m[l := n], xs, ys, xs, ys[1..], l);
    MapAdd(m, KeySet(xs), l, n, OutcomeMembers(xs, ys[1..], root));
  }

  lemma KeyToken(key: string)
    requires NulFree(key)
    ensures var t := Escape(key); SlashFree(t) && NulFree(t) && Decode(t) == Some(key) && Unescape(t) == Some(key)
  {
    EscapeSlashFree(key);
    EscapeNulFree(key);
    DecodeEscape(key);
    UnescapeEscape(key);
  }

  lemma {:induction false} EscapeNulFree(key: string)
    requires NulFree(key)
    ensures NulFree(Escape(key))
  {
    if key != [] {
      EscapeNulFree(key[1..]);
    }
  }

  lemma DropMember(s: Sem, tokens: seq<string>, m: map<string, Sem>, key: string)
    requires PlainTokens(tokens) && NulFree(key) && SemAt(s, tokens) == Some(SObject(m)) && Fold(key) in m
    ensures Sets([MakePatch("remove", Render(tokens) + "/" + Escape(key), None)], s, tokens, SObject(m - {Fold(key)}))
  {
    hide SemApply, Placed, Render, SemAt, SemSet, Decode, Escape, MakePatch;
    KeyToken(key);
    var p := MakePatch("remove", Render(tokens) + "/" + Escape(key), None);
    RemoveEffect(s, p, tokens, Escape(key), key);
    SetsOne(p, s, tokens, SObject(m - {Fold(key)}));
  }

  lemma AddMember(s: Sem, tokens: seq<string>, m: map<string, Sem>, key: string, v: Json)
    requires PlainTokens(tokens) && NulFree(key) && WellFormed(v) && SemAt(s, tokens) == Some(SObject(m))
    ensures Sets([MakePatch("add", Render(tokens) + "/" + Escape(key), Some(v))], s, tokens,
                 SObject(m[Fold(key) := Norm(v)]))
  {
    hide SemApply, Placed, Render, SemAt, SemSet, Decode, Escape, MakePatch;
    KeyToken(key);
    var p := MakePatch("add", Render(tokens) + "/" + Escape(key), Some(v));
    AddEffect(s, p, tokens, Escape(key), key, v);
    SetsOne(p, s, tokens, SObject(m[Fold(key) := Norm(v)]));
  }

  lemma ChangeMember(s: Sem, tokens: seq<string>, m: map<string, Sem>, key: string, from: Json, to: Json)
    requires PlainTokens(tokens) && NulFree(key) && Ready(from) && WellFormed(to)
    requires SemAt(s, tokens) == Some(SObject(m)) && Fold(key) in m && m[Fold(key)] == Norm(from)
    ensures Sets(CompareToPatch(Render(tokens) + "/" + Escape(key), from, to), s, tokens,
                 SObject(m[Fold(key) := Outcome(from, to)]))
    decreases from, 2, 0
  {
    hide SemApply, Placed, Render, SemAt, SemSet, Decode, Escape, SemApplyAll, AllPlaced, CompareToPatch, Outcome;
    hide Ready;
    KeyToken(key);
    var t := Escape(key);
    DiffEffect(s, tokens, t, key, from, to);
    SetsChild(CompareToPatch(Render(tokens) + "/" + t, from, to), s, tokens, t, Outcome(from, to));
  }

  /** The object walk. */
  lemma {:induction false} MembersEffect(s: Sem, tokens: seq<string>, m: map<string, Sem>,
                                       xs: seq<Member>, ys: seq<Member>, root: Json)
    requires Below(xs, root) && Walkable(xs, ys) && Pending(m, xs, ys)
    requires PlainTokens(tokens) && SemAt(s, tokens) == Some(SObject(m))
    ensures Sets(DiffMembers(Render(tokens), xs, ys, root), s, tokens, SObject(Expected(m, xs, ys, root)))
    decreases root, 0, |xs| + |ys|, 1
  {
    hide SemApply, Placed, Render, SemAt, SemSet, Escape, SemApplyAll, AllPlaced, CompareToPatch, Outcome, Sets,
      Norm, WellFormed, CaseCmp, Sized, Pending, Expected, MakePatch, PlainTokens, Fold, Walkable;
    var path := Render(tokens);
    if xs == [] && ys == [] {
      ExpectedNothing(m, root);
      SetsNothing(s, tokens);
    } else {
      var ps, m', xs', ys' := MembersStep(s, tokens, m, xs, ys, root);
      SetsReads(ps, s, tokens, SObject(m'));
      MembersEffect(SemSet(s, tokens, SObject(m')), tokens, m', xs', ys', root);
      SetsThenSets(ps, DiffMembers(path, xs', ys', root), s, tokens, SObject(m'),
                   SObject(Expected(m', xs', ys', root)));
    }
  }

  /** One step of the object walk: the patches for the smaller first key, and the walk that remains. */
  lemma MembersStep(s: Sem, tokens: seq<string>, m: map<string, Sem>, xs: seq<Member>, ys: seq<Member>, root: Json)
    returns (ps: seq<Json>, m': map<string, Sem>, xs': seq<Member>, ys': seq<Member>)
    requires Below(xs, root) && Walkable(xs, ys) && Pending(m, xs, ys) && (xs != [] || ys != [])
    requires PlainTokens(tokens) && SemAt(s, tokens) == Some(SObject(m))
    ensures Below(xs', root) && Walkable(xs', ys') && Pending(m', xs', ys') && |xs'| + |ys'| < |xs| + |ys|
    ensures DiffMembers(Render(tokens), xs, ys, root) == ps + DiffMembers(Render(tokens), xs', ys', root)
    ensures Sets(ps, s, tokens, SObject(m')) && Expected(m', xs', ys', root) == Expected(m, xs, ys, root)
    decreases root, 0, |xs| + |ys|, 0
  {
    hide Render, SemAt, Escape, CompareToPatch, Outcome, Sets, Norm, WellFormed, CaseCmp, Sized, Pending, Expected;
    hide MakePatch, PlainTokens, Fold;
    var path := Render(tokens);
    var diff := if xs == [] then 1 else if ys == [] then -1 else CaseCmp(xs[0].key, ys[0].key);
    if diff == 0 {
      StepBoth(m, xs, ys, root);
      ChangeMember(s, tokens, m, xs[0].key, xs[0].value, ys[0].value);
      ps := CompareToPatch(path + "/" + Escape(xs[0].key), xs[0].value, ys[0].value);
      m', xs', ys' := m[Fold(xs[0].key) := Outcome(xs[0].value, ys[0].value)], xs[1..], ys[1..];
    } else if diff < 0 {
      StepDrop(m, xs, ys, root);
      DropMember(s, tokens, m, xs[0].key);
      ps := [MakePatch("remove", path + "/" + Escape(xs[0].key), None)];
      m', xs', ys' := m - {Fold(xs[0].key)}, xs[1..], ys;
    } else {
      StepAdd(m, xs, ys, root);
      AddMember(s, tokens, m, ys[0].key, ys[0].value);
      ps := [MakePatch("add", path + "/" + Escape(ys[0].key), Some(ys[0].value))];
      m', xs', ys' := m[Fold(ys[0].key) := Norm(ys[0].value)], xs, ys[1..];
    }
  }

  lemma ExpectedNothing(m: map<string, Sem>, root: Json)
    ensures Expected(m, [], [], root) == m
  {
  }

  lemma SetsReads(ps: seq<Json>, s: Sem, tokens: seq<string>, w: Sem)
    requires Sets(ps, s, tokens, w)
    ensures SemAt(s, tokens).Some? && SemAt(SemSet(s, tokens, w), tokens) == Some(w)
  {
    SetTwice(s, tokens, w, w);
  }

  lemma ObjectEffect(s: Sem, tokens: seq<string>, from: Json, to: Json)
    requires from.Object? && to.Object? && Ready(from) && WellFormed(to)
    requires PlainTokens(tokens) && SemAt(s, tokens) == Some(Norm(from))
    ensures Sets(CompareToPatch(Render(tokens), from, to), s, tokens, Outcome(from, to))
    decreases from, 0, |from.members| + |to.members| + 1
  {
    hide SemApply, Placed, Render, SemAt, Sets, Sized;
    var xs, ys, m := Sorted(from.members), Sorted(to.members), NormMembers(from.members);
    SortedBelow(from);
    SortedObject(from.members);
    SortedObject(to.members);
    SortedReady(from);
    NormMembersHolds(xs);
    StartPending(m, xs, ys);
    MembersEffect(s, tokens, m, xs, ys, from);
  }

  lemma SortedReady(v: Json)
    requires v.Object? && Ready(v)
    ensures forall i :: 0 <= i < |Sorted(v.members)| ==> Sized(Sorted(v.members)[i].value)
  {
    var r := Sorted(v.members);
    forall i | 0 <= i < |r|
      ensures Sized(r[i].value)
    {
      assert r[i] in multiset(r);
      assert r[i] in v.members;
    }
  }

  lemma StartPending(m: map<string, Sem>, xs: seq<Member>, ys: seq<Member>)
    requires Walkable(xs, ys) && Holds(m, xs)
    ensures Pending(m, xs, ys)
    ensures forall root: Json :: Below(xs, root) ==> Expected(m, xs, ys, root) == OutcomeMembers(xs, ys, root)
  {
    hide Norm, WellFormed, CaseCmp, OutcomeMembers;
    forall k | k in m
      ensures k in KeySet(xs)
    {
      assert HasKey(xs, k);
    }
    assert m - KeySet(xs) == map[];
  }

  // ---- exactly when the outcome is the second document

  /** Wherever both documents have an array in the same place, the first one's is at most one element longer. */
  ghost predicate Shrinks(a: Sem, b: Sem)
    decreases a
  {
    if a.SArray? && b.SArray? then
      && |a.items| <= |b.items| + 1
      && forall i :: 0 <= i < |a.items| && i < |b.items| ==> Shrinks(a.items[i], b.items[i])
    else if a.SObject? && b.SObject? then
      forall k :: k in a.fields && k in b.fields ==> Shrinks(a.fields[k], b.fields[k])
    else true
  }

  lemma {:induction false} ResidueLength(r: seq<Sem>, i: nat)
    requires |r| >= i - 1
    ensures |Residue(r, i)| + 1 >= i && |Residue(r, i)| <= |r|
    ensures i < |r| ==> |Residue(r, i)| >= i
    decreases |r| - i
  {
    if i < |r| {
      ResidueLength(RemoveAt(r, i), i + 1);
    }
  }

  /** Leftovers vanish exactly if there is at most one. */
  lemma ResidueEmpty(r: seq<Sem>)
    ensures Residue(r, 0) == [] <==> |r| <= 1
  {
    if |r| >= 2 {
      var r1 := RemoveAt(r, 0);
      assert Residue(r, 0) == Residue(r1, 1);
      ResidueLength(r1, 1);
    } else if |r| == 1 {
      assert Residue(RemoveAt(r, 0), 1) == [];
    }
  }

  lemma {:induction false} OutcomeIff(from: Json, to: Json)
    requires WellFormed(from) && WellFormed(to)
    ensures Outcome(from, to) == Norm(to) <==> Shrinks(Norm(from), Norm(to))
    decreases from, 1, 0
  {
    if SameType(from, to) {
      match from
      case Array(items) =>
        ItemsIff(items, to.items);
      case Object(ms) =>
        var xs, ys := Sorted(ms), Sorted(to.members);
        SortedBelow(from);
        SortedObject(ms);
        SortedObject(to.members);
        MembersIff(xs, ys, from);
      case _ =>
    }
  }

  lemma {:induction false} ItemsIff(xs: seq<Json>, ys: seq<Json>)
    requires (forall i :: 0 <= i < |xs| ==> WellFormed(xs[i])) && (forall i :: 0 <= i < |ys| ==> WellFormed(ys[i]))
    ensures OutcomeItems(xs, ys) == NormItems(ys) <==> Shrinks(SArray(NormItems(xs)), SArray(NormItems(ys)))
    decreases xs, 0, 0
  {
    if xs == [] {
    } else if ys == [] {
      ResidueEmpty(NormItems(xs));
    } else {
      OutcomeIff(xs[0], ys[0]);
      ItemsIff(xs[1..], ys[1..]);
      NormTail(xs);
      NormTail(ys);
      ShrinksCons(Norm(xs[0]), Norm(ys[0]), NormItems(xs[1..]), NormItems(ys[1..]));
      var o := OutcomeItems(xs[1..], ys[1..]);
      assert ([Outcome(xs[0], ys[0])] + o)[1..] == o && ([Norm(ys[0])] + NormItems(ys[1..]))[1..] == NormItems(ys[1..]);
    }
  }

  lemma ShrinksItems(x: seq<Sem>, y: seq<Sem>)
    ensures Shrinks(SArray(x), SArray(y)) <==>
      |x| <= |y| + 1 && forall i :: 0 <= i < |x| && i < |y| ==> Shrinks(x[i], y[i])
  {
  }

  lemma ShrinksCons(a: Sem, b: Sem, xs: seq<Sem>, ys: seq<Sem>)
    ensures Shrinks(SArray([a] + xs), SArray([b] + ys)) <==> Shrinks(a, b) && Shrinks(SArray(xs), SArray(ys))
  {
    hide Shrinks;
    var x, y := [a] + xs, [b] + ys;
    ShrinksItems(x, y);
    ShrinksItems(xs, ys);
    assert x[0] == a && y[0] == b;
    assert forall i :: 1 <= i < |x| ==> x[i] == xs[i - 1];
    assert forall i :: 1 <= i < |y| ==> y[i] == ys[i - 1];
    assert forall i :: 0 <= i < |xs| ==> x[i + 1] == xs[i];
    assert forall i :: 0 <= i < |ys| ==> y[i + 1] == ys[i];
    if Shrinks(SArray(x), SArray(y)) {
      forall i | 0 <= i < |xs| && i < |ys|
        ensures Shrinks(xs[i], ys[i])
      {
        assert Shrinks(x[i + 1], y[i + 1]);
      }
      assert Shrinks(x[0], y[0]);
    }
    if Shrinks(a, b) && Shrinks(SArray(xs), SArray(ys)) {
      forall i | 0 <= i < |x| && i < |y|
        ensures Shrinks(x[i], y[i])
      {
        if i > 0 {
          assert Shrinks(xs[i - 1], ys[i - 1]);
        }
      }
    }
  }

  /** The pairwise condition on two maps. */
  ghost predicate ShrinksFields(m: map<string, Sem>, n: map<string, Sem>) {
    forall k :: k in m && k in n ==> Shrinks(m[k], n[k])
  }

  lemma FieldsBoth(m: map<string, Sem>, n: map<string, Sem>, k: string, x: Sem, y: Sem)
    requires k !in m && k !in n
    ensures ShrinksFields(m[k := x], n[k := y]) <==> Shrinks(x, y) && ShrinksFields(m, n)
  {
    hide Shrinks;
    if ShrinksFields(m[k := x], n[k := y]) {
      assert Shrinks(m[k := x][k], n[k := y][k]);
      forall q | q in m && q in n
        ensures Shrinks(m[q], n[q])
      {
        assert Shrinks(m[k := x][q], n[k := y][q]);
      }
    }
  }

  lemma FieldsOne(m: map<string, Sem>, n: map<string, Sem>, k: string, x: Sem)
    requires k !in m && k !in n
    ensures ShrinksFields(m[k := x], n) <==> ShrinksFields(m, n)
    ensures ShrinksFields(m, n[k := x]) <==> ShrinksFields(m, n)
  {
    hide Shrinks;
    if ShrinksFields(m[k := x], n) {
      forall q | q in m && q in n
        ensures Shrinks(m[q], n[q])
      {
        assert Shrinks(m[k := x][q], n[q]);
      }
    }
    if ShrinksFields(m, n[k := x]) {
      forall q | q in m && q in n
        ensures Shrinks(m[q], n[q])
      {
        assert Shrinks(m[q], n[k := x][q]);
      }
    }
  }

  lemma MapCancel(m: map<string, Sem>, n: map<string, Sem>, k: string, x: Sem, y: Sem)
    requires k !in m && k !in n
    ensures m[k := x] == n[k := y] <==> x == y && m == n
  {
    if m[k := x] == n[k := y] {
      assert m[k := x][k] == n[k := y][k];
      assert m == m[k := x] - {k} && n == n[k := y] - {k};
    }
  }

  lemma KeySetMap(ms: seq<Member>)
    requires WellFormedMembers(ms)
    ensures NormMembers(ms).Keys == KeySet(ms)
  {
    NormMembersHolds(ms);
    forall k | k in NormMembers(ms)
      ensures k in KeySet(ms)
    {
      assert HasKey(ms, k);
    }
  }

  lemma {:induction false} EmptyIff(xs: seq<Member>, ys: seq<Member>, root: Json)
    requires Below(xs, root) && (xs == [] || ys == [])
    ensures OutcomeMembers(xs, ys, root) == NormMembers(ys)
    ensures ShrinksFields(NormMembers(xs), NormMembers(ys))
    decreases |xs| + |ys|
  {
    if xs != [] {
      EmptyIff(xs[1..], ys, root);
    } else if ys != [] {
      EmptyIff(xs, ys[1..], root);
    }
  }

  lemma {:induction false} MembersIff(xs: seq<Member>, ys: seq<Member>, root: Json)
    requires Below(xs, root) && WellFormedMembers(xs) && WellFormedMembers(ys) && Ordered(xs) && Ordered(ys)
    ensures OutcomeMembers(xs, ys, root) == NormMembers(ys) <==> ShrinksFields(NormMembers(xs), NormMembers(ys))
    decreases root, 0, |xs| + |ys|
  {
    hide Shrinks, ShrinksFields, Norm, NormMembers, WellFormed, CaseCmp, Outcome, KeySet;
    if xs == [] || ys == [] {
      EmptyIff(xs, ys, root);
    } else {
      var k, l := Fold(xs[0].key), Fold(ys[0].key);
      TailMap(xs);
      TailMap(ys);
      var m, n := NormMembers(xs[1..]), NormMembers(ys[1..]);
      CaseCmpZero(xs[0].key, ys[0].key);
      if CaseCmp(xs[0].key, ys[0].key) == 0 {
        OutcomeIff(xs[0].value, ys[0].value);
        MembersIff(xs[1..], ys[1..], root);
        OutcomeKeys(xs[1..], ys[1..], root);
        KeySetMap(ys[1..]);
        FieldsBoth(m, n, k, Norm(xs[0].value), Norm(ys[0].value));
        MapCancel(OutcomeMembers(xs[1..], ys[1..], root), n, k, Outcome(xs[0].value, ys[0].value), Norm(ys[0].value));
      } else if CaseCmp(xs[0].key, ys[0].key) < 0 {
        MembersIff(xs[1..], ys, root);
        AbsentKey(xs[0].key, ys);
        KeySetMap(ys);
        FieldsOne(m, NormMembers(ys), k, Norm(xs[0].value));
      } else {
        MembersIff(xs, ys[1..], root);
        AbsentKey(ys[0].key, xs);
        KeySetMap(xs);
        OutcomeKeys(xs, ys[1..], root);
        KeySetMap(ys[1..]);
        FieldsOne(NormMembers(xs), n, l, Norm(ys[0].value));
        MapCancel(OutcomeMembers(xs, ys[1..], root), n, l, Norm(ys[0].value), Norm(ys[0].value));
      }
    }
  }

  // ---- whole documents

  predicate SameContainer(from: Json, to: Json) {
    (from.Array? && to.Array?) || (from.Object? && to.Object?)
  }

  /** For two arrays or two objects: the patch applies without error and leaves exactly the outcome. */
  lemma ContainerOutcome(from: Json, to: Json)
    requires Ready(from) && WellFormed(to) && SameContainer(from, to)
    ensures var r := ApplyAll(from, GeneratePatches(from, to).items);
      r.Applied? && r.err == 0 && WellFormed(r.doc) && Norm(r.doc) == Outcome(from, to)
  {
    hide ApplyAll, Outcome, SemApplyAll, AllPlaced, Sets, CompareToPatch, DoublesSome, AllPatches, Norm, WellFormed;
    hide Ready;
    var s, w := Norm(from), Outcome(from, to);
    var ps := CompareToPatch("", from, to);
    assert WellFormed(from) by { assert Ready(from); ReadyMeans(from); }
    RootEffect(from, to);
    RootSets(ps, s, w);
    PlacedNeverDoubles(s, ps);
    ApplyAllMeaning(from, ps);
  }

  lemma ReadyMeans(v: Json)
    requires Ready(v)
    ensures WellFormed(v) && Sized(v)
  {
  }

  lemma RootEffect(from: Json, to: Json)
    requires Ready(from) && WellFormed(to) && SameContainer(from, to)
    ensures Sets(CompareToPatch("", from, to), Norm(from), [], Outcome(from, to))
  {
    hide Outcome, Sets, CompareToPatch, NormMembers, WellFormedMembers;
    var s := Norm(from);
    assert Render([]) == "";
    if from.Array? {
      assert [] + NormItems(from.items) == NormItems(from.items);
      ItemsEffect(s, [], [], from.items, to.items);
      ArrayWalk(from, to);
    } else {
      ObjectEffect(s, [], from, to);
    }
  }

  lemma ArrayWalk(from: Json, to: Json)
    requires from.Array? && to.Array?
    ensures CompareToPatch("", from, to) == DiffItems("", from.items, to.items, 0)
    ensures Outcome(from, to) == SArray([] + OutcomeItems(from.items, to.items))
  {
    assert [] + OutcomeItems(from.items, to.items) == OutcomeItems(from.items, to.items);
  }

  lemma RootSets(ps: seq<Json>, s: Sem, w: Sem)
    requires Sets(ps, s, [], w)
    ensures AllPlaced(ps) && SemApplyAll(s, ps) == SemApplied(true, w)
  {
  }

  /** For any other pair the patch is empty or one replacement of the root, which has no child part. */
  lemma RootReplace(from: Json, to: Json)
    requires WellFormed(from) && WellFormed(to) && !SameContainer(from, to)
    ensures var r := ApplyAll(from, GeneratePatches(from, to).items);
      (r.Applied? && r.err == 0 && Norm(r.doc) == Norm(to)) <==> Norm(from) == Norm(to)
  {
    hide Norm, Sized, WellFormed;
    if CompareToPatch("", from, to) != [] {
      var p := MakePatch("replace", "", Some(to));
      ReplaceRoot(from, to);
      assert [p][1..] == [];
      ScalarDiff(from, to);
    } else {
      ScalarDiff(from, to);
    }
  }

  lemma ReplaceRoot(from: Json, to: Json)
    ensures ApplyPatch(from, MakePatch("replace", "", Some(to))) == AddValue(from, "", to)
    ensures LastSlash("") == None
  {
    hide AddValue, MakePatch;
    ItemsOfPatch("replace", "", Some(to));
    assert LastSlash("") == None;
    assert PatchDetach(from, "") == Detached(None, from);
  }

  lemma ScalarDiff(from: Json, to: Json)
    requires !SameContainer(from, to)
    ensures CompareToPatch("", from, to) == (if Norm(from) == Norm(to) then [] else Replace("", to))
    ensures from.Object? || to.Object? ==> Norm(from) != Norm(to)
    ensures from.Object? ==> !Norm(to).SObject?
    ensures from.Object? ==> forall ms :: Norm(Object(ms)).SObject?
  {
  }

  /** What a caller can check beforehand. */
  ghost predicate CanPatch(from: Json, to: Json) {
    if SameContainer(from, to) then Shrinks(Norm(from), Norm(to)) else Norm(from) == Norm(to)
  }

  /**
   * The round trip of section 4 of RFC 6902, for every pair of well-formed documents: applying
   * GeneratePatches(from, to) to a duplicate of `from` succeeds and gives `to` up to member order and key case
   * exactly if CanPatch holds.
   */
  lemma PatchRoundTrip(from: Json, to: Json)
    requires Ready(from) && WellFormed(to)
    ensures var r := ApplyAll(from, GeneratePatches(from, to).items);
      (r.Applied? && r.err == 0 && Norm(r.doc) == Norm(to)) <==> CanPatch(from, to)
  {
    hide ApplyAll, Outcome, Norm, Shrinks;
    if SameContainer(from, to) {
      ContainerOutcome(from, to);
      OutcomeIff(from, to);
    } else {
      RootReplace(from, to);
    }
  }

  lemma NumbersReady(n: int, m: int)
    ensures Ready(Array([Number(n), Number(m)])) && WellFormed(Array([]))
  {
    var items := [Number(n), Number(m)];
    assert WellFormed(Number(n)) && Sized(Number(n)) && WellFormed(Number(m)) && Sized(Number(m));
    assert items[0] == Number(n) && items[1] == Number(m);
    forall i | 0 <= i < |items|
      ensures WellFormed(items[i]) && Sized(items[i])
    {
    }
  }

  /** The smallest array the law fails for: the patch from [n, m] to [] leaves [m]. */
  lemma ShrinkByTwo(n: int, m: int)
    ensures var from, to := Array([Number(n), Number(m)]), Array([]);
      var r := ApplyAll(from, GeneratePatches(from, to).items);
      r.Applied? && r.err == 0 && Norm(r.doc) == SArray([SNumber(m)]) && !CanPatch(from, to)
  {
    hide ApplyAll, GeneratePatches, Ready, Outcome, Norm, Shrinks;
    var from, to := Array([Number(n), Number(m)]), Array([]);
    NumbersReady(n, m);
    ContainerOutcome(from, to);
    NumbersOutcome(n, m);
  }

  lemma NumbersOutcome(n: int, m: int)
    ensures var from, to := Array([Number(n), Number(m)]), Array([]);
      Outcome(from, to) == SArray([SNumber(m)]) && !CanPatch(from, to)
  {
    var from := Array([Number(n), Number(m)]);
    var r := [SNumber(n), SNumber(m)];
    NormTail(from.items);
    NormTail([Number(m)]);
    assert from.items[1..] == [Number(m)];
    assert NormItems(from.items) == r;
    assert RemoveAt(r, 0) == [SNumber(m)];
    assert Residue([SNumber(m)], 1) == [SNumber(m)];
  }
}
