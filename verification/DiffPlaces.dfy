/** Which patches the generator writes: none for equal documents, and none for a place where nothing differs. */
module DiffPlaces {
  import opened CStrings
  import opened JsonValue
  import opened Decimal
  import opened Pointer
  import opened ChildList
  import opened Compare
  import opened Patch
  import opened PatchMeaning
  import opened Diff
  import opened PatchRoundTrip

  // ---- no patch exactly for equal documents

  /** The generator writes nothing exactly where the comparison finds no difference. */
  lemma {:induction false} NothingToWrite(path: string, from: Json, to: Json)
    ensures CompareToPatch(path, from, to) == [] <==> CompareCode(from, to) == 0
    decreases from, 1, 0
  {
    if SameType(from, to) {
      match from
      case Array(items) => NoItems(path, items, to.items, 0);
      case Object(ms) =>
        SortedBelow(from);
        NoMembers(path, Sorted(ms), Sorted(to.members), from);
      case _ =>
    }
  }

  lemma {:induction false} NoItems(path: string, xs: seq<Json>, ys: seq<Json>, c: nat)
    ensures DiffItems(path, xs, ys, c) == [] <==> CompareItems(xs, ys) == 0
    decreases xs, 0, 0
  {
    hide CompareToPatch, CompareCode;
    if xs != [] && ys != [] {
      NothingToWrite(path + "/" + Digits(c), xs[0], ys[0]);
      NoItems(path, xs[1..], ys[1..], c + 1);
    }
  }

  lemma {:induction false} NoMembers(path: string, xs: seq<Member>, ys: seq<Member>, root: Json)
    requires Below(xs, root)
    ensures DiffMembers(path, xs, ys, root) == [] <==> CompareMembers(xs, ys, root) == 0
    decreases root, 0, |xs| + |ys|
  {
    hide CompareToPatch, CompareCode, CaseCmp;
    if xs != [] && ys != [] && CaseCmp(xs[0].key, ys[0].key) == 0 {
      NothingToWrite(path + "/" + Escape(xs[0].key), xs[0].value, ys[0].value);
      NoMembers(path, xs[1..], ys[1..], root);
    }
  }

  /** At every path, for all well-formed documents: no patch is written exactly if they mean the same. */
  lemma EmptyExactly(path: string, from: Json, to: Json)
    requires WellFormed(from) && WellFormed(to)
    ensures CompareToPatch(path, from, to) == [] <==> Norm(from) == Norm(to)
  {
    hide CompareToPatch, CompareCode;
    NothingToWrite(path, from, to);
    CompareZero(from, to);
  }

  // ---- what a patch says about the place it names

  predicate SameKind(a: Sem, b: Sem) {
    (a.SArray? && b.SArray?) || (a.SObject? && b.SObject?)
  }

  /** The value at `base` is replaced by the new one, which is another, and not a container of the same kind. */
  ghost predicate Replaces(p: Json, base: seq<string>, a: Sem, b: Sem) {
    && a != b && !SameKind(a, b)
    && exists v :: p == MakePatch("replace", Render(base), Some(v)) && Norm(v) == b
  }

  /** A child of `base` is removed that the new value does not have. */
  ghost predicate Removes(p: Json, base: seq<string>, a: Sem, b: Sem) {
    exists t :: p == MakePatch("remove", Render(base) + "/" + t, None) && Step(a, t).Some? && Step(b, t).None?
  }

  /** A child of `base` is added that the old value does not have: a member by its name, an item at the end. */
  ghost predicate Adds(p: Json, base: seq<string>, a: Sem, b: Sem) {
    exists t, v :: p == MakePatch("add", Render(base) + "/" + t, Some(v)) && NewChild(a, b, t, Norm(v))
  }

  ghost predicate NewChild(a: Sem, b: Sem, t: string, w: Sem) {
    if a.SObject? then Step(a, t).None? && Step(b, t) == Some(w)
    else t == "-" && a.SArray? && b.SArray? && exists k :: |a.items| <= k < |b.items| && b.items[k] == w
  }

  /** The patch tells a difference between `a` and `b`, the old and the new value at `base`. */
  ghost predicate Tells(p: Json, base: seq<string>, a: Sem, b: Sem) {
    Replaces(p, base, a, b) || (SameKind(a, b) && (Removes(p, base, a, b) || Adds(p, base, a, b)))
  }

  ghost predicate TellsAt(p: Json, base: seq<string>, a: Sem, b: Sem, q: seq<string>) {
    && SemAt(a, q).Some? && SemAt(b, q).Some?
    && Tells(p, base + q, SemAt(a, q).value, SemAt(b, q).value)
  }

  /** It tells a difference at a place below, to which the same tokens lead in both values. */
  ghost predicate Justified(p: Json, base: seq<string>, a: Sem, b: Sem) {
    exists q :: TellsAt(p, base, a, b, q)
  }

  ghost predicate AllJustified(ps: seq<Json>, base: seq<string>, a: Sem, b: Sem) {
    forall i :: 0 <= i < |ps| ==> Justified(ps[i], base, a, b)
  }

  lemma TellsHere(p: Json, base: seq<string>, a: Sem, b: Sem)
    requires Tells(p, base, a, b)
    ensures Justified(p, base, a, b) && AllJustified([p], base, a, b)
  {
    hide Tells;
    assert base + [] == base;
    assert TellsAt(p, base, a, b, []);
  }

  lemma BothJustified(ps: seq<Json>, qs: seq<Json>, base: seq<string>, a: Sem, b: Sem)
    requires AllJustified(ps, base, a, b) && AllJustified(qs, base, a, b)
    ensures AllJustified(ps + qs, base, a, b)
  {
    hide Justified;
  }

  /** From a child to its parents. */
  lemma JustifiedAbove(ps: seq<Json>, base: seq<string>, t: string, a: Sem, b: Sem)
    requires Step(a, t).Some? && Step(b, t).Some?
    requires AllJustified(ps, base + [t], Step(a, t).value, Step(b, t).value)
    ensures AllJustified(ps, base, a, b)
  {
    hide Tells, Step;
    forall i | 0 <= i < |ps|
      ensures Justified(ps[i], base, a, b)
    {
      var x, y := Step(a, t).value, Step(b, t).value;
      assert Justified(ps[i], base + [t], x, y);
      var q :| TellsAt(ps[i], base + [t], x, y, q);
      assert ([t] + q)[1..] == q && base + ([t] + q) == (base + [t]) + q;
      assert TellsAt(ps[i], base, a, b, [t] + q);
    }
  }

  // ---- two objects of which only some members are looked at

  /** `m` and `n` agree with `m'` and `n'` on the members looked at, and have no others in common with them. */
  ghost predicate Extends(m': map<string, Sem>, n': map<string, Sem>, m: map<string, Sem>, n: map<string, Sem>) {
    && (forall k :: k in m' ==> k in m && m[k] == m'[k] && (k in n ==> k in n'))
    && (forall k :: k in n' ==> k in n && n[k] == n'[k] && (k in m ==> k in m'))
  }

  lemma StepExtends(m': map<string, Sem>, n': map<string, Sem>, m: map<string, Sem>, n: map<string, Sem>, t: string)
    requires Extends(m', n', m, n)
    ensures Step(SObject(m'), t).Some? ==>
      Step(SObject(m), t) == Step(SObject(m'), t) && Step(SObject(n), t) == Step(SObject(n'), t)
    ensures Step(SObject(n'), t).Some? ==>
      Step(SObject(m), t) == Step(SObject(m'), t) && Step(SObject(n), t) == Step(SObject(n'), t)
  {
  }

  lemma TellsExtends(p: Json, base: seq<string>, m': map<string, Sem>, n': map<string, Sem>,
                     m: map<string, Sem>, n: map<string, Sem>)
    requires Extends(m', n', m, n) && Tells(p, base, SObject(m'), SObject(n'))
    ensures Tells(p, base, SObject(m), SObject(n))
  {
    hide Step, MakePatch, Render, Extends;
    var a', b', a, b := SObject(m'), SObject(n'), SObject(m), SObject(n);
    if Removes(p, base, a', b') {
      var t :| p == MakePatch("remove", Render(base) + "/" + t, None) && Step(a', t).Some? && Step(b', t).None?;
      StepExtends(m', n', m, n, t);
      assert Removes(p, base, a, b);
    } else {
      var t, v :| p == MakePatch("add", Render(base) + "/" + t, Some(v)) && NewChild(a', b', t, Norm(v));
      StepExtends(m', n', m, n, t);
      assert NewChild(a, b, t, Norm(v));
      assert Adds(p, base, a, b);
    }
  }

  lemma JustifiedExtends(ps: seq<Json>, base: seq<string>, m': map<string, Sem>, n': map<string, Sem>,
                         m: map<string, Sem>, n: map<string, Sem>)
    requires Extends(m', n', m, n) && AllJustified(ps, base, SObject(m'), SObject(n'))
    ensures AllJustified(ps, base, SObject(m), SObject(n))
  {
    hide Tells, Step, Extends;
    var a', b', a, b := SObject(m'), SObject(n'), SObject(m), SObject(n);
    forall i | 0 <= i < |ps|
      ensures Justified(ps[i], base, a, b)
    {
      assert Justified(ps[i], base, a', b');
      var q :| TellsAt(ps[i], base, a', b', q);
      if q == [] {
        TellsExtends(ps[i], base + q, m', n', m, n);
      } else {
        StepExtends(m', n', m, n, q[0]);
      }
      assert TellsAt(ps[i], base, a, b, q);
    }
  }

  // ---- the walk

  /** Every patch written for two documents tells a difference between them. */
  lemma {:induction false} PatchesJustified(tokens: seq<string>, from: Json, to: Json)
    requires Ready(from) && WellFormed(to) && PlainTokens(tokens)
    ensures AllJustified(CompareToPatch(Render(tokens), from, to), tokens, Norm(from), Norm(to))
    decreases from, 1, 0
  {
    hide AllJustified, Justified, Render, MakePatch, PlainTokens, DiffItems, DiffMembers;
    var path := Render(tokens);
    NoneJustified(tokens, Norm(from), Norm(to));
    if !SameType(from, to) || (!from.Array? && !from.Object?) {
      if CompareToPatch(path, from, to) != [] {
        ReplaceTells(tokens, from, to);
      }
    } else if from.Array? {
      ItemsJustified(tokens, from, to, 0);
    } else {
      ObjectJustified(tokens, from, to);
    }
  }

  lemma NoneJustified(base: seq<string>, a: Sem, b: Sem)
    ensures AllJustified([], base, a, b)
  {
  }

  lemma ReplaceTells(tokens: seq<string>, from: Json, to: Json)
    requires WellFormed(from) && WellFormed(to) && (!SameType(from, to) || (!from.Array? && !from.Object?))
    requires CompareToPatch(Render(tokens), from, to) != []
    ensures CompareToPatch(Render(tokens), from, to) == [MakePatch("replace", Render(tokens), Some(to))]
    ensures AllJustified([MakePatch("replace", Render(tokens), Some(to))], tokens, Norm(from), Norm(to))
  {
    hide Render, MakePatch;
    var p := MakePatch("replace", Render(tokens), Some(to));
    EmptyExactly(Render(tokens), from, to);
    assert Replaces(p, tokens, Norm(from), Norm(to));
    TellsHere(p, tokens, Norm(from), Norm(to));
  }

  /** The array loops from index `c` on. */
  lemma {:induction false} ItemsJustified(tokens: seq<string>, from: Json, to: Json, c: nat)
    requires from.Array? && to.Array? && Ready(from) && WellFormed(to) && PlainTokens(tokens)
    requires c <= |from.items| && c <= |to.items|
    ensures AllJustified(DiffItems(Render(tokens), from.items[c..], to.items[c..], c), tokens, Norm(from), Norm(to))
    decreases from, 0, |from.items| - c
  {
    hide AllJustified, Justified, Render, MakePatch, PlainTokens, DiffItems, AddPatches, RemovePatches, CompareToPatch;
    hide Norm, WellFormed, Sized, Step;
    var xs, ys := from.items[c..], to.items[c..];
    ItemsUnfold(Render(tokens), xs, ys, c);
    if xs == [] {
      AddedJustified(tokens, from, to, c);
    } else if ys == [] {
      RemovedJustified(tokens, from, to, c);
    } else {
      assert xs[1..] == from.items[c + 1..] && ys[1..] == to.items[c + 1..];
      ItemsJustified(tokens, from, to, c + 1);
      ChildReady(from, to, c);
      var t := Digits(c);
      RenderSnoc(tokens, t);
      PlainSnoc(tokens, t);
      PatchesJustified(tokens + [t], from.items[c], to.items[c]);
      JustifiedAbove(CompareToPatch(Render(tokens) + "/" + t, xs[0], ys[0]), tokens, t, Norm(from), Norm(to));
      BothJustified(CompareToPatch(Render(tokens) + "/" + t, xs[0], ys[0]),
                    DiffItems(Render(tokens), xs[1..], ys[1..], c + 1),
                    tokens, Norm(from), Norm(to));
    }
  }

  lemma ChildReady(from: Json, to: Json, c: nat)
    requires from.Array? && to.Array? && Ready(from) && WellFormed(to) && c < |from.items| && c < |to.items|
    ensures Ready(from.items[c]) && WellFormed(to.items[c]) && from.items[c] < from
    ensures SlashFree(Digits(c)) && NulFree(Digits(c))
    ensures Step(Norm(from), Digits(c)) == Some(Norm(from.items[c]))
    ensures Step(Norm(to), Digits(c)) == Some(Norm(to.items[c]))
  {
    hide Digits, Decode, Atoi;
    IndexToken(c);
  }

  lemma {:induction false} AddedJustified(tokens: seq<string>, from: Json, to: Json, c: nat)
    requires from.Array? && to.Array? && |from.items| <= c <= |to.items|
    ensures AllJustified(AddPatches(Render(tokens), to.items[c..]), tokens, Norm(from), Norm(to))
    decreases |to.items| - c
  {
    hide AllJustified, Justified, Render, MakePatch;
    var ys := to.items[c..];
    if ys == [] {
      NoneJustified(tokens, Norm(from), Norm(to));
    } else {
      DashToken();
      var p := MakePatch("add", Render(tokens) + "/" + "-", Some(ys[0]));
      assert NewChild(Norm(from), Norm(to), "-", Norm(ys[0])) by { assert Norm(to).items[c] == Norm(ys[0]); }
      assert Adds(p, tokens, Norm(from), Norm(to));
      TellsHere(p, tokens, Norm(from), Norm(to));
      assert ys[1..] == to.items[c + 1..];
      AddedJustified(tokens, from, to, c + 1);
      BothJustified([p], AddPatches(Render(tokens), ys[1..]), tokens, Norm(from), Norm(to));
    }
  }

  lemma {:induction false} RemovedJustified(tokens: seq<string>, from: Json, to: Json, c: nat)
    requires from.Array? && to.Array? && Sized(from) && |to.items| <= c <= |from.items|
    ensures AllJustified(RemovePatches(Render(tokens), c, |from.items| - c), tokens, Norm(from), Norm(to))
    decreases |from.items| - c
  {
    hide AllJustified, Justified, Render, MakePatch, Sized, Digits, Escape;
    if c == |from.items| {
      NoneJustified(tokens, Norm(from), Norm(to));
    } else {
      IndexFits(from, c);
      IndexToken(c);
      var p := MakePatch("remove", Render(tokens) + "/" + Digits(c), None);
      assert Removes(p, tokens, Norm(from), Norm(to));
      TellsHere(p, tokens, Norm(from), Norm(to));
      RemovedJustified(tokens, from, to, c + 1);
      BothJustified([p], RemovePatches(Render(tokens), c + 1, |from.items| - c - 1), tokens, Norm(from), Norm(to));
    }
  }

  lemma IndexFits(v: Json, c: nat)
    requires v.Array? && Sized(v) && c < |v.items|
    ensures c <= INT_MAX
  {
  }

  lemma ObjectJustified(tokens: seq<string>, from: Json, to: Json)
    requires from.Object? && to.Object? && Ready(from) && WellFormed(to) && PlainTokens(tokens)
    ensures AllJustified(CompareToPatch(Render(tokens), from, to), tokens, Norm(from), Norm(to))
    decreases from, 0, |from.members| + |to.members| + 1
  {
    hide AllJustified, Render, PlainTokens, DiffMembers;
    var xs, ys := Sorted(from.members), Sorted(to.members);
    SortedBelow(from);
    SortedObject(from.members);
    SortedObject(to.members);
    SortedReady(from);
    MembersJustified(tokens, xs, ys, from);
  }

  /** The object walk, told of the members that remain. */
  lemma {:induction false} MembersJustified(tokens: seq<string>, xs: seq<Member>, ys: seq<Member>, root: Json)
    requires Below(xs, root) && Walkable(xs, ys) && PlainTokens(tokens)
    ensures AllJustified(DiffMembers(Render(tokens), xs, ys, root), tokens,
                         SObject(NormMembers(xs)), SObject(NormMembers(ys)))
    decreases root, 0, |xs| + |ys|
  {
    hide AllJustified, Justified, Render, MakePatch, PlainTokens, DiffMembers, CompareToPatch, CaseCmp, NormMembers;
    hide Walkable, Escape, Norm, Extends;
    var path := Render(tokens);
    var m, n := NormMembers(xs), NormMembers(ys);
    if xs == [] && ys == [] {
      NoMembersLeft(path, root);
      NoneJustified(tokens, SObject(m), SObject(n));
      return;
    }
    WalkUnfold(path, xs, ys, root);
    TailWalkable(xs, ys);
    var diff := if xs == [] then 1 else if ys == [] then -1 else CaseCmp(xs[0].key, ys[0].key);
    var ps, xs', ys';
    if diff == 0 {
      xs', ys' := xs[1..], ys[1..];
      TailWalkable(xs', ys);
      ps := CompareToPatch(path + "/" + Escape(xs[0].key), xs[0].value, ys[0].value);
      HeadReady(xs, ys);
      HeadStep(xs, ys);
      RenderSnoc(tokens, Escape(xs[0].key));
      PlainSnoc(tokens, Escape(xs[0].key));
      PatchesJustified(tokens + [Escape(xs[0].key)], xs[0].value, ys[0].value);
      JustifiedAbove(ps, tokens, Escape(xs[0].key), SObject(m), SObject(n));
    } else if diff < 0 {
      xs', ys' := xs[1..], ys;
      ps := [MakePatch("remove", path + "/" + Escape(xs[0].key), None)];
      DropTells(tokens, xs, ys);
    } else {
      xs', ys' := xs, ys[1..];
      ps := [MakePatch("add", path + "/" + Escape(ys[0].key), Some(ys[0].value))];
      AddTells(tokens, xs, ys);
    }
    WalkExtends(xs, ys, xs', ys');
    MembersJustified(tokens, xs', ys', root);
    JustifiedExtends(DiffMembers(path, xs', ys', root), tokens, NormMembers(xs'), NormMembers(ys'), m, n);
    BothJustified(ps, DiffMembers(path, xs', ys', root), tokens, SObject(m), SObject(n));
  }

  lemma NoMembersLeft(path: string, root: Json)
    ensures DiffMembers(path, [], [], root) == []
  {
  }

  lemma HeadReady(xs: seq<Member>, ys: seq<Member>)
    requires Walkable(xs, ys) && xs != [] && ys != []
    ensures Ready(xs[0].value) && WellFormed(ys[0].value)
    ensures SlashFree(Escape(xs[0].key)) && NulFree(Escape(xs[0].key))
  {
    hide WellFormed, CaseCmp, Escape;
    KeyToken(xs[0].key);
  }

  /** What the walk has passed over has no key in common with what remains. */
  lemma WalkExtends(xs: seq<Member>, ys: seq<Member>, xs': seq<Member>, ys': seq<Member>)
    requires Walkable(xs, ys) && (xs != [] || ys != [])
    requires var diff := if xs == [] then 1 else if ys == [] then -1 else CaseCmp(xs[0].key, ys[0].key);
      && (diff == 0 ==> xs' == xs[1..] && ys' == ys[1..])
      && (diff < 0 ==> xs' == xs[1..] && ys' == ys)
      && (diff > 0 ==> xs' == xs && ys' == ys[1..])
    ensures Extends(NormMembers(xs'), NormMembers(ys'), NormMembers(xs), NormMembers(ys))
  {
    hide WellFormed, CaseCmp, Norm, NormMembers, Sized, Fold, KeySet, Extends, Ordered, WellFormedMembers;
    var diff := if xs == [] then 1 else if ys == [] then -1 else CaseCmp(xs[0].key, ys[0].key);
    WalkKeys(xs, ys);
    if xs != [] && ys != [] {
      CaseCmpZero(xs[0].key, ys[0].key);
    }
    if diff == 0 {
      TailMap(xs);
      TailMap(ys);
      ExtendBoth(NormMembers(xs'), NormMembers(ys'), Fold(xs[0].key), Norm(xs[0].value), Norm(ys[0].value));
    } else if diff < 0 {
      TailMap(xs);
      AbsentKey(xs[0].key, ys);
      KeySetMap(ys);
      ExtendOne(NormMembers(xs'), NormMembers(ys'), Fold(xs[0].key), Norm(xs[0].value));
    } else {
      TailMap(ys);
      AbsentKey(ys[0].key, xs);
      KeySetMap(xs);
      ExtendOne(NormMembers(xs'), NormMembers(ys'), Fold(ys[0].key), Norm(ys[0].value));
    }
  }

  lemma WalkKeys(xs: seq<Member>, ys: seq<Member>)
    requires Walkable(xs, ys)
    ensures WellFormedMembers(xs) && WellFormedMembers(ys) && Ordered(xs) && Ordered(ys)
    ensures NulFreeKeys(xs) && NulFreeKeys(ys)
  {
  }

  lemma ExtendBoth(m: map<string, Sem>, n: map<string, Sem>, k: string, x: Sem, y: Sem)
    requires k !in m && k !in n
    ensures Extends(m, n, m[k := x], n[k := y])
  {
  }

  lemma ExtendOne(m: map<string, Sem>, n: map<string, Sem>, k: string, x: Sem)
    requires k !in m && k !in n
    ensures Extends(m, n, m[k := x], n) && Extends(m, n, m, n[k := x])
  {
  }

  lemma HeadStep(xs: seq<Member>, ys: seq<Member>)
    requires Walkable(xs, ys) && xs != [] && ys != [] && CaseCmp(xs[0].key, ys[0].key) == 0
    ensures Step(SObject(NormMembers(xs)), Escape(xs[0].key)) == Some(Norm(xs[0].value))
    ensures Step(SObject(NormMembers(ys)), Escape(xs[0].key)) == Some(Norm(ys[0].value))
  {
    hide CaseCmp, Escape;
    CaseCmpZero(xs[0].key, ys[0].key);
    UnescapeEscape(xs[0].key);
  }

  lemma DropTells(tokens: seq<string>, xs: seq<Member>, ys: seq<Member>)
    requires Walkable(xs, ys) && xs != [] && (ys == [] || CaseCmp(xs[0].key, ys[0].key) < 0)
    ensures AllJustified([MakePatch("remove", Render(tokens) + "/" + Escape(xs[0].key), None)], tokens,
                         SObject(NormMembers(xs)), SObject(NormMembers(ys)))
  {
    hide CaseCmp, Escape, MakePatch, Render, AllJustified, Justified, Norm, KeySet;
    var a, b := SObject(NormMembers(xs)), SObject(NormMembers(ys));
    var p := MakePatch("remove", Render(tokens) + "/" + Escape(xs[0].key), None);
    UnescapeEscape(xs[0].key);
    AbsentKey(xs[0].key, ys);
    KeySetMap(ys);
    assert Step(a, Escape(xs[0].key)).Some? && Step(b, Escape(xs[0].key)).None?;
    assert Removes(p, tokens, a, b);
    TellsHere(p, tokens, a, b);
  }

  lemma AddTells(tokens: seq<string>, xs: seq<Member>, ys: seq<Member>)
    requires Walkable(xs, ys) && ys != [] && (xs == [] || CaseCmp(xs[0].key, ys[0].key) > 0)
    ensures AllJustified([MakePatch("add", Render(tokens) + "/" + Escape(ys[0].key), Some(ys[0].value))], tokens,
                         SObject(NormMembers(xs)), SObject(NormMembers(ys)))
  {
    hide CaseCmp, Escape, MakePatch, Render, AllJustified, Justified, Norm, KeySet;
    var a, b := SObject(NormMembers(xs)), SObject(NormMembers(ys));
    var p := MakePatch("add", Render(tokens) + "/" + Escape(ys[0].key), Some(ys[0].value));
    UnescapeEscape(ys[0].key);
    if xs != [] {
      CaseCmpZero(xs[0].key, ys[0].key);
    }
    AbsentKey(ys[0].key, xs);
    KeySetMap(xs);
    assert NewChild(a, b, Escape(ys[0].key), Norm(ys[0].value));
    assert Adds(p, tokens, a, b);
    TellsHere(p, tokens, a, b);
  }

  // ---- no patch is idle

  /** Every patch succeeds and changes the document it meets. */
  ghost predicate Changes(s: Sem, ps: seq<Json>)
    decreases |ps|
  {
    ps == [] ||
    (var r := SemApply(s, ps[0]);
     r.SemApplied? && r.ok && r.doc != s && Changes(r.doc, ps[1..]))
  }

  lemma {:induction false} ChangesAppend(s: Sem, ps: seq<Json>, qs: seq<Json>)
    requires SemApplyAll(s, ps).SemApplied? && SemApplyAll(s, ps).ok
    ensures Changes(s, ps + qs) <==> Changes(s, ps) && Changes(SemApplyAll(s, ps).doc, qs)
    decreases |ps|
  {
    hide SemApply;
    if ps == [] {
      assert ps + qs == qs;
    } else {
      assert (ps + qs)[0] == ps[0] && (ps + qs)[1..] == ps[1..] + qs;
      ChangesAppend(SemApply(s, ps[0]).doc, ps[1..], qs);
    }
  }

  /** After patches that set a place to `w`, the rest goes on from there. */
  lemma ChangesThen(ps: seq<Json>, qs: seq<Json>, s: Sem, tokens: seq<string>, w: Sem)
    requires Sets(ps, s, tokens, w)
    ensures Changes(s, ps + qs) <==> Changes(s, ps) && Changes(SemSet(s, tokens, w), qs)
  {
    hide Changes, SemApplyAll, SemSet;
    ChangesAppend(s, ps, qs);
  }

  lemma ChangesOne(p: Json, s: Sem, tokens: seq<string>, w: Sem)
    requires Sets([p], s, tokens, w)
    ensures Changes(s, [p]) <==> SemAt(s, tokens).value != w
  {
    hide SemApply, SemSet, SemAt, Placed;
    assert [p][1..] == [];
    var r := SemApply(s, p);
    assert r.SemApplied? ==> SemApplyAll(r.doc, []) == SemApplied(true, r.doc) && Changes(r.doc, []);
    assert SemApplyAll(s, [p]) == SemApplied(true, SemSet(s, tokens, w));
    SetTwice(s, tokens, w, w);
    SetAtSame(s, tokens);
  }

  lemma ChangesNone(s: Sem)
    ensures Changes(s, [])
  {
  }

  /** Removals at growing indices: all of them find something exactly if the last one does. */
  lemma {:induction false} RemovesChange(s: Sem, tokens: seq<string>, c: nat, n: nat, done: seq<Sem>,
                                         r: seq<Sem>, i: nat)
    requires PlainTokens(tokens) && SemAt(s, tokens) == Some(SArray(done + r))
    requires c == |done| + i && n >= |r| - i && c + n <= INT_MAX + 1
    ensures Changes(s, RemovePatches(Render(tokens), c, n)) <==> n == 0 || i + 2 * (n - 1) < |r|
    decreases n
  {
    hide SemApply, Placed, Render, Escape, Digits, SemAt, SemSet, MakePatch, Changes, Sets, PlainTokens;
    if n == 0 {
      ChangesNone(s);
    } else {
      var p := MakePatch("remove", Render(tokens) + "/" + Escape(Digits(c)), None);
      var r' := Without(r, i);
      RemoveOne(s, tokens, c, done, r, i);
      SetsOne(p, s, tokens, SArray(done + r'));
      ChangesOne(p, s, tokens, SArray(done + r'));
      assert (done + r)[|done|..] == r && (done + r')[|done|..] == r';
      SetsReads([p], s, tokens, SArray(done + r'));
      RemovesChange(SemSet(s, tokens, SArray(done + r')), tokens, c + 1, n - 1, done, r', i + 1);
      ChangesThen([p], RemovePatches(Render(tokens), c + 1, n - 1), s, tokens, SArray(done + r'));
    }
  }

  lemma {:induction false} AddsChange(s: Sem, tokens: seq<string>, done: seq<Sem>, ys: seq<Json>)
    requires PlainTokens(tokens) && SemAt(s, tokens) == Some(SArray(done))
    requires forall i :: 0 <= i < |ys| ==> WellFormed(ys[i])
    ensures Changes(s, AddPatches(Render(tokens), ys))
    decreases |ys|
  {
    hide SemApply, Placed, Render, Norm, SemAt, SemSet, MakePatch, Escape, Decode, Changes, Sets, PlainTokens;
    hide WellFormed;
    if ys == [] {
      ChangesNone(s);
    } else {
      DashToken();
      var p, done' := MakePatch("add", Render(tokens) + "/" + "-", Some(ys[0])), done + [Norm(ys[0])];
      AppendSets(s, tokens, done, ys[0]);
      ChangesOne(p, s, tokens, SArray(done'));
      SetsReads([p], s, tokens, SArray(done'));
      AddsChange(SemSet(s, tokens, SArray(done')), tokens, done', ys[1..]);
      ChangesThen([p], AddPatches(Render(tokens), ys[1..]), s, tokens, SArray(done'));
    }
  }

  lemma AppendSets(s: Sem, tokens: seq<string>, done: seq<Sem>, y: Json)
    requires PlainTokens(tokens) && SemAt(s, tokens) == Some(SArray(done)) && WellFormed(y)
    ensures Sets([MakePatch("add", Render(tokens) + "/" + "-", Some(y))], s, tokens, SArray(done + [Norm(y)]))
  {
    hide SemApply, Placed, Render, Norm, SemAt, SemSet, MakePatch, Escape, Decode;
    DashToken();
    var p := MakePatch("add", Render(tokens) + "/" + "-", Some(y));
    AddEffect(s, p, tokens, "-", "-", y);
    SetsOne(p, s, tokens, SArray(done + [Norm(y)]));
  }

  /** The patches for a child all change the document exactly if they turn the child into the new one. */
  lemma {:induction false} DiffChanges(s: Sem, tokens: seq<string>, t: string, child: string, from: Json, to: Json)
    requires Ready(from) && WellFormed(to)
    requires PlainTokens(tokens) && SlashFree(t) && NulFree(t) && Decode(t) == Some(child)
    requires SemAt(s, tokens).Some? && Step(SemAt(s, tokens).value, t) == Some(Norm(from))
    requires ChildToken(SemAt(s, tokens).value, t, child)
    ensures Changes(s, CompareToPatch(Render(tokens) + "/" + t, from, to)) <==> Outcome(from, to) == Norm(to)
    decreases from, 1, 0
  {
    hide SemApply, Placed, Render, SemAt, SemSet, Step, ChildToken, Decode, SemApplyAll, AllPlaced, MakePatch, Changes;
    hide Sets, PlainTokens, NormItems, OutcomeItems, SlashFree, NulFree, DiffItems, OutcomeMembers, DiffMembers;
    var path := Render(tokens) + "/" + t;
    AtSnoc(s, tokens, t);
    RenderSnoc(tokens, t);
    PlainSnoc(tokens, t);
    ChangesNone(s);
    if SameType(from, to) && from.Array? {
      assert [] + NormItems(from.items) == NormItems(from.items);
      ItemsChange(s, tokens + [t], [], from.items, to.items);
    } else if SameType(from, to) && from.Object? {
      ObjectChanges(s, tokens + [t], from, to);
    } else if CompareToPatch(path, from, to) != [] {
      EmptyExactly(path, from, to);
      ReplaceEffect(s, MakePatch("replace", path, Some(to)), tokens, t, child, to);
      SetsOne(MakePatch("replace", path, Some(to)), s, tokens + [t], Norm(to));
      ChangesOne(MakePatch("replace", path, Some(to)), s, tokens + [t], Norm(to));
    }
  }

  lemma {:induction false} ItemsChange(s: Sem, tokens: seq<string>, done: seq<Sem>, xs: seq<Json>, ys: seq<Json>)
    requires PlainTokens(tokens) && SemAt(s, tokens) == Some(SArray(done + NormItems(xs)))
    requires |done| + |xs| <= INT_MAX + 1
    requires (forall i :: 0 <= i < |xs| ==> Ready(xs[i])) && (forall i :: 0 <= i < |ys| ==> WellFormed(ys[i]))
    ensures Changes(s, DiffItems(Render(tokens), xs, ys, |done|)) <==> OutcomeItems(xs, ys) == NormItems(ys)
    decreases xs, 0, 0
  {
    hide Render, SemAt, SemSet, Sets, Ready, WellFormed, Norm, Digits, Changes, PlainTokens;
    hide CompareToPatch, Outcome, Residue, AddPatches, RemovePatches, DiffItems, OutcomeItems;
    var c := |done|;
    ItemsUnfold(Render(tokens), xs, ys, c);
    if xs == [] {
      assert NormItems(xs) == [] && done + [] == done;
      AddsChange(s, tokens, done, ys);
    } else if ys == [] {
      RemovesChange(s, tokens, c, |xs|, done, NormItems(xs), 0);
      ResidueEmpty(NormItems(xs));
      assert NormItems(ys) == [];
    } else {
      var o := Outcome(xs[0], ys[0]);
      var next, ps := done + [o], CompareToPatch(Render(tokens) + "/" + Digits(c), xs[0], ys[0]);
      var w := SArray(next + NormItems(xs[1..]));
      ItemEffect(s, tokens, done, xs, ys[0]);
      ItemChanges(s, tokens, done, xs, ys[0]);
      SetsReads(ps, s, tokens, w);
      ItemsChange(SemSet(s, tokens, w), tokens, next, xs[1..], ys[1..]);
      ChangesThen(ps, DiffItems(Render(tokens), xs[1..], ys[1..], c + 1), s, tokens, w);
      NormTail(ys);
      ConsEqual(o, OutcomeItems(xs[1..], ys[1..]), Norm(ys[0]), NormItems(ys[1..]));
    }
  }

  lemma ConsEqual(a: Sem, x: seq<Sem>, b: Sem, y: seq<Sem>)
    ensures [a] + x == [b] + y <==> a == b && x == y
  {
    if [a] + x == [b] + y {
      assert ([a] + x)[0] == a && ([b] + y)[0] == b && ([a] + x)[1..] == x && ([b] + y)[1..] == y;
    }
  }

  lemma ItemChanges(s: Sem, tokens: seq<string>, done: seq<Sem>, xs: seq<Json>, y: Json)
    requires PlainTokens(tokens) && SemAt(s, tokens) == Some(SArray(done + NormItems(xs)))
    requires xs != [] && |done| <= INT_MAX && Ready(xs[0]) && WellFormed(y)
    ensures Changes(s, CompareToPatch(Render(tokens) + "/" + Digits(|done|), xs[0], y)) <==>
      Outcome(xs[0], y) == Norm(y)
    decreases xs[0], 2, 0
  {
    hide Render, SemAt, Sets, Decode, Digits, IndexOf, Atoi, Ready, WellFormed, Norm, Outcome, CompareToPatch, Changes;
    IndexToken(|done|);
    ItemPlace(done, xs, Outcome(xs[0], y));
    DiffChanges(s, tokens, Digits(|done|), Digits(|done|), xs[0], y);
  }

  lemma ObjectChanges(s: Sem, tokens: seq<string>, from: Json, to: Json)
    requires from.Object? && to.Object? && Ready(from) && WellFormed(to)
    requires PlainTokens(tokens) && SemAt(s, tokens) == Some(Norm(from))
    ensures Changes(s, CompareToPatch(Render(tokens), from, to)) <==> Outcome(from, to) == Norm(to)
    decreases from, 0, |from.members| + |to.members| + 1
  {
    hide SemApply, Placed, Render, SemAt, Changes, Sized, DiffMembers, OutcomeMembers;
    var xs, ys, m := Sorted(from.members), Sorted(to.members), NormMembers(from.members);
    SortedBelow(from);
    SortedObject(from.members);
    SortedObject(to.members);
    SortedReady(from);
    NormMembersHolds(xs);
    StartPending(m, xs, ys);
    MembersChange(s, tokens, m, xs, ys, from);
  }

  /** The object walk. */
  lemma {:induction false} MembersChange(s: Sem, tokens: seq<string>, m: map<string, Sem>,
                                         xs: seq<Member>, ys: seq<Member>, root: Json)
    requires Below(xs, root) && Walkable(xs, ys) && Pending(m, xs, ys)
    requires PlainTokens(tokens) && SemAt(s, tokens) == Some(SObject(m))
    ensures Changes(s, DiffMembers(Render(tokens), xs, ys, root)) <==>
      OutcomeMembers(xs, ys, root) == NormMembers(ys)
    decreases root, 0, |xs| + |ys|
  {
    hide Render, SemAt, SemSet, Escape, CompareToPatch, Outcome, Sets, Norm, WellFormed, CaseCmp, Sized, Pending;
    hide MakePatch, PlainTokens, Fold, Walkable, Changes, DiffMembers, OutcomeMembers, NormMembers;
    var path := Render(tokens);
    if xs == [] && ys == [] {
      NoMembersLeft(path, root);
      ChangesNone(s);
      EmptyIff(xs, ys, root);
      return;
    }
    var ps, m', xs', ys' := ChangeStep(s, tokens, m, xs, ys, root);
    SetsReads(ps, s, tokens, SObject(m'));
    MembersChange(SemSet(s, tokens, SObject(m')), tokens, m', xs', ys', root);
    ChangesThen(ps, DiffMembers(path, xs', ys', root), s, tokens, SObject(m'));
  }

  /** The patches of one step of the walk, and what is left of it. */
  lemma {:induction false} ChangeStep(s: Sem, tokens: seq<string>, m: map<string, Sem>,
                                      xs: seq<Member>, ys: seq<Member>, root: Json)
    returns (ps: seq<Json>, m': map<string, Sem>, xs': seq<Member>, ys': seq<Member>)
    requires Below(xs, root) && Walkable(xs, ys) && Pending(m, xs, ys) && (xs != [] || ys != [])
    requires PlainTokens(tokens) && SemAt(s, tokens) == Some(SObject(m))
    ensures Below(xs', root) && Walkable(xs', ys') && Pending(m', xs', ys') && |xs'| + |ys'| < |xs| + |ys|
    ensures DiffMembers(Render(tokens), xs, ys, root) == ps + DiffMembers(Render(tokens), xs', ys', root)
    ensures Sets(ps, s, tokens, SObject(m'))
    ensures OutcomeMembers(xs, ys, root) == NormMembers(ys) <==>
      Changes(s, ps) && OutcomeMembers(xs', ys', root) == NormMembers(ys')
    decreases root, 0, |xs| + |ys|, 0
  {
    hide Render, SemAt, SemSet, Escape, CompareToPatch, Outcome, Sets, Norm, WellFormed, CaseCmp, Sized, Pending;
    hide MakePatch, PlainTokens, Fold, Walkable, Changes, DiffMembers, OutcomeMembers, NormMembers;
    var path := Render(tokens);
    WalkUnfold(path, xs, ys, root);
    TailWalkable(xs, ys);
    WalkKeys(xs, ys);
    OutcomeStep(xs, ys, root);
    var diff := if xs == [] then 1 else if ys == [] then -1 else CaseCmp(xs[0].key, ys[0].key);
    if diff == 0 {
      StepBoth(m, xs, ys, root);
      HeadReady(xs, ys);
      ChangeMember(s, tokens, m, xs[0].key, xs[0].value, ys[0].value);
      MemberChanges(s, tokens, m, xs[0].key, xs[0].value, ys[0].value);
      ps := CompareToPatch(path + "/" + Escape(xs[0].key), xs[0].value, ys[0].value);
      m', xs', ys' := m[Fold(xs[0].key) := Outcome(xs[0].value, ys[0].value)], xs[1..], ys[1..];
    } else if diff < 0 {
      StepDrop(m, xs, ys, root);
      DropMember(s, tokens, m, xs[0].key);
      ps := [MakePatch("remove", path + "/" + Escape(xs[0].key), None)];
      m', xs', ys' := m - {Fold(xs[0].key)}, xs[1..], ys;
      ChangesOne(ps[0], s, tokens, SObject(m'));
    } else {
      StepAdd(m, xs, ys, root);
      AddIsNew(m, xs, ys);
      AddMember(s, tokens, m, ys[0].key, ys[0].value);
      ps := [MakePatch("add", path + "/" + Escape(ys[0].key), Some(ys[0].value))];
      m', xs', ys' := m[Fold(ys[0].key) := Norm(ys[0].value)], xs, ys[1..];
      ChangesOne(ps[0], s, tokens, SObject(m'));
    }
  }

  /** What an addition brings is new. */
  lemma AddIsNew(m: map<string, Sem>, xs: seq<Member>, ys: seq<Member>)
    requires Walkable(xs, ys) && Pending(m, xs, ys) && ys != [] && (xs == [] || CaseCmp(xs[0].key, ys[0].key) > 0)
    ensures Fold(ys[0].key) !in m && NulFree(ys[0].key) && WellFormed(ys[0].value)
  {
    hide WellFormed, CaseCmp, Norm, Fold, KeySet;
    if xs != [] {
      CaseCmpZero(xs[0].key, ys[0].key);
    }
    AbsentKey(ys[0].key, xs);
    assert ys[0] == ys[0];
  }

  lemma MemberChanges(s: Sem, tokens: seq<string>, m: map<string, Sem>, key: string, from: Json, to: Json)
    requires PlainTokens(tokens) && NulFree(key) && Ready(from) && WellFormed(to)
    requires SemAt(s, tokens) == Some(SObject(m)) && Fold(key) in m && m[Fold(key)] == Norm(from)
    ensures Changes(s, CompareToPatch(Render(tokens) + "/" + Escape(key), from, to)) <==> Outcome(from, to) == Norm(to)
    decreases from, 2, 0
  {
    hide Render, SemAt, Decode, Escape, CompareToPatch, Outcome, Changes, Ready;
    KeyToken(key);
    DiffChanges(s, tokens, Escape(key), key, from, to);
  }

  /** Whether the outcome is the new object, one step of the walk at a time. */
  lemma OutcomeStep(xs: seq<Member>, ys: seq<Member>, root: Json)
    requires Below(xs, root) && Walkable(xs, ys) && (xs != [] || ys != [])
    ensures var diff := if xs == [] then 1 else if ys == [] then -1 else CaseCmp(xs[0].key, ys[0].key);
      OutcomeMembers(xs, ys, root) == NormMembers(ys) <==>
        if diff == 0 then
          Outcome(xs[0].value, ys[0].value) == Norm(ys[0].value) &&
          OutcomeMembers(xs[1..], ys[1..], root) == NormMembers(ys[1..])
        else if diff < 0 then OutcomeMembers(xs[1..], ys, root) == NormMembers(ys)
        else OutcomeMembers(xs, ys[1..], root) == NormMembers(ys[1..])
  {
    hide Norm, NormMembers, WellFormed, CaseCmp, Outcome, KeySet, Fold;
    var diff := if xs == [] then 1 else if ys == [] then -1 else CaseCmp(xs[0].key, ys[0].key);
    TailWalkable(xs, ys);
    if diff == 0 {
      CaseCmpZero(xs[0].key, ys[0].key);
      TailWalkable(xs[1..], ys);
      TailMap(ys);
      OutcomeKeys(xs[1..], ys[1..], root);
      KeySetMap(ys[1..]);
      MapCancel(OutcomeMembers(xs[1..], ys[1..], root), NormMembers(ys[1..]), Fold(xs[0].key),
                Outcome(xs[0].value, ys[0].value), Norm(ys[0].value));
    } else if diff > 0 {
      TailMap(ys);
      OutcomeKeys(xs, ys[1..], root);
      KeySetMap(ys[1..]);
      MapCancel(OutcomeMembers(xs, ys[1..], root), NormMembers(ys[1..]), Fold(ys[0].key),
                Norm(ys[0].value), Norm(ys[0].value));
    }
  }

  /**
   * For two arrays or two objects: every generated patch changes the document it meets exactly if the patches lead to
   * the second document. The idle ones are removals behind the end, where an array shrinks by more than one.
   */
  lemma NoneIdle(from: Json, to: Json)
    requires Ready(from) && WellFormed(to) && SameContainer(from, to)
    ensures Changes(Norm(from), GeneratePatches(from, to).items) <==> CanPatch(from, to)
  {
    hide Outcome, Changes, CompareToPatch, Norm, Shrinks, WellFormed, Sized;
    OutcomeIff(from, to);
    RootChanges(from, to);
  }

  lemma RootChanges(from: Json, to: Json)
    requires Ready(from) && WellFormed(to) && SameContainer(from, to)
    ensures Changes(Norm(from), CompareToPatch("", from, to)) <==> Outcome(from, to) == Norm(to)
  {
    hide Outcome, Changes, CompareToPatch, NormMembers, WellFormedMembers, OutcomeItems, DiffItems;
    var s := Norm(from);
    assert Render([]) == "";
    if from.Array? {
      assert [] + NormItems(from.items) == NormItems(from.items);
      ItemsChange(s, [], [], from.items, to.items);
      ArrayWalk(from, to);
      assert [] + OutcomeItems(from.items, to.items) == OutcomeItems(from.items, to.items);
    } else {
      ObjectChanges(s, [], from, to);
    }
  }
}
