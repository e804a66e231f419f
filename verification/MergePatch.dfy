/** JSON Merge Patch: applying a merge patch, generating one, and when the two undo each other. */
module MergePatch {
  import opened CStrings
  import opened JsonValue
  import opened ChildList
  import opened Compare
  import opened PatchMeaning

  // ---- applying

  /** `cJSONUtils_MergePatch` for a patch that is not NULL; the result is never NULL then. */
  function Merged(target: Option<Json>, patch: Json): (r: Json)
    decreases patch, 1
  {
    if !patch.Object? then patch
    else Object(MergedMembers(if target.Some? && target.value.Object? then target.value.members else [], patch.members))
  }

  /** The loop over the members of the patch. */
  function MergedMembers(ms: seq<Member>, ps: seq<Member>): (r: seq<Member>)
    decreases ps, 0
  {
    if ps == [] then ms
    else MergedMembers(MergedOne(ms, ps[0]), ps[1..])
  }

  function MergedOne(ms: seq<Member>, p: Member): (r: seq<Member>)
    decreases p, 2
  {
    if p.value.Null? then DropKey(ms, p.key) else PutKey(ms, p.key, Merged(ValueOf(ms, p.key), p.value))
  }

  /** What `cJSON_DetachItemFromObject` hands back. */
  function ValueOf(ms: seq<Member>, key: string): (r: Option<Json>) {
    var i := FindKey(ms, key);
    if i < |ms| then Some(ms[i].value) else None
  }

  /** Section 2 of RFC 7396. */
  function SemMerge(target: Option<Sem>, patch: Sem): (r: Sem)
    decreases patch
  {
    if !patch.SObject? then patch
    else
      var base := FieldsOf(target);
      SObject(map k | k in base.Keys + patch.fields.Keys && !(k in patch.fields && patch.fields[k].SNull?) ::
        if k in patch.fields then SemMerge(Get(base, k), patch.fields[k]) else base[k])
  }

  function FieldsOf(s: Option<Sem>): (m: map<string, Sem>) {
    if s.Some? && s.value.SObject? then s.value.fields else map[]
  }

  function Get(m: map<string, Sem>, k: string): (r: Option<Sem>) {
    if k in m then Some(m[k]) else None
  }

  /** One member of the patch, on a map. */
  function MergeField(m: map<string, Sem>, k: string, v: Sem): (r: map<string, Sem>) {
    if v.SNull? then m - {k} else m[k := SemMerge(Get(m, k), v)]
  }

  lemma ValueOfMeaning(ms: seq<Member>, key: string)
    requires WellFormedMembers(ms)
    ensures Lift(ValueOf(ms, key)) == Get(NormMembers(ms), Fold(key))
    ensures ValueOf(ms, key).Some? ==> WellFormed(ValueOf(ms, key).value)
  {
    FindKeyHolds(ms, key);
  }

  /** Merging the fields one by one, starting with `k`, is merging them all. */
  lemma MergeCons(base: map<string, Sem>, k: string, v: Sem, rest: map<string, Sem>)
    requires k !in rest
    ensures SemMerge(Some(SObject(base)), SObject(rest[k := v])) ==
      SemMerge(Some(SObject(MergeField(base, k, v))), SObject(rest))
  {
    hide SemMerge;
    var p, b := rest[k := v], MergeField(base, k, v);
    MergeAt(base, p, k);
    MergeAt(b, rest, k);
    var l := SemMerge(Some(SObject(base)), SObject(p)).fields;
    var r := SemMerge(Some(SObject(b)), SObject(rest)).fields;
    forall q
      ensures (q in l <==> q in r) && (q in l ==> l[q] == r[q])
    {
      MergeAt(base, p, q);
      MergeAt(b, rest, q);
    }
    assert l == r;
  }

  /** One member of a merge. */
  lemma MergeAt(base: map<string, Sem>, patch: map<string, Sem>, q: string)
    ensures var m := SemMerge(Some(SObject(base)), SObject(patch));
      && m.SObject?
      && (q in m.fields <==> if q in patch then !patch[q].SNull? else q in base)
      && (q in m.fields ==> m.fields[q] == if q in patch then SemMerge(Get(base, q), patch[q]) else base[q])
  {
  }

  /** MergePatch computes the merge of section 2 of RFC 7396 and keeps documents well formed. */
  lemma {:induction false} MergedMeaning(target: Option<Json>, patch: Json)
    requires (target.Some? ==> WellFormed(target.value)) && WellFormed(patch)
    ensures WellFormed(Merged(target, patch))
    ensures Norm(Merged(target, patch)) == SemMerge(Lift(target), Norm(patch))
    decreases patch, 1
  {
    if patch.Object? {
      var ms := if target.Some? && target.value.Object? then target.value.members else [];
      MergedMembersMeaning(ms, patch.members);
      assert FieldsOf(Lift(target)) == NormMembers(ms);
    }
  }

  lemma {:induction false} MergedMembersMeaning(ms: seq<Member>, ps: seq<Member>)
    requires WellFormedMembers(ms) && WellFormedMembers(ps)
    ensures WellFormedMembers(MergedMembers(ms, ps))
    ensures SObject(NormMembers(MergedMembers(ms, ps))) ==
      SemMerge(Some(SObject(NormMembers(ms))), SObject(NormMembers(ps)))
    decreases ps, 0
  {
    hide Norm, SemMerge, WellFormed;
    if ps == [] {
      MergeNothing(NormMembers(ms));
    } else {
      var k, v := Fold(ps[0].key), Norm(ps[0].value);
      MergedOneMeaning(ms, ps[0]);
      TailWellFormed(ps);
      MergedMembersMeaning(MergedOne(ms, ps[0]), ps[1..]);
      MergeCons(NormMembers(ms), k, v, NormMembers(ps[1..]));
    }
  }

  lemma MergeNothing(m: map<string, Sem>)
    ensures SemMerge(Some(SObject(m)), SObject(map[])) == SObject(m)
  {
    assert SemMerge(Some(SObject(m)), SObject(map[])).fields == m;
  }

  lemma TailWellFormed(ms: seq<Member>)
    requires WellFormedMembers(ms) && ms != []
    ensures WellFormedMembers(ms[1..]) && Fold(ms[0].key) !in NormMembers(ms[1..])
  {
    hide Norm, WellFormed;
    RemoveAtHolds(ms, 0);
    assert RemoveAt(ms, 0) == ms[1..];
  }

  lemma {:induction false} MergedOneMeaning(ms: seq<Member>, p: Member)
    requires WellFormedMembers(ms) && NulFree(p.key) && WellFormed(p.value)
    ensures WellFormedMembers(MergedOne(ms, p))
    ensures NormMembers(MergedOne(ms, p)) == MergeField(NormMembers(ms), Fold(p.key), Norm(p.value))
    decreases p, 2
  {
    hide WellFormedMembers, NormMembers, SemMerge, Merged, DropKey, PutKey;
    if p.value.Null? {
      DropKeyHolds(ms, p.key);
    } else {
      ValueOfMeaning(ms, p.key);
      var v := Merged(ValueOf(ms, p.key), p.value);
      MergedMeaning(ValueOf(ms, p.key), p.value);
      PutKeyHolds(ms, p.key, v);
    }
  }

  // ---- generating

  /** `cJSONUtils_GenerateMergePatch` for documents that are not NULL; None where it returns NULL. */
  function Generated(from: Json, to: Json): (r: Option<Json>)
    decreases from, 1, 0
  {
    if !to.Object? || !from.Object? then Some(to)
    else
      SortedBelow(from);
      var ps := GeneratedMembers(Sorted(from.members), Sorted(to.members), from);
      if ps == [] then None else Some(Object(ps))
  }

  /** The merge walk; it orders the keys with `strcmp`. */
  function GeneratedMembers(xs: seq<Member>, ys: seq<Member>, ghost root: Json): (ps: seq<Member>)
    requires Below(xs, root)
    decreases root, 0, |xs| + |ys|
  {
    if xs == [] && ys == [] then []
    else
      var compare := if xs == [] then 1 else if ys == [] then -1 else StrCmp(xs[0].key, ys[0].key);
      if compare < 0 then [Member(xs[0].key, Null)] + GeneratedMembers(xs[1..], ys, root)
      else if compare > 0 then [ys[0]] + GeneratedMembers(xs, ys[1..], root)
      else
        (if CompareCode(xs[0].value, ys[0].value) == 0 then [] else GeneratedChange(xs[0].value, ys[0])) +
        GeneratedMembers(xs[1..], ys[1..], root)
  }

  /** The nested patch of a changed member. It is never NULL: see GeneratedMeaning. */
  function GeneratedChange(from: Json, to: Member): (ps: seq<Member>)
    decreases from, 2, 0
  {
    match Generated(from, to.value)
    case Some(p) => [Member(to.key, p)]
    case None => []
  }

  /** The merge patch between two meanings: null for what went, the new value for what came or changed. */
  function SemGenerate(a: Sem, b: Sem): (r: Sem)
    decreases b
  {
    if !a.SObject? || !b.SObject? then b
    else
      var m, n := a.fields, b.fields;
      SObject(map k | k in m.Keys + n.Keys && !(k in m && k in n && m[k] == n[k]) ::
        if k !in n then SNull else if k !in m then n[k] else SemGenerate(m[k], n[k]))
  }

  function GenerateFields(m: map<string, Sem>, n: map<string, Sem>): (r: map<string, Sem>) {
    SemGenerate(SObject(m), SObject(n)).fields
  }

  /** No key has an upper-case letter. */
  predicate LowerKeys(v: Json) {
    match v
    case Array(items) => forall i :: 0 <= i < |items| ==> LowerKeys(items[i])
    case Object(ms) => LowerMembers(ms)
    case _ => true
  }

  predicate LowerMembers(ms: seq<Member>) {
    forall i :: 0 <= i < |ms| ==> IsLower(ms[i].key) && LowerKeys(ms[i].value)
  }

  lemma GenerateDrop(m: map<string, Sem>, n: map<string, Sem>, k: string, x: Sem)
    requires k !in m && k !in n
    ensures GenerateFields(m[k := x], n) == GenerateFields(m, n)[k := SNull]
  {
  }

  lemma GenerateAdd(m: map<string, Sem>, n: map<string, Sem>, k: string, y: Sem)
    requires k !in m && k !in n
    ensures GenerateFields(m, n[k := y]) == GenerateFields(m, n)[k := y]
  {
  }

  lemma GenerateBoth(m: map<string, Sem>, n: map<string, Sem>, k: string, x: Sem, y: Sem)
    requires k !in m && k !in n
    ensures GenerateFields(m[k := x], n[k := y]) ==
      if x == y then GenerateFields(m, n) else GenerateFields(m, n)[k := SemGenerate(x, y)]
    ensures k !in GenerateFields(m, n)
  {
  }

  lemma ConsWellFormed(p: Member, ps: seq<Member>)
    requires WellFormedMembers(ps) && NulFree(p.key) && WellFormed(p.value) && Fold(p.key) !in NormMembers(ps)
    ensures WellFormedMembers([p] + ps)
    ensures NormMembers([p] + ps) == NormMembers(ps)[Fold(p.key) := Norm(p.value)]
  {
    hide WellFormed, Norm, Fold, HasKey;
    NormMembersHolds(ps);
    var r := [p] + ps;
    assert r[0] == p && r[1..] == ps;
    assert forall i :: 1 <= i < |r| ==> r[i] == ps[i - 1];
    forall j | 0 <= j < |ps|
      ensures Fold(ps[j].key) != Fold(p.key)
    {
      assert ps[j] == ps[j];
    }
  }

  lemma LowerStrCmp(a: string, b: string)
    requires IsLower(a) && IsLower(b)
    ensures StrCmp(a, b) == CaseCmp(a, b)
  {
    LowerFold(a);
    LowerFold(b);
  }

  /** For documents with lower-case keys, GenerateMergePatch writes that patch, or nothing if nothing changed. */
  lemma {:induction false} GeneratedMeaning(from: Json, to: Json)
    requires WellFormed(from) && WellFormed(to) && LowerKeys(from) && LowerKeys(to)
    ensures Generated(from, to).None? <==> from.Object? && Norm(from) == Norm(to)
    ensures Generated(from, to).Some? ==>
      WellFormed(Generated(from, to).value) && Norm(Generated(from, to).value) == SemGenerate(Norm(from), Norm(to))
    decreases from, 1, 0
  {
    if from.Object? && to.Object? {
      var xs, ys := Sorted(from.members), Sorted(to.members);
      SortedBelow(from);
      SortedObject(from.members);
      SortedObject(to.members);
      SortedLower(from);
      SortedLower(to);
      GeneratedMembersMeaning(xs, ys, from);
      SameFields(NormMembers(xs), NormMembers(ys));
      EmptyMembers(GeneratedMembers(xs, ys, from));
    }
  }

  lemma SortedLower(v: Json)
    requires v.Object? && LowerKeys(v)
    ensures LowerMembers(Sorted(v.members))
  {
    var r := Sorted(v.members);
    forall i | 0 <= i < |r|
      ensures IsLower(r[i].key) && LowerKeys(r[i].value)
    {
      assert r[i] in multiset(r);
      assert r[i] in v.members;
    }
  }

  lemma EmptyMembers(ps: seq<Member>)
    ensures ps == [] <==> NormMembers(ps) == map[]
  {
    if ps != [] {
      assert Fold(ps[0].key) in NormMembers(ps);
    }
  }

  lemma SameFields(m: map<string, Sem>, n: map<string, Sem>)
    ensures GenerateFields(m, n) == map[] <==> m == n
  {
    if GenerateFields(m, n) == map[] {
      forall k | k in m || k in n
        ensures k in m && k in n && m[k] == n[k]
      {
        assert k !in GenerateFields(m, n);
      }
    }
  }

  lemma {:induction false} GeneratedMembersMeaning(xs: seq<Member>, ys: seq<Member>, root: Json)
    requires Below(xs, root) && WellFormedMembers(xs) && WellFormedMembers(ys) && Ordered(xs) && Ordered(ys)
    requires LowerMembers(xs) && LowerMembers(ys)
    ensures WellFormedMembers(GeneratedMembers(xs, ys, root))
    ensures NormMembers(GeneratedMembers(xs, ys, root)) == GenerateFields(NormMembers(xs), NormMembers(ys))
    decreases root, 0, |xs| + |ys|
  {
    hide Norm, NormMembers, WellFormed, CaseCmp, StrCmp, GenerateFields, SemGenerate, LowerKeys, CompareCode;
    hide GeneratedChange;
    if xs == [] && ys == [] {
      NothingGenerated();
    } else {
      var compare := if xs == [] then 1 else if ys == [] then -1 else StrCmp(xs[0].key, ys[0].key);
      if xs != [] && ys != [] {
        LowerStrCmp(xs[0].key, ys[0].key);
        CaseCmpZero(xs[0].key, ys[0].key);
      }
      if compare < 0 {
        TailMap(xs);
        GeneratedMembersMeaning(xs[1..], ys, root);
        AbsentFrom(xs[0].key, ys);
        GenerateDrop(NormMembers(xs[1..]), NormMembers(ys), Fold(xs[0].key), Norm(xs[0].value));
        GenerateBoth(NormMembers(xs[1..]), NormMembers(ys), Fold(xs[0].key), SNull, SNull);
        NothingGenerated();
        ConsWellFormed(Member(xs[0].key, Null), GeneratedMembers(xs[1..], ys, root));
      } else if compare > 0 {
        TailMap(ys);
        GeneratedMembersMeaning(xs, ys[1..], root);
        AbsentFrom(ys[0].key, xs);
        GenerateAdd(NormMembers(xs), NormMembers(ys[1..]), Fold(ys[0].key), Norm(ys[0].value));
        GenerateBoth(NormMembers(xs), NormMembers(ys[1..]), Fold(ys[0].key), SNull, SNull);
        ConsWellFormed(ys[0], GeneratedMembers(xs, ys[1..], root));
      } else {
        GeneratedBothMeaning(xs, ys, root);
      }
    }
  }

  lemma NothingGenerated()
    ensures NormMembers([]) == map[] && GenerateFields(map[], map[]) == map[] && WellFormedMembers([])
    ensures Norm(Null) == SNull && WellFormed(Null)
  {
  }

  lemma AbsentFrom(key: string, ms: seq<Member>)
    requires NulFree(key) && WellFormedMembers(ms) && Ordered(ms)
    requires ms != [] ==> CaseCmp(key, ms[0].key) < 0
    ensures Fold(key) !in NormMembers(ms)
  {
    hide CaseCmp, Norm, WellFormed;
    KeyAbsent(key, ms);
    NormMembersHolds(ms);
  }

  /** A key both documents have: nothing if the values agree, else their nested patch. */
  lemma {:induction false} GeneratedBothMeaning(xs: seq<Member>, ys: seq<Member>, root: Json)
    requires Below(xs, root) && WellFormedMembers(xs) && WellFormedMembers(ys) && Ordered(xs) && Ordered(ys)
    requires LowerMembers(xs) && LowerMembers(ys)
    requires xs != [] && ys != [] && StrCmp(xs[0].key, ys[0].key) == 0
    ensures WellFormedMembers(GeneratedMembers(xs, ys, root))
    ensures NormMembers(GeneratedMembers(xs, ys, root)) == GenerateFields(NormMembers(xs), NormMembers(ys))
    decreases root, 0, |xs| + |ys|, 0
  {
    hide Norm, NormMembers, WellFormed, CaseCmp, StrCmp, GenerateFields, SemGenerate, LowerKeys, CompareCode, Generated;
    var k, x, y := Fold(xs[0].key), xs[0].value, ys[0].value;
    LowerStrCmp(xs[0].key, ys[0].key);
    CaseCmpZero(xs[0].key, ys[0].key);
    TailMap(xs);
    TailMap(ys);
    GeneratedMembersMeaning(xs[1..], ys[1..], root);
    var rest := GeneratedMembers(xs[1..], ys[1..], root);
    GenerateBoth(NormMembers(xs[1..]), NormMembers(ys[1..]), k, Norm(x), Norm(y));
    CompareZero(x, y);
    if CompareCode(x, y) == 0 {
      assert [] + rest == rest;
    } else {
      GeneratedMeaning(x, y);
      ConsWellFormed(Member(ys[0].key, Generated(x, y).value), rest);
    }
  }

  // ---- the round trip

  /**
   * A merge patch can turn `a` into `b`: a field of `b` that is not already right is not null, and it can be reached
   * in turn. Null is how a merge patch says "remove", so it cannot be said as a value.
   */
  ghost predicate Expressible(a: Option<Sem>, b: Sem)
    decreases b
  {
    b.SObject? ==> forall k :: k in b.fields ==>
      Get(FieldsOf(a), k) == Some(b.fields[k]) ||
      (!b.fields[k].SNull? && Expressible(Get(FieldsOf(a), k), b.fields[k]))
  }

  ghost predicate ExpressibleField(base: map<string, Sem>, k: string, v: Sem) {
    Get(base, k) == Some(v) || (!v.SNull? && Expressible(Get(base, k), v))
  }

  /** Sending the whole value: right unless some object in it has a null field. */
  lemma {:induction false} WholeValue(t: Option<Sem>, b: Sem)
    requires FieldsOf(t) == map[]
    ensures SemMerge(t, b) == b <==> Expressible(t, b)
    decreases b
  {
    if b.SObject? {
      var r := SemMerge(t, b).fields;
      forall k | k in b.fields
        ensures (k in r && r[k] == b.fields[k]) <==> ExpressibleField(FieldsOf(t), k, b.fields[k])
      {
        WholeValue(None, b.fields[k]);
      }
    }
  }

  /** Merging the generated patch back gives the second meaning exactly if that is expressible. */
  lemma {:induction false} MergeUndoesGenerate(a: Sem, b: Sem)
    ensures SemMerge(Some(a), SemGenerate(a, b)) == b <==> Expressible(Some(a), b)
    decreases b
  {
    if !a.SObject? || !b.SObject? {
      if a.SObject? {
      } else {
        WholeValue(Some(a), b);
      }
    } else {
      var m, n := a.fields, b.fields;
      var p := GenerateFields(m, n);
      var r := SemMerge(Some(a), SObject(p)).fields;
      forall k | k in n
        ensures (k in r && r[k] == n[k]) <==> ExpressibleField(m, k, n[k])
      {
        if k !in m {
          WholeValue(None, n[k]);
        } else if m[k] != n[k] {
          MergeUndoesGenerate(m[k], n[k]);
        }
      }
      forall k | k in r
        ensures k in n
      {
      }
    }
  }

  /**
   * Section 2 of RFC 7396, for documents with lower-case keys: GenerateMergePatch returns NULL exactly for two equal
   * objects, and otherwise merging its patch into a duplicate of `from` gives `to` exactly if `to` is expressible.
   */
  lemma MergeRoundTrip(from: Json, to: Json)
    requires WellFormed(from) && WellFormed(to) && LowerKeys(from) && LowerKeys(to)
    ensures Generated(from, to).None? <==> from.Object? && Norm(from) == Norm(to)
    ensures Generated(from, to).Some? ==>
      (Norm(Merged(Some(from), Generated(from, to).value)) == Norm(to) <==> Expressible(Some(Norm(from)), Norm(to)))
  {
    hide Generated, Merged, Norm, Expressible, SemGenerate, SemMerge;
    GeneratedMeaning(from, to);
    if Generated(from, to).Some? {
      MergedMeaning(Some(from), Generated(from, to).value);
      MergeUndoesGenerate(Norm(from), Norm(to));
    }
  }

  /** No object outside an array has a null member: the condition RFC 7396 gives for merge patches to suffice. */
  ghost predicate NoNulls(b: Sem)
    decreases b
  {
    b.SObject? ==> forall k :: k in b.fields ==> !b.fields[k].SNull? && NoNulls(b.fields[k])
  }

  lemma {:induction false} NoNullsExpressible(a: Option<Sem>, b: Sem)
    requires NoNulls(b)
    ensures Expressible(a, b)
    decreases b
  {
    if b.SObject? {
      forall k | k in b.fields
        ensures ExpressibleField(FieldsOf(a), k, b.fields[k])
      {
        NoNullsExpressible(Get(FieldsOf(a), k), b.fields[k]);
      }
    }
  }

  /** Keys that differ only in case break the law: the patch from {"a": x} to {"A": x} deletes what it adds. */
  lemma CaseBreaksMerge(x: int)
    ensures var from, to := Object([Member("a", Number(x))]), Object([Member("A", Number(x))]);
      && Norm(from) == Norm(to)
      && Generated(from, to) == Some(Object([Member("A", Number(x)), Member("a", Null)]))
      && Merged(Some(from), Generated(from, to).value) == Object([])
  {
    CaseGenerates(x);
    CaseMerges(x);
    assert Fold("A") == "a" == Fold("a");
    var xs, ys := [Member("a", Number(x))], [Member("A", Number(x))];
    assert ys[1..] == [] && xs[1..] == [];
  }

  lemma CaseGenerates(x: int)
    ensures Generated(Object([Member("a", Number(x))]), Object([Member("A", Number(x))]))
      == Some(Object([Member("A", Number(x)), Member("a", Null)]))
  {
    hide Sorted;
    var xs, ys := [Member("a", Number(x))], [Member("A", Number(x))];
    var from := Object(xs);
    SortedUnfold(xs);
    SortedUnfold(ys);
    SortedBelow(from);
    assert StrCmp("a", "A") == 'a' as int - 'A' as int;
    assert ys[1..] == [] && xs[1..] == [];
    assert GeneratedMembers(xs, [], from) == [Member("a", Null)] + GeneratedMembers([], [], from);
    assert GeneratedMembers([], [], from) == [];
    assert GeneratedMembers(xs, ys, from) == [ys[0]] + GeneratedMembers(xs, ys[1..], from) ==
      [Member("A", Number(x)), Member("a", Null)];
  }

  lemma CaseMerges(x: int)
    ensures Object([]) ==
      Merged(Some(Object([Member("a", Number(x))])), Object([Member("A", Number(x)), Member("a", Null)]))
  {
    var xs, ys := [Member("a", Number(x))], [Member("A", Number(x))];
    var ps := [Member("A", Number(x)), Member("a", Null)];
    assert Fold("A") == "a" == Fold("a");
    assert FindKey(xs, "A") == 0 && RemoveAt(xs, 0) == [];
    assert MergedOne(xs, ps[0]) == ys;
    assert FindKey(ys, "a") == 0 && RemoveAt(ys, 0) == [];
    assert ps[1..] == [ps[1]] && ps[1..][1..] == [];
    assert MergedMembers(xs, ps) == MergedMembers(ys, [ps[1]]) == MergedMembers([], []);
  }

  // ---- the loops

  /** `cJSONUtils_MergePatch`; a NULL patch gives a NULL result. */
  method MergeDocuments(target: Option<Json>, patch: Option<Json>) returns (r: Option<Json>)
    ensures r == match patch { case Some(p) => Some(Merged(target, p)) case None => None }
  {
    if patch.None? {
      return None;
    }
    var j := MergeInto(target, patch.value);
    return Some(j);
  }

  method MergeInto(target: Option<Json>, patch: Json) returns (r: Json)
    ensures r == Merged(target, patch)
    decreases patch
  {
    if !patch.Object? {
      return patch;
    }
    var ms: seq<Member> := if target.Some? && target.value.Object? then target.value.members else [];
    ghost var start := ms;
    var ps, i := patch.members, 0;
    while i < |ps|
      invariant 0 <= i <= |ps|
      invariant MergedMembers(start, ps) == MergedMembers(ms, ps[i..])
    {
      assert ps[i..][1..] == ps[i + 1..];
      assert ps[i] < patch;
      if ps[i].value.Null? {
        ms := DropKey(ms, ps[i].key);
      } else {
        var v := MergeInto(ValueOf(ms, ps[i].key), ps[i].value);
        ms := PutKey(ms, ps[i].key, v);
      }
      i := i + 1;
    }
    return Object(ms);
  }

  lemma GenerateStep(out: seq<Member>, xs: seq<Member>, ys: seq<Member>, i: nat, j: nat, root: Json)
    requires Below(xs, root) && i <= |xs| && j <= |ys| && (i < |xs| || j < |ys|)
    ensures var compare := if i == |xs| then 1 else if j == |ys| then -1 else StrCmp(xs[i].key, ys[j].key);
      out + GeneratedMembers(xs[i..], ys[j..], root) ==
        if compare < 0 then out + [Member(xs[i].key, Null)] + GeneratedMembers(xs[i + 1..], ys[j..], root)
        else if compare > 0 then out + [ys[j]] + GeneratedMembers(xs[i..], ys[j + 1..], root)
        else
          out + (if CompareCode(xs[i].value, ys[j].value) == 0 then [] else GeneratedChange(xs[i].value, ys[j])) +
          GeneratedMembers(xs[i + 1..], ys[j + 1..], root)
  {
    hide StrCmp, CompareCode, GeneratedChange;
    assert i < |xs| ==> xs[i..][1..] == xs[i + 1..];
    assert j < |ys| ==> ys[j..][1..] == ys[j + 1..];
  }

  lemma GenerateEnds(from: Json)
    requires from.Object?
    ensures Below(Sorted(from.members), from) && GeneratedMembers([], [], from) == []
  {
    SortedBelow(from);
  }

  /** `cJSONUtils_GenerateMergePatch`; NULL documents are handled first. */
  method GenerateMergePatch(from: Option<Json>, to: Option<Json>) returns (r: Option<Json>)
    requires (from.Some? ==> WellFormed(from.value)) && (to.Some? ==> WellFormed(to.value))
    ensures to.None? ==> r == Some(Null)
    ensures to.Some? && from.None? ==> r == to
    ensures to.Some? && from.Some? ==> r == Generated(from.value, to.value)
  {
    if to.None? {
      return Some(Null);
    }
    if !to.value.Object? || from.None? || !from.value.Object? {
      return to;
    }
    r := GenerateObjectPatch(from.value, to.value);
  }

  method GenerateObjectPatch(from: Json, to: Json) returns (r: Option<Json>)
    requires WellFormed(from) && WellFormed(to) && from.Object? && to.Object?
    ensures r == Generated(from, to)
    decreases from
  {
    hide StrCmp, GeneratedMembers, WellFormed, Sorted;
    GenerateEnds(from);
    SortedMembersWellFormed(from);
    SortedMembersWellFormed(to);
    var xs, ys, i, j := Sorted(from.members), Sorted(to.members), 0, 0;
    ghost var all := GeneratedMembers(xs, ys, from);
    var out: seq<Member> := [];
    assert xs[0..] == xs && ys[0..] == ys && out + all == all;
    while i < |xs| || j < |ys|
      invariant 0 <= i <= |xs| && 0 <= j <= |ys|
      invariant out + GeneratedMembers(xs[i..], ys[j..], from) == all
      decreases |xs| - i + |ys| - j
    {
      GenerateStep(out, xs, ys, i, j, from);
      var compare := if i == |xs| then 1 else if j == |ys| then -1 else StrCmp(xs[i].key, ys[j].key);
      if compare < 0 {
        out := out + [Member(xs[i].key, Null)];
        i := i + 1;
      } else if compare > 0 {
        out := out + [ys[j]];
        j := j + 1;
      } else {
        var err, _, _ := CompareDocuments(xs[i].value, ys[j].value);
        if err != 0 {
          var nested := Some(ys[j].value);
          if xs[i].value.Object? && ys[j].value.Object? {
            nested := GenerateObjectPatch(xs[i].value, ys[j].value);
          }
          assert nested == Generated(xs[i].value, ys[j].value);
          out := out + match nested { case Some(p) => [Member(ys[j].key, p)] case None => [] };
        }
        i, j := i + 1, j + 1;
      }
    }
    assert xs[i..] == [] && ys[j..] == [];
    assert out == all;
    r := if out == [] then None else Some(Object(out));
  }

  lemma SortedMembersWellFormed(v: Json)
    requires v.Object? && WellFormed(v)
    ensures WellFormedMembers(Sorted(v.members))
  {
    SortedObject(v.members);
  }
}
