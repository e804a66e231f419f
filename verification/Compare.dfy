/** The structural comparison of two documents. */
module Compare {
  import opened CStrings
  import opened JsonValue
  import opened ChildList

  ghost predicate Below(ms: seq<Member>, root: Json) {
    forall i :: 0 <= i < |ms| ==> ms[i].value < root
  }

  lemma SortedBelow(v: Json)
    requires v.Object?
    ensures Below(Sorted(v.members), v)
  {
    var r := Sorted(v.members);
    forall i | 0 <= i < |r|
      ensures r[i].value < v
    {
      assert r[i] in multiset(r);
      assert r[i] in v.members;
      var j :| 0 <= j < |v.members| && v.members[j] == r[i];
      assert v.members[j] < v;
    }
  }

  /** `cJSONUtils_Compare`: zero, or the code of the first difference met. */
  function CompareCode(a: Json, b: Json): int
    decreases a, 1, 0
  {
    if !SameType(a, b) then -1
    else match a
      case Number(n) => if n != b.n then -2 else 0
      case String(s) => if s != b.s then -3 else 0
      case Array(items) => CompareItems(items, b.items)
      case Object(ms) =>
        SortedBelow(a);
        CompareMembers(Sorted(ms), Sorted(b.members), a)
      case _ => 0
  }

  function CompareItems(xs: seq<Json>, ys: seq<Json>): int
    decreases xs, 0, 0
  {
    if xs == [] && ys == [] then 0
    else if xs == [] || ys == [] then -4
    else
      var err := CompareCode(xs[0], ys[0]);
      if err != 0 then err else CompareItems(xs[1..], ys[1..])
  }

  function CompareMembers(xs: seq<Member>, ys: seq<Member>, ghost root: Json): int
    requires Below(xs, root)
    decreases root, 0, |xs|
  {
    if xs == [] && ys == [] then 0
    else if xs == [] || ys == [] then -5
    else if CaseCmp(xs[0].key, ys[0].key) != 0 then -6
    else
      var err := CompareCode(xs[0].value, ys[0].value);
      if err != 0 then err else CompareMembers(xs[1..], ys[1..], root)
  }

  // ---- what the comparison leaves behind

  /** Both documents after `cJSONUtils_Compare`: it sorts the objects it meets, up to the first difference. */
  function Touched(a: Json, b: Json): (r: (Json, Json))
    decreases a, 1, 0
  {
    if a.Array? && b.Array? then
      var t := TouchedItems(a.items, b.items);
      (Array(t.0), Array(t.1))
    else if a.Object? && b.Object? then
      SortedBelow(a);
      var t := TouchedMembers(Sorted(a.members), Sorted(b.members), a);
      (Object(t.0), Object(t.1))
    else (a, b)
  }

  function TouchedItems(xs: seq<Json>, ys: seq<Json>): (r: (seq<Json>, seq<Json>))
    decreases xs, 0, 0
  {
    if xs == [] || ys == [] then (xs, ys)
    else
      var t := Touched(xs[0], ys[0]);
      var rest := if CompareCode(xs[0], ys[0]) != 0 then (xs[1..], ys[1..]) else TouchedItems(xs[1..], ys[1..]);
      ([t.0] + rest.0, [t.1] + rest.1)
  }

  function TouchedMembers(xs: seq<Member>, ys: seq<Member>, ghost root: Json): (r: (seq<Member>, seq<Member>))
    requires Below(xs, root)
    decreases root, 0, |xs|
  {
    if xs == [] || ys == [] || CaseCmp(xs[0].key, ys[0].key) != 0 then (xs, ys)
    else
      var t := Touched(xs[0].value, ys[0].value);
      var rest :=
        if CompareCode(xs[0].value, ys[0].value) != 0 then (xs[1..], ys[1..])
        else TouchedMembers(xs[1..], ys[1..], root);
      ([Member(xs[0].key, t.0)] + rest.0, [Member(ys[0].key, t.1)] + rest.1)
  }

  // ---- the sorted member list of a well-formed object

  /** Strictly ascending by folded key, pair by pair. */
  predicate Ordered(ms: seq<Member>) {
    forall i, j :: 0 <= i < j < |ms| ==> CaseCmp(ms[i].key, ms[j].key) < 0
  }

  lemma {:induction false} DistinctOnce(ms: seq<Member>, m: Member)
    requires DistinctKeys(ms)
    ensures multiset(ms)[m] <= 1
  {
    if ms != [] {
      assert ms == [ms[0]] + ms[1..];
      DistinctOnce(ms[1..], m);
      forall k | 0 <= k < |ms[1..]|
        ensures ms[1..][k] != ms[0]
      {
        assert ms[1..][k] == ms[k + 1];
      }
    }
  }

  lemma TwoPlaces(rs: seq<Member>, i: nat, j: nat)
    requires i < j < |rs| && rs[i] == rs[j]
    ensures multiset(rs)[rs[i]] >= 2
  {
    assert rs == rs[..j] + rs[j..];
    assert rs[i] in rs[..j] && rs[j] in rs[j..];
  }

  lemma PermutedDistinct(ms: seq<Member>, rs: seq<Member>)
    requires DistinctKeys(ms) && multiset(ms) == multiset(rs)
    ensures DistinctKeys(rs)
  {
    forall i, j | 0 <= i < j < |rs|
      ensures Fold(rs[i].key) != Fold(rs[j].key)
    {
      assert rs[i] in multiset(rs) && rs[j] in multiset(rs);
      assert rs[i] in ms && rs[j] in ms;
      DistinctOnce(ms, rs[i]);
      assert rs[i] != rs[j] by {
        if rs[i] == rs[j] {
          TwoPlaces(rs, i, j);
        }
      }
      var p :| 0 <= p < |ms| && ms[p] == rs[i];
      var q :| 0 <= q < |ms| && ms[q] == rs[j];
    }
  }

  lemma DistinctOrdered(ms: seq<Member>)
    requires NulFreeKeys(ms) && Ascending(ms) && DistinctKeys(ms)
    ensures Ordered(ms)
  {
    forall i, j | 0 <= i < j < |ms|
      ensures CaseCmp(ms[i].key, ms[j].key) < 0
    {
      CaseCmpZero(ms[i].key, ms[j].key);
    }
  }

  /** Sorting a well-formed object changes the order of its members and nothing else. */
  lemma SortedObject(ms: seq<Member>)
    requires WellFormedMembers(ms)
    ensures WellFormedMembers(Sorted(ms)) && Ordered(Sorted(ms))
    ensures NormMembers(Sorted(ms)) == NormMembers(ms)
  {
    var r := Sorted(ms);
    SortedAscending(ms);
    PermutedDistinct(ms, r);
    DistinctOrdered(r);
    PermutationHolds(ms, r);
    forall i | 0 <= i < |r|
      ensures WellFormed(r[i].value)
    {
      assert r[i] in multiset(r);
      assert r[i] in ms;
    }
  }

  /** A key smaller than the first of an ordered list is not in the list. */
  lemma KeyAbsent(key: string, ms: seq<Member>)
    requires NulFree(key) && NulFreeKeys(ms) && Ordered(ms)
    requires ms != [] ==> CaseCmp(key, ms[0].key) < 0
    ensures !HasKey(ms, Fold(key))
  {
    forall i | 0 <= i < |ms|
      ensures Fold(ms[i].key) != Fold(key)
    {
      CaseCmpZero(key, ms[i].key);
      if i > 0 {
        CaseCmpTransitive(key, ms[0].key, ms[i].key);
      }
    }
  }

  // ---- what a zero result means

  /** Compare finds no difference exactly if the documents agree up to member order and key case. */
  lemma {:induction false} CompareZero(a: Json, b: Json)
    requires WellFormed(a) && WellFormed(b)
    ensures CompareCode(a, b) == 0 <==> Norm(a) == Norm(b)
    decreases a, 1, 0
  {
    if SameType(a, b) {
      match a
      case Array(items) =>
        CompareItemsZero(items, b.items);
      case Object(ms) =>
        SortedObject(ms);
        SortedObject(b.members);
        SortedBelow(a);
        CompareMembersZero(Sorted(ms), Sorted(b.members), a);
      case _ =>
    }
  }

  lemma {:induction false} CompareItemsZero(xs: seq<Json>, ys: seq<Json>)
    requires forall i :: 0 <= i < |xs| ==> WellFormed(xs[i])
    requires forall i :: 0 <= i < |ys| ==> WellFormed(ys[i])
    ensures CompareItems(xs, ys) == 0 <==> NormItems(xs) == NormItems(ys)
    decreases xs, 0, 0
  {
    if xs != [] && ys != [] {
      CompareZero(xs[0], ys[0]);
      CompareItemsZero(xs[1..], ys[1..]);
      assert NormItems(xs) == [Norm(xs[0])] + NormItems(xs[1..]);
      assert NormItems(ys) == [Norm(ys[0])] + NormItems(ys[1..]);
      assert NormItems(xs)[1..] == NormItems(xs[1..]) && NormItems(ys)[1..] == NormItems(ys[1..]);
    } else {
      assert |NormItems(xs)| == |xs| && |NormItems(ys)| == |ys|;
    }
  }

  /** Taking the first member off an ordered list takes its key off the map. */
  lemma TailMap(ms: seq<Member>)
    requires WellFormedMembers(ms) && Ordered(ms) && ms != []
    ensures WellFormedMembers(ms[1..]) && Ordered(ms[1..])
    ensures NormMembers(ms[1..]) == NormMembers(ms) - {Fold(ms[0].key)}
    ensures NormMembers(ms) == NormMembers(ms[1..])[Fold(ms[0].key) := Norm(ms[0].value)]
    ensures Fold(ms[0].key) !in NormMembers(ms[1..])
  {
    hide Norm, WellFormed, CaseCmp, Ordered, DistinctKeys;
    RemoveAtHolds(ms, 0);
    assert RemoveAt(ms, 0) == ms[1..];
    TailKept(ms);
  }

  lemma TailKept(ms: seq<Member>)
    requires WellFormedMembers(ms) && Ordered(ms) && ms != []
    ensures WellFormedMembers(ms[1..]) && Ordered(ms[1..])
  {
    hide Norm, WellFormed, CaseCmp;
  }

  lemma {:induction false} CompareMembersZero(xs: seq<Member>, ys: seq<Member>, root: Json)
    requires WellFormedMembers(xs) && WellFormedMembers(ys) && Ordered(xs) && Ordered(ys)
    requires Below(xs, root)
    ensures CompareMembers(xs, ys, root) == 0 <==> NormMembers(xs) == NormMembers(ys)
    decreases root, 0, |xs|
  {
    if xs != [] && ys != [] {
      var k, l := Fold(xs[0].key), Fold(ys[0].key);
      TailMap(xs);
      TailMap(ys);
      CaseCmpZero(xs[0].key, ys[0].key);
      if CaseCmp(xs[0].key, ys[0].key) == 0 {
        CompareZero(xs[0].value, ys[0].value);
        CompareMembersZero(xs[1..], ys[1..], root);
        assert NormMembers(xs)[k] == Norm(xs[0].value) && NormMembers(ys)[k] == Norm(ys[0].value);
      } else if CaseCmp(xs[0].key, ys[0].key) < 0 {
        KeyAbsent(xs[0].key, ys);
        NormMembersHolds(ys);
        assert k in NormMembers(xs);
      } else {
        KeyAbsent(ys[0].key, xs);
        NormMembersHolds(xs);
        assert l in NormMembers(ys);
      }
    } else if xs != [] {
      assert Fold(xs[0].key) in NormMembers(xs);
    } else if ys != [] {
      assert Fold(ys[0].key) in NormMembers(ys);
    }
  }

  // ---- the documents left behind mean the same

  /** The same values up to order inside them. */
  ghost predicate SameItems(xs: seq<Json>, ys: seq<Json>) {
    |xs| == |ys| && forall i :: 0 <= i < |xs| ==> WellFormed(ys[i]) && Norm(ys[i]) == Norm(xs[i])
  }

  ghost predicate SameMembers(xs: seq<Member>, ys: seq<Member>) {
    && |xs| == |ys|
    && forall i :: 0 <= i < |xs| ==>
      ys[i].key == xs[i].key && WellFormed(ys[i].value) && Norm(ys[i].value) == Norm(xs[i].value)
  }

  lemma {:induction false} SameMembersMeaning(xs: seq<Member>, ys: seq<Member>)
    requires WellFormedMembers(xs) && SameMembers(xs, ys)
    ensures NormMembers(ys) == NormMembers(xs)
    ensures WellFormedMembers(ys)
  {
    hide Norm, WellFormed;
    SameMap(xs, ys);
  }

  lemma {:induction false} SameMap(xs: seq<Member>, ys: seq<Member>)
    requires SameMembers(xs, ys)
    ensures NormMembers(ys) == NormMembers(xs)
  {
    hide Norm, WellFormed;
    if xs != [] {
      SameMap(xs[1..], ys[1..]);
    }
  }

  /** A comparison changes neither what its arguments mean nor that they are well formed. */
  lemma {:induction false} TouchedMeaning(a: Json, b: Json)
    requires WellFormed(a) && WellFormed(b)
    ensures WellFormed(Touched(a, b).0) && Norm(Touched(a, b).0) == Norm(a)
    ensures WellFormed(Touched(a, b).1) && Norm(Touched(a, b).1) == Norm(b)
    decreases a, 1, 0
  {
    hide TouchedItems, TouchedMembers;
    if a.Array? && b.Array? {
      TouchedItemsMeaning(a.items, b.items);
      assert NormItems(TouchedItems(a.items, b.items).0) == NormItems(a.items);
      assert NormItems(TouchedItems(a.items, b.items).1) == NormItems(b.items);
    } else if a.Object? && b.Object? {
      SortedBelow(a);
      SortedObject(a.members);
      SortedObject(b.members);
      TouchedMembersMeaning(Sorted(a.members), Sorted(b.members), a);
      SameMembersMeaning(Sorted(a.members), TouchedMembers(Sorted(a.members), Sorted(b.members), a).0);
      SameMembersMeaning(Sorted(b.members), TouchedMembers(Sorted(a.members), Sorted(b.members), a).1);
    }
  }

  lemma {:induction false} TouchedItemsMeaning(xs: seq<Json>, ys: seq<Json>)
    requires forall i :: 0 <= i < |xs| ==> WellFormed(xs[i])
    requires forall i :: 0 <= i < |ys| ==> WellFormed(ys[i])
    ensures SameItems(xs, TouchedItems(xs, ys).0) && SameItems(ys, TouchedItems(xs, ys).1)
    decreases xs, 0, 0
  {
    hide Norm, WellFormed, Touched, CompareCode;
    if xs != [] && ys != [] {
      TouchedMeaning(xs[0], ys[0]);
      TouchedItemsMeaning(xs[1..], ys[1..]);
    }
  }

  lemma {:induction false} TouchedMembersMeaning(xs: seq<Member>, ys: seq<Member>, root: Json)
    requires Below(xs, root)
    requires forall i :: 0 <= i < |xs| ==> WellFormed(xs[i].value)
    requires forall i :: 0 <= i < |ys| ==> WellFormed(ys[i].value)
    ensures SameMembers(xs, TouchedMembers(xs, ys, root).0) && SameMembers(ys, TouchedMembers(xs, ys, root).1)
    decreases root, 0, |xs|
  {
    hide Norm, WellFormed, Touched, CompareCode, CaseCmp, SameMembers;
    SameItself(xs);
    SameItself(ys);
    if xs != [] && ys != [] && CaseCmp(xs[0].key, ys[0].key) == 0 {
      var t := Touched(xs[0].value, ys[0].value);
      TouchedMeaning(xs[0].value, ys[0].value);
      TouchedMembersMeaning(xs[1..], ys[1..], root);
      SameItself(xs[1..]);
      SameItself(ys[1..]);
      var rest :=
        if CompareCode(xs[0].value, ys[0].value) != 0 then (xs[1..], ys[1..])
        else TouchedMembers(xs[1..], ys[1..], root);
      SameCons(xs, t.0, rest.0);
      SameCons(ys, t.1, rest.1);
    }
  }

  lemma SameItself(ms: seq<Member>)
    requires forall i :: 0 <= i < |ms| ==> WellFormed(ms[i].value)
    ensures SameMembers(ms, ms)
  {
  }

  lemma SameCons(ms: seq<Member>, v: Json, rest: seq<Member>)
    requires ms != [] && WellFormed(v) && Norm(v) == Norm(ms[0].value) && SameMembers(ms[1..], rest)
    ensures SameMembers(ms, [Member(ms[0].key, v)] + rest)
  {
    hide Norm, WellFormed;
    var r := [Member(ms[0].key, v)] + rest;
    forall i | 0 <= i < |ms|
      ensures r[i].key == ms[i].key && WellFormed(r[i].value) && Norm(r[i].value) == Norm(ms[i].value)
    {
      if i > 0 {
        assert r[i] == rest[i - 1] && ms[i] == ms[1..][i - 1];
      }
    }
  }

  /** The comparison as the source runs it: one recursive walk with a loop per container, sorting as it goes. */
  method CompareDocuments(a: Json, b: Json) returns (err: int, a': Json, b': Json)
    requires WellFormed(a) && WellFormed(b)
    ensures err == CompareCode(a, b) && (a', b') == Touched(a, b)
    ensures err == 0 <==> Norm(a) == Norm(b)
    decreases a
  {
    CompareZero(a, b);
    a', b' := a, b;
    if !SameType(a, b) {
      err := -1;
      return;
    }
    match a
    case Number(n) => err := if n != b.n then -2 else 0;
    case String(t) => err := if t != b.s then -3 else 0;
    case Array(items) => err, a', b' := CompareArrays(a, b);
    case Object(ms) => err, a', b' := CompareObjects(a, b);
    case _ => err := 0;
  }

  method CompareArrays(a: Json, b: Json) returns (err: int, a': Json, b': Json)
    requires WellFormed(a) && WellFormed(b) && a.Array? && b.Array?
    ensures err == CompareCode(a, b) && (a', b') == Touched(a, b)
    decreases a, 0
  {
    hide Norm, WellFormed, Touched, CompareCode, CompareItems, TouchedItems;
    var xs, ys, i := a.items, b.items, 0;
    var us, vs: seq<Json> := [], [];
    ArrayParts(a, b);
    ghost var codes, left := CompareItems(xs, ys), TouchedItems(xs, ys);
    assert xs[0..] == xs && ys[0..] == ys && [] + left.0 == left.0 && [] + left.1 == left.1;
    while i < |xs| && i < |ys|
      invariant 0 <= i <= |xs| && i <= |ys|
      invariant codes == CompareItems(xs[i..], ys[i..])
      invariant left.0 == us + TouchedItems(xs[i..], ys[i..]).0
      invariant left.1 == vs + TouchedItems(xs[i..], ys[i..]).1
    {
      ItemsStep(xs[i..], ys[i..]);
      var x, y;
      err, x, y := CompareDocuments(xs[i], ys[i]);
      assert xs[i..][1..] == xs[i + 1..] && ys[i..][1..] == ys[i + 1..];
      assert us + [x] + xs[i + 1..] == us + ([x] + xs[i + 1..]) && vs + [y] + ys[i + 1..] == vs + ([y] + ys[i + 1..]);
      us, vs, i := us + [x], vs + [y], i + 1;
      if err != 0 {
        return err, Array(us + xs[i..]), Array(vs + ys[i..]);
      }
    }
    ItemsEnd(xs[i..], ys[i..]);
    return if i < |xs| || i < |ys| then -4 else 0, Array(us + xs[i..]), Array(vs + ys[i..]);
  }

  lemma ArrayParts(a: Json, b: Json)
    requires WellFormed(a) && WellFormed(b) && a.Array? && b.Array?
    ensures CompareCode(a, b) == CompareItems(a.items, b.items)
    ensures Touched(a, b) == (Array(TouchedItems(a.items, b.items).0), Array(TouchedItems(a.items, b.items).1))
    ensures forall i :: 0 <= i < |a.items| ==> WellFormed(a.items[i])
    ensures forall i :: 0 <= i < |b.items| ==> WellFormed(b.items[i])
  {
  }

  lemma ItemsStep(xs: seq<Json>, ys: seq<Json>)
    requires xs != [] && ys != []
    ensures var err, t := CompareCode(xs[0], ys[0]), Touched(xs[0], ys[0]);
      && CompareItems(xs, ys) == (if err != 0 then err else CompareItems(xs[1..], ys[1..]))
      && TouchedItems(xs, ys).0 == [t.0] + (if err != 0 then xs[1..] else TouchedItems(xs[1..], ys[1..]).0)
      && TouchedItems(xs, ys).1 == [t.1] + (if err != 0 then ys[1..] else TouchedItems(xs[1..], ys[1..]).1)
  {
  }

  lemma ItemsEnd(xs: seq<Json>, ys: seq<Json>)
    requires xs == [] || ys == []
    ensures CompareItems(xs, ys) == (if xs == [] && ys == [] then 0 else -4) && TouchedItems(xs, ys) == (xs, ys)
  {
  }

  method CompareObjects(a: Json, b: Json) returns (err: int, a': Json, b': Json)
    requires WellFormed(a) && WellFormed(b) && a.Object? && b.Object?
    ensures err == CompareCode(a, b) && (a', b') == Touched(a, b)
    decreases a, 0
  {
    hide Norm, WellFormed, Touched, CompareCode, CompareMembers, TouchedMembers, Sorted, CaseCmp, DistinctKeys;
    var xs, ys, i := Sorted(a.members), Sorted(b.members), 0;
    var us, vs: seq<Member> := [], [];
    SortedBelow(a);
    ObjectParts(a, b);
    ghost var codes, left := CompareMembers(xs, ys, a), TouchedMembers(xs, ys, a);
    assert xs[0..] == xs && ys[0..] == ys && [] + left.0 == left.0 && [] + left.1 == left.1;
    while i < |xs| && i < |ys|
      invariant 0 <= i <= |xs| && i <= |ys|
      invariant codes == CompareMembers(xs[i..], ys[i..], a)
      invariant left.0 == us + TouchedMembers(xs[i..], ys[i..], a).0
      invariant left.1 == vs + TouchedMembers(xs[i..], ys[i..], a).1
    {
      MembersStep(xs[i..], ys[i..], a);
      var diff := StrCaseCmp(xs[i].key, ys[i].key);
      if diff != 0 {
        return -6, Object(us + xs[i..]), Object(vs + ys[i..]);
      }
      var x, y;
      err, x, y := CompareDocuments(xs[i].value, ys[i].value);
      assert xs[i..][1..] == xs[i + 1..] && ys[i..][1..] == ys[i + 1..];
      var u, v := Member(xs[i].key, x), Member(ys[i].key, y);
      assert us + [u] + xs[i + 1..] == us + ([u] + xs[i + 1..]) && vs + [v] + ys[i + 1..] == vs + ([v] + ys[i + 1..]);
      us, vs, i := us + [u], vs + [v], i + 1;
      if err != 0 {
        return err, Object(us + xs[i..]), Object(vs + ys[i..]);
      }
    }
    MembersEnd(xs[i..], ys[i..], a);
    return if i < |xs| || i < |ys| then -5 else 0, Object(us + xs[i..]), Object(vs + ys[i..]);
  }

  lemma ObjectParts(a: Json, b: Json)
    requires WellFormed(a) && WellFormed(b) && a.Object? && b.Object? && Below(Sorted(a.members), a)
    ensures CompareCode(a, b) == CompareMembers(Sorted(a.members), Sorted(b.members), a)
    ensures var t := TouchedMembers(Sorted(a.members), Sorted(b.members), a);
      Touched(a, b) == (Object(t.0), Object(t.1))
    ensures WellFormedMembers(Sorted(a.members)) && WellFormedMembers(Sorted(b.members))
  {
    SortedObject(a.members);
    SortedObject(b.members);
  }

  lemma MembersStep(xs: seq<Member>, ys: seq<Member>, root: Json)
    requires xs != [] && ys != [] && Below(xs, root)
    ensures CaseCmp(xs[0].key, ys[0].key) != 0 ==>
      CompareMembers(xs, ys, root) == -6 && TouchedMembers(xs, ys, root) == (xs, ys)
    ensures var err, t := CompareCode(xs[0].value, ys[0].value), Touched(xs[0].value, ys[0].value);
      var x, y, rest := Member(xs[0].key, t.0), Member(ys[0].key, t.1), TouchedMembers(xs[1..], ys[1..], root);
      CaseCmp(xs[0].key, ys[0].key) == 0 ==>
      && CompareMembers(xs, ys, root) == (if err != 0 then err else CompareMembers(xs[1..], ys[1..], root))
      && TouchedMembers(xs, ys, root).0 == [x] + (if err != 0 then xs[1..] else rest.0)
      && TouchedMembers(xs, ys, root).1 == [y] + (if err != 0 then ys[1..] else rest.1)
  {
    hide CaseCmp, CompareCode, Touched;
  }

  lemma MembersEnd(xs: seq<Member>, ys: seq<Member>, root: Json)
    requires (xs == [] || ys == []) && Below(xs, root)
    ensures CompareMembers(xs, ys, root) == (if xs == [] && ys == [] then 0 else -5)
    ensures TouchedMembers(xs, ys, root) == (xs, ys)
  {
  }
}
