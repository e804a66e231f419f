/**
 * Merge patches between documents whose keys have any case: the generator walks lists sorted without regard to case
 * but compares with it, so it may miss that both documents have a key. Exactly when the patch still works.
 */
module MergeExact {
  import opened CStrings
  import opened JsonValue
  import opened ChildList
  import opened Compare
  import opened PatchMeaning
  import opened MergePatch

  // ---- the meaning of applying a patch in which keys may repeat

  /** Keys without NUL, and values that are well-formed documents or such patches again. */
  predicate PatchShaped(p: Json) {
    match p
    case Object(ms) => forall i :: 0 <= i < |ms| ==> NulFree(ms[i].key) && PatchShaped(ms[i].value)
    case _ => WellFormed(p)
  }

  /** Member after member, in order. */
  function Applied(t: Option<Sem>, p: Json): (r: Sem)
    decreases p, 1
  {
    if !p.Object? then Norm(p) else SObject(AppliedFields(FieldsOf(t), p.members))
  }

  function AppliedFields(m: map<string, Sem>, ps: seq<Member>): (r: map<string, Sem>)
    decreases ps, 0
  {
    if ps == [] then m else AppliedFields(AppliedField(m, ps[0]), ps[1..])
  }

  function AppliedField(m: map<string, Sem>, p: Member): (r: map<string, Sem>)
    decreases p, 2
  {
    if p.value.Null? then m - {Fold(p.key)} else m[Fold(p.key) := Applied(Get(m, Fold(p.key)), p.value)]
  }

  lemma {:induction false} MergedApplies(target: Option<Json>, patch: Json)
    requires (target.Some? ==> WellFormed(target.value)) && PatchShaped(patch)
    ensures WellFormed(Merged(target, patch)) && Norm(Merged(target, patch)) == Applied(Lift(target), patch)
    decreases patch, 1
  {
    if patch.Object? {
      var ms := if target.Some? && target.value.Object? then target.value.members else [];
      MergedMembersApply(ms, patch.members);
      assert FieldsOf(Lift(target)) == NormMembers(ms);
    }
  }

  lemma {:induction false} MergedMembersApply(ms: seq<Member>, ps: seq<Member>)
    requires WellFormedMembers(ms) && PatchShaped(Object(ps))
    ensures WellFormedMembers(MergedMembers(ms, ps))
    ensures NormMembers(MergedMembers(ms, ps)) == AppliedFields(NormMembers(ms), ps)
    decreases ps, 0
  {
    hide Norm, NormMembers, WellFormedMembers, AppliedField, MergedOne;
    if ps != [] {
      MergedOneApplies(ms, ps[0]);
      assert PatchShaped(Object(ps[1..]));
      MergedMembersApply(MergedOne(ms, ps[0]), ps[1..]);
    }
  }

  lemma {:induction false} MergedOneApplies(ms: seq<Member>, p: Member)
    requires WellFormedMembers(ms) && NulFree(p.key) && PatchShaped(p.value)
    ensures WellFormedMembers(MergedOne(ms, p))
    ensures NormMembers(MergedOne(ms, p)) == AppliedField(NormMembers(ms), p)
    decreases p, 2
  {
    hide WellFormedMembers, NormMembers, Merged, Applied, DropKey, PutKey;
    if p.value.Null? {
      DropKeyHolds(ms, p.key);
    } else {
      ValueOfMeaning(ms, p.key);
      MergedApplies(ValueOf(ms, p.key), p.value);
      PutKeyHolds(ms, p.key, Merged(ValueOf(ms, p.key), p.value));
    }
  }

  /** A whole document sent as a patch arrives as it would by section 2 of RFC 7396. */
  lemma WholeApplied(t: Option<Sem>, v: Json, target: Option<Json>)
    requires WellFormed(v) && (target.Some? ==> WellFormed(target.value)) && Lift(target) == t
    ensures PatchShaped(v) && Applied(t, v) == SemMerge(t, Norm(v))
  {
    hide Merged, Applied, SemMerge, Norm;
    ShapedDocument(v);
    MergedApplies(target, v);
    MergedMeaning(target, v);
  }

  lemma {:induction false} ShapedDocument(v: Json)
    requires WellFormed(v)
    ensures PatchShaped(v)
  {
    if v.Object? {
      forall i | 0 <= i < |v.members|
        ensures NulFree(v.members[i].key) && PatchShaped(v.members[i].value)
      {
        ShapedDocument(v.members[i].value);
      }
    }
  }

  // ---- one key at a time

  /** What the members with one key do to its value. */
  function KeyRun(b: Option<Sem>, ps: seq<Member>, k: string): (r: Option<Sem>)
    decreases |ps|
  {
    if ps == [] then b
    else KeyRun(if Fold(ps[0].key) == k then Sent(b, ps[0].value) else b, ps[1..], k)
  }

  /** A patch value arriving at a field. */
  function Sent(b: Option<Sem>, v: Json): (r: Option<Sem>) {
    if v.Null? then None else Some(Applied(b, v))
  }

  lemma {:induction false} AppliedAt(m: map<string, Sem>, ps: seq<Member>, k: string)
    ensures Get(AppliedFields(m, ps), k) == KeyRun(Get(m, k), ps, k)
    decreases |ps|
  {
    hide Applied;
    if ps != [] {
      AppliedAt(AppliedField(m, ps[0]), ps[1..], k);
    }
  }

  // ---- how the walk meets a key

  /** The generator's walk, watched for one key. */
  datatype Meeting = Never | FromOnly | ToOnly(y: Json) | FromFirst(y: Json) | ToFirst | Together(x: Json, y: Json)

  /** Which of the two lists the walk advances. */
  function Advance(xs: seq<Member>, ys: seq<Member>): (c: int)
    requires xs != [] || ys != []
  {
    if xs == [] then 1 else if ys == [] then -1 else StrCmp(xs[0].key, ys[0].key)
  }

  /** When it passes the key in `from` and when in `to`. */
  function Meet(xs: seq<Member>, ys: seq<Member>, k: string): (r: Meeting)
    decreases |xs| + |ys|
  {
    if xs == [] && ys == [] then Never
    else
      var c := Advance(xs, ys);
      if c < 0 then
        var later := Meet(xs[1..], ys, k);
        if Fold(xs[0].key) == k then (if later.ToOnly? then FromFirst(later.y) else FromOnly) else later
      else if c > 0 then
        var later := Meet(xs, ys[1..], k);
        if Fold(ys[0].key) == k then (if later.FromOnly? then ToFirst else ToOnly(ys[0].value)) else later
      else
        var later := Meet(xs[1..], ys[1..], k);
        if Fold(xs[0].key) == k then Together(xs[0].value, ys[0].value) else later
  }

  lemma Tail(ms: seq<Member>)
    requires WellFormedMembers(ms) && ms != []
    ensures WellFormedMembers(ms[1..]) && NulFree(ms[0].key) && WellFormed(ms[0].value)
    ensures NormMembers(ms) == NormMembers(ms[1..])[Fold(ms[0].key) := Norm(ms[0].value)]
    ensures Fold(ms[0].key) !in NormMembers(ms[1..])
  {
    hide Norm, WellFormed;
    TailWellFormed(ms);
  }

  /** What a meeting says of the two documents. */
  ghost predicate Faithful(r: Meeting, m: map<string, Sem>, n: map<string, Sem>, k: string, xs: seq<Member>) {
    match r
    case Never => k !in m && k !in n
    case FromOnly => k in m && k !in n
    case ToOnly(y) => k !in m && Get(n, k) == Some(Norm(y)) && WellFormed(y)
    case FromFirst(y) => k in m && Get(n, k) == Some(Norm(y)) && WellFormed(y)
    case ToFirst => k in m && k in n
    case Together(x, y) =>
      Get(m, k) == Some(Norm(x)) && Get(n, k) == Some(Norm(y)) && WellFormed(x) && WellFormed(y) &&
      exists i :: 0 <= i < |xs| && xs[i].value == x
  }

  lemma {:induction false} MeetFaithful(xs: seq<Member>, ys: seq<Member>, k: string)
    requires WellFormedMembers(xs) && WellFormedMembers(ys)
    ensures Faithful(Meet(xs, ys, k), NormMembers(xs), NormMembers(ys), k, xs)
    decreases |xs| + |ys|
  {
    hide Norm, NormMembers, WellFormed, WellFormedMembers, StrCmp;
    if xs == [] && ys == [] {
      NothingGenerated();
    } else {
      var c := Advance(xs, ys);
      if c < 0 {
        Tail(xs);
        MeetFaithful(xs[1..], ys, k);
      } else if c > 0 {
        Tail(ys);
        MeetFaithful(xs, ys[1..], k);
      } else {
        Tail(xs);
        Tail(ys);
        StrCmpZero(xs[0].key, ys[0].key);
        MeetFaithful(xs[1..], ys[1..], k);
      }
    }
  }

  // ---- what the walk writes for a key

  /** What becomes of a value, by how the walk met its key. */
  function Arrives(r: Meeting, b: Option<Sem>): (v: Option<Sem>) {
    match r
    case Never => b
    case FromOnly => None
    case ToOnly(y) => Sent(b, y)
    case FromFirst(y) => Sent(None, y)
    case ToFirst => None
    case Together(x, y) => if CompareCode(x, y) == 0 then b else Changed(b, x, y)
  }

  function Changed(b: Option<Sem>, x: Json, y: Json): (v: Option<Sem>) {
    match Generated(x, y)
    case Some(p) => Sent(b, p)
    case None => b
  }

  lemma {:induction false} GenerateRun(b: Option<Sem>, xs: seq<Member>, ys: seq<Member>, root: Json, k: string)
    requires Below(xs, root) && WellFormedMembers(xs) && WellFormedMembers(ys)
    ensures KeyRun(b, GeneratedMembers(xs, ys, root), k) == Arrives(Meet(xs, ys, k), b)
    decreases |xs| + |ys|
  {
    hide Norm, NormMembers, WellFormed, WellFormedMembers, StrCmp, CompareCode, Generated, Sent, KeyRun;
    if xs == [] && ys == [] {
      OneRun(b, Member("", Null), [], k);
    } else {
      var c := Advance(xs, ys);
      if c < 0 {
        Tail(xs);
        var p := Member(xs[0].key, Null);
        OneRun(b, p, GeneratedMembers(xs[1..], ys, root), k);
        GenerateRun(if Fold(p.key) == k then None else b, xs[1..], ys, root, k);
        MeetLacks(xs[1..], ys, k);
      } else if c > 0 {
        Tail(ys);
        OneRun(b, ys[0], GeneratedMembers(xs, ys[1..], root), k);
        GenerateRun(if Fold(ys[0].key) == k then Sent(b, ys[0].value) else b, xs, ys[1..], root, k);
        MeetLacks(xs, ys[1..], k);
      } else {
        Tail(xs);
        Tail(ys);
        StrCmpZero(xs[0].key, ys[0].key);
        RunTogether(b, xs, ys, root, k);
        var b' := if Fold(xs[0].key) == k then Arrives(Together(xs[0].value, ys[0].value), b) else b;
        GenerateRun(b', xs[1..], ys[1..], root, k);
        MeetLacks(xs[1..], ys[1..], k);
      }
    }
  }

  lemma MeetLacks(xs: seq<Member>, ys: seq<Member>, k: string)
    requires WellFormedMembers(xs) && WellFormedMembers(ys)
    ensures k !in NormMembers(xs) ==> Meet(xs, ys, k).Never? || Meet(xs, ys, k).ToOnly?
    ensures k !in NormMembers(ys) ==> Meet(xs, ys, k).Never? || Meet(xs, ys, k).FromOnly?
  {
    hide Norm, NormMembers, WellFormed, WellFormedMembers, Meet;
    MeetFaithful(xs, ys, k);
  }

  /** No member does nothing, and a member with the key sends its value. */
  lemma OneRun(b: Option<Sem>, p: Member, rest: seq<Member>, k: string)
    ensures KeyRun(b, [], k) == b && Sent(b, Null) == None
    ensures KeyRun(b, [p] + rest, k) == KeyRun(if Fold(p.key) == k then Sent(b, p.value) else b, rest, k)
  {
    assert ([p] + rest)[1..] == rest;
  }

  lemma RunTogether(b: Option<Sem>, xs: seq<Member>, ys: seq<Member>, root: Json, k: string)
    requires xs != [] && ys != [] && Below(xs, root) && StrCmp(xs[0].key, ys[0].key) == 0 && xs[0].key == ys[0].key
    ensures KeyRun(b, GeneratedMembers(xs, ys, root), k)
      == KeyRun(if Fold(xs[0].key) == k then Arrives(Together(xs[0].value, ys[0].value), b) else b,
                GeneratedMembers(xs[1..], ys[1..], root), k)
  {
    hide StrCmp, CompareCode, Generated, Sent, KeyRun;
    var rest := GeneratedMembers(xs[1..], ys[1..], root);
    if CompareCode(xs[0].value, ys[0].value) == 0 || Generated(xs[0].value, ys[0].value).None? {
      assert GeneratedMembers(xs, ys, root) == [] + rest == rest;
    } else {
      OneRun(b, Member(ys[0].key, Generated(xs[0].value, ys[0].value).value), rest, k);
    }
  }

  // ---- when the patch works

  /** A key of `to` comes out right, by how the walk met it. */
  ghost predicate KeyOk(from: Json, r: Meeting)
    decreases from, 0
  {
    match r
    case Never => true
    case FromOnly => true
    case ToOnly(y) => !y.Null? && Expressible(None, Norm(y))
    case FromFirst(y) => !y.Null? && Expressible(None, Norm(y))
    case ToFirst => false
    case Together(x, y) => Norm(x) == Norm(y) || (!y.Null? && x < from && Mergeable(x, y))
  }

  /**
   * The patch from one document to the other works: no key of `to` is passed while `from` still has it ahead, what is
   * sent whole has no null to lose, and what is changed in place can be changed.
   */
  ghost predicate Mergeable(from: Json, to: Json)
    decreases from, 1
  {
    if !from.Object? || !to.Object? then Expressible(Some(Norm(from)), Norm(to))
    else forall k :: k in NormMembers(to.members) ==> KeyOk(from, Meet(Sorted(from.members), Sorted(to.members), k))
  }

  /** For all well-formed documents: the patch is shaped like one, and it works exactly if it is mergeable. */
  lemma {:induction false} GeneratedExactly(from: Json, to: Json)
    requires WellFormed(from) && WellFormed(to)
    ensures Generated(from, to).None? ==> Norm(from) == Norm(to)
    ensures Generated(from, to).Some? ==> PatchShaped(Generated(from, to).value)
    ensures Generated(from, to).Some? ==>
      (Applied(Some(Norm(from)), Generated(from, to).value) == Norm(to) <==> Mergeable(from, to))
    decreases from, 2
  {
    hide Applied, SemMerge, Expressible, Meet, AppliedFields, KeyOk, Sorted, NormMembers, WellFormedMembers, NormItems;
    hide CompareCode, PatchShaped;
    if !from.Object? || !to.Object? {
      WholeApplied(Some(Norm(from)), to, Some(from));
      WholeSent(Norm(from), Norm(to));
    } else {
      var xs, ys := Sorted(from.members), Sorted(to.members);
      SortedBelow(from);
      SortedObject(from.members);
      SortedObject(to.members);
      var ps := GeneratedMembers(xs, ys, from);
      WalkShaped(xs, ys, from);
      if ps != [] {
        var m, n := NormMembers(from.members), NormMembers(to.members);
        var r := AppliedFields(m, ps);
        assert Applied(Some(Norm(from)), Object(ps)) == SObject(r) by {
          AppliedObject(Some(Norm(from)), ps);
        }
        forall k
          ensures k !in n ==> k !in r
          ensures k in n ==> ((k in r && r[k] == n[k]) <==> KeyOk(from, Meet(xs, ys, k)))
        {
          KeyExactly(from, to, k);
        }
        assert r.Keys <= n.Keys;
      }
    }
  }

  lemma AppliedObject(t: Option<Sem>, ps: seq<Member>)
    ensures Applied(t, Object(ps)) == SObject(AppliedFields(FieldsOf(t), ps))
  {
  }

  /** A value sent whole over something that is not an object with fields of its own. */
  lemma WholeSent(a: Sem, b: Sem)
    requires !a.SObject? || !b.SObject?
    ensures SemMerge(Some(a), b) == b <==> Expressible(Some(a), b)
  {
    if !a.SObject? {
      WholeValue(Some(a), b);
    }
  }

  lemma {:induction false} KeyExactly(from: Json, to: Json, k: string)
    requires WellFormed(from) && WellFormed(to) && from.Object? && to.Object?
    requires Below(Sorted(from.members), from)
    ensures var m, n := NormMembers(from.members), NormMembers(to.members);
      var r := AppliedFields(m, GeneratedMembers(Sorted(from.members), Sorted(to.members), from));
      && (k !in n ==> k !in r)
      && (k in n ==> ((k in r && r[k] == n[k]) <==> KeyOk(from, Meet(Sorted(from.members), Sorted(to.members), k))))
    decreases from, 1
  {
    hide Norm, Applied, AppliedFields, Expressible, Meet, GeneratedMembers, Sorted, CompareCode, Generated;
    var xs, ys := Sorted(from.members), Sorted(to.members);
    var m, n := NormMembers(from.members), NormMembers(to.members);
    SortedObject(from.members);
    SortedObject(to.members);
    AppliedAt(m, GeneratedMembers(xs, ys, from), k);
    GenerateRun(Get(m, k), xs, ys, from, k);
    MeetFaithful(xs, ys, k);
    match Meet(xs, ys, k)
    case ToOnly(y) => SentWhole(y);
    case FromFirst(y) => SentWhole(y);
    case Together(x, y) =>
      CompareZero(x, y);
      GeneratedExactly(x, y);
      if CompareCode(x, y) != 0 {
        ChangeArrives(x, y);
      }
    case _ =>
  }

  lemma SentWhole(y: Json)
    requires WellFormed(y)
    ensures Sent(None, y) == Some(Norm(y)) <==> !y.Null? && Expressible(None, Norm(y))
  {
    hide SemMerge, Expressible, Norm;
    WholeApplied(None, y, None);
    WholeValue(None, Norm(y));
  }

  lemma ChangeArrives(x: Json, y: Json)
    requires Generated(x, y).Some?
    ensures Changed(Some(Norm(x)), x, y) ==
      if y.Null? then None else Some(Applied(Some(Norm(x)), Generated(x, y).value))
  {
  }

  /** Nothing but patch members is written, and nothing at all only between equal lists. */
  lemma {:induction false} WalkShaped(xs: seq<Member>, ys: seq<Member>, root: Json)
    requires Below(xs, root) && WellFormedMembers(xs) && WellFormedMembers(ys)
    ensures PatchShaped(Object(GeneratedMembers(xs, ys, root)))
    ensures GeneratedMembers(xs, ys, root) == [] ==> NormMembers(xs) == NormMembers(ys)
    decreases root, 0, |xs| + |ys|
  {
    hide Norm, NormMembers, WellFormed, WellFormedMembers, StrCmp, CompareCode, Generated;
    if xs == [] && ys == [] {
    } else {
      var c := Advance(xs, ys);
      if c < 0 {
        Tail(xs);
        WalkShaped(xs[1..], ys, root);
        NothingGenerated();
      } else if c > 0 {
        Tail(ys);
        WalkShaped(xs, ys[1..], root);
        ShapedDocument(ys[0].value);
      } else {
        Tail(xs);
        Tail(ys);
        StrCmpZero(xs[0].key, ys[0].key);
        WalkShaped(xs[1..], ys[1..], root);
        CompareZero(xs[0].value, ys[0].value);
        GeneratedExactly(xs[0].value, ys[0].value);
      }
    }
  }

  /**
   * For all well-formed documents, whatever the case of their keys: a NULL patch means they were equal, and otherwise
   * merging the patch into a duplicate of `from` gives `to` exactly if they are mergeable.
   */
  lemma MergeRoundTripExactly(from: Json, to: Json)
    requires WellFormed(from) && WellFormed(to)
    ensures Generated(from, to).None? ==> Norm(from) == Norm(to)
    ensures Generated(from, to).Some? ==>
      (Norm(Merged(Some(from), Generated(from, to).value)) == Norm(to) <==> Mergeable(from, to))
  {
    hide Generated, Merged, Norm, Mergeable, Applied;
    GeneratedExactly(from, to);
    if Generated(from, to).Some? {
      MergedApplies(Some(from), Generated(from, to).value);
    }
  }
}
