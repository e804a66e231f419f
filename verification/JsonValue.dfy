/** Documents, and what a document means once member order and key case are forgotten. */
module JsonValue {
  import opened CStrings

  /** A cJSON tree. Numbers are integers a double holds exactly; the key of a child lives in its member. */
  datatype Json =
    | Null
    | False
    | True
    | Number(n: int)
    | String(s: string)
    | Array(items: seq<Json>)
    | Object(members: seq<Member>)

  datatype Member = Member(key: string, value: Json)

  /** Equality of the low byte of `type`. */
  predicate SameType(a: Json, b: Json) {
    match a
    case Null => b.Null?
    case False => b.False?
    case True => b.True?
    case Number(_) => b.Number?
    case String(_) => b.String?
    case Array(_) => b.Array?
    case Object(_) => b.Object?
  }

  predicate DistinctKeys(ms: seq<Member>) {
    forall i, j :: 0 <= i < j < |ms| ==> Fold(ms[i].key) != Fold(ms[j].key)
  }

  /** In every object the keys are C strings and differ by more than case. */
  predicate WellFormed(v: Json) {
    match v
    case Array(items) => forall i :: 0 <= i < |items| ==> WellFormed(items[i])
    case Object(ms) => WellFormedMembers(ms)
    case _ => true
  }

  predicate WellFormedMembers(ms: seq<Member>) {
    && DistinctKeys(ms)
    && (forall i :: 0 <= i < |ms| ==> NulFree(ms[i].key))
    && (forall i :: 0 <= i < |ms| ==> WellFormed(ms[i].value))
  }

  /** A document as RFC 8259 reads it: an object is an unordered map, here keyed by folded name. */
  datatype Sem =
    | SNull
    | SFalse
    | STrue
    | SNumber(n: int)
    | SString(s: string)
    | SArray(items: seq<Sem>)
    | SObject(fields: map<string, Sem>)

  function Norm(v: Json): (r: Sem)
    decreases v
  {
    match v
    case Null => SNull
    case False => SFalse
    case True => STrue
    case Number(n) => SNumber(n)
    case String(s) => SString(s)
    case Array(items) => SArray(NormItems(items))
    case Object(ms) => SObject(NormMembers(ms))
  }

  function NormItems(items: seq<Json>): (r: seq<Sem>)
    ensures |r| == |items| && forall i :: 0 <= i < |items| ==> r[i] == Norm(items[i])
    decreases items
  {
    if items == [] then [] else [Norm(items[0])] + NormItems(items[1..])
  }

  /** A repeated key counts once, with its first value: the one a lookup finds. */
  function NormMembers(ms: seq<Member>): (r: map<string, Sem>)
    decreases ms
  {
    if ms == [] then map[]
    else NormMembers(ms[1..])[Fold(ms[0].key) := Norm(ms[0].value)]
  }

  /** `m` holds the members of `ms` and nothing else. */
  ghost predicate Holds(m: map<string, Sem>, ms: seq<Member>) {
    && (forall i {:trigger ms[i]} :: 0 <= i < |ms| ==> Fold(ms[i].key) in m && m[Fold(ms[i].key)] == Norm(ms[i].value))
    && (forall k :: k in m ==> HasKey(ms, k))
  }

  ghost predicate HasKey(ms: seq<Member>, k: string) {
    exists i :: 0 <= i < |ms| && Fold(ms[i].key) == k
  }

  lemma {:induction false} NormMembersHolds(ms: seq<Member>)
    requires DistinctKeys(ms)
    ensures Holds(NormMembers(ms), ms)
  {
    if ms != [] {
      NormMembersHolds(ms[1..]);
      forall i {:trigger ms[i]} | 0 <= i < |ms|
        ensures Fold(ms[i].key) in NormMembers(ms) && NormMembers(ms)[Fold(ms[i].key)] == Norm(ms[i].value)
      {
        if i > 0 {
          assert ms[i] == ms[1..][i - 1];
        }
      }
      forall k | k in NormMembers(ms)
        ensures HasKey(ms, k)
      {
        if k == Fold(ms[0].key) {
        } else {
          assert HasKey(ms[1..], k);
          var i :| 0 <= i < |ms[1..]| && Fold(ms[1..][i].key) == k;
          assert Fold(ms[i + 1].key) == k;
        }
      }
    }
  }

  lemma HoldsUnique(m: map<string, Sem>, ms: seq<Member>)
    requires DistinctKeys(ms) && Holds(m, ms)
    ensures NormMembers(ms) == m
  {
    NormMembersHolds(ms);
    var n := NormMembers(ms);
    forall k | k in n
      ensures k in m && m[k] == n[k]
    {
      var i :| 0 <= i < |ms| && Fold(ms[i].key) == k;
    }
    forall k | k in m
      ensures k in n
    {
      var i :| 0 <= i < |ms| && Fold(ms[i].key) == k;
    }
  }

  /** Index of the first member a case-blind lookup of `key` stops at, or the length if there is none. */
  function FindKey(ms: seq<Member>, key: string): (i: nat)
    ensures i <= |ms|
    ensures i < |ms| ==> Fold(ms[i].key) == Fold(key)
    ensures forall j :: 0 <= j < i ==> Fold(ms[j].key) != Fold(key)
  {
    if ms == [] then 0
    else if Fold(ms[0].key) == Fold(key) then 0
    else
      var r := FindKey(ms[1..], key);
      assert forall j :: 1 <= j < 1 + r ==> ms[j] == ms[1..][j - 1];
      1 + r
  }

  /** `cJSON_GetObjectItem`: walk the children until the keys agree up to case. */
  method GetObjectItem(ms: seq<Member>, key: string) returns (i: nat)
    requires NulFree(key) && forall j :: 0 <= j < |ms| ==> NulFree(ms[j].key)
    ensures i == FindKey(ms, key)
  {
    i := 0;
    while i < |ms|
      invariant i <= |ms|
      invariant forall j :: 0 <= j < i ==> Fold(ms[j].key) != Fold(key)
    {
      var diff := StrCaseCmp(ms[i].key, key);
      CaseCmpZero(ms[i].key, key);
      if diff == 0 {
        break;
      }
      i := i + 1;
    }
  }

  /** Looking a key up in the list finds what the map holds for it. */
  lemma FindKeyHolds(ms: seq<Member>, key: string)
    requires DistinctKeys(ms)
    ensures FindKey(ms, key) < |ms| <==> Fold(key) in NormMembers(ms)
    ensures FindKey(ms, key) < |ms| ==> NormMembers(ms)[Fold(key)] == Norm(ms[FindKey(ms, key)].value)
  {
    NormMembersHolds(ms);
    var i := FindKey(ms, key);
    if i < |ms| {
      assert ms[i] == ms[i];
    }
  }

  // ---- the three edits of a child list, on lists and on maps

  function RemoveAt<T>(s: seq<T>, i: nat): (r: seq<T>)
    requires i < |s|
  {
    s[..i] + s[i + 1..]
  }

  function InsertAt<T>(s: seq<T>, i: nat, x: T): (r: seq<T>)
    requires i <= |s|
  {
    s[..i] + [x] + s[i..]
  }

  /** `cJSON_DeleteItemFromObject`. */
  function DropKey(ms: seq<Member>, key: string): (r: seq<Member>) {
    var i := FindKey(ms, key);
    if i < |ms| then RemoveAt(ms, i) else ms
  }

  /** Delete then append, as ApplyPatch and MergePatch store a member. */
  function PutKey(ms: seq<Member>, key: string, v: Json): (r: seq<Member>) {
    DropKey(ms, key) + [Member(key, v)]
  }

  /** The first member with the name goes, the new one comes last, and the others keep their order. */
  lemma PutKeyOrder(before: seq<Member>, old_: Member, behind: seq<Member>, key: string, v: Json)
    requires Fold(old_.key) == Fold(key) && forall i :: 0 <= i < |before| ==> Fold(before[i].key) != Fold(key)
    ensures PutKey(before + [old_] + behind, key, v) == before + behind + [Member(key, v)]
    ensures PutKey(before, key, v) == before + [Member(key, v)]
  {
    hide Fold;
    var ms := before + [old_] + behind;
    assert ms[|before|] == old_ && forall i :: 0 <= i < |before| ==> ms[i] == before[i];
    assert FindKey(ms, key) == |before|;
    assert RemoveAt(ms, |before|) == before + behind;
  }

  /** Where a member of the shortened list came from. */
  lemma RemoveAtIndex<T>(s: seq<T>, i: nat, j: nat)
    requires i < |s| && j < |s| - 1
    ensures RemoveAt(s, i)[j] == s[if j < i then j else j + 1]
  {
  }

  lemma RemoveAtKeeps(ms: seq<Member>, i: nat, k: string)
    requires i < |ms| && HasKey(ms, k) && k != Fold(ms[i].key)
    ensures HasKey(RemoveAt(ms, i), k)
  {
    var o :| 0 <= o < |ms| && Fold(ms[o].key) == k;
    RemoveAtIndex(ms, i, if o < i then o else o - 1);
  }

  lemma RemoveAtHolds(ms: seq<Member>, i: nat)
    requires WellFormedMembers(ms) && i < |ms|
    ensures NormMembers(RemoveAt(ms, i)) == NormMembers(ms) - {Fold(ms[i].key)}
  {
    hide WellFormed, Norm, NormMembers, Fold, HasKey;
    var r := RemoveAt(ms, i);
    var m := NormMembers(ms) - {Fold(ms[i].key)};
    NormMembersHolds(ms);
    forall j {:trigger r[j]} | 0 <= j < |r|
      ensures Fold(r[j].key) in m && m[Fold(r[j].key)] == Norm(r[j].value)
    {
      RemoveAtIndex(ms, i, j);
    }
    forall k | k in m
      ensures HasKey(r, k)
    {
      RemoveAtKeeps(ms, i, k);
    }
    HoldsUnique(m, r);
  }

  lemma DropKeyHolds(ms: seq<Member>, key: string)
    requires WellFormedMembers(ms)
    ensures WellFormedMembers(DropKey(ms, key))
    ensures NormMembers(DropKey(ms, key)) == NormMembers(ms) - {Fold(key)}
    ensures forall j :: 0 <= j < |DropKey(ms, key)| ==> Fold(DropKey(ms, key)[j].key) != Fold(key)
  {
    hide Norm, NormMembers, WellFormed, Fold;
    var i, r := FindKey(ms, key), DropKey(ms, key);
    if i < |ms| {
      RemoveAtHolds(ms, i);
      forall j | 0 <= j < |r|
        ensures r[j] == ms[if j < i then j else j + 1]
      {
        RemoveAtIndex(ms, i, j);
      }
    } else {
      FindKeyHolds(ms, key);
    }
  }

  lemma AppendKeeps(ms: seq<Member>, m: Member, k: string)
    requires HasKey(ms, k) || k == Fold(m.key)
    ensures HasKey(ms + [m], k)
  {
    var r := ms + [m];
    if HasKey(ms, k) {
      var o :| 0 <= o < |ms| && Fold(ms[o].key) == k;
      assert r[o] == ms[o];
    } else {
      assert r[|ms|] == m;
    }
  }

  lemma AppendHolds(ms: seq<Member>, key: string, v: Json)
    requires WellFormedMembers(ms) && NulFree(key) && WellFormed(v)
    requires forall j :: 0 <= j < |ms| ==> Fold(ms[j].key) != Fold(key)
    ensures WellFormedMembers(ms + [Member(key, v)])
    ensures NormMembers(ms + [Member(key, v)]) == NormMembers(ms)[Fold(key) := Norm(v)]
  {
    hide WellFormed, Norm, NormMembers, Fold, HasKey;
    var r := ms + [Member(key, v)];
    var m := NormMembers(ms)[Fold(key) := Norm(v)];
    NormMembersHolds(ms);
    assert r[|ms|] == Member(key, v);
    forall k | k in m
      ensures HasKey(r, k)
    {
      AppendKeeps(ms, Member(key, v), k);
    }
    HoldsUnique(m, r);
  }

  lemma PutKeyHolds(ms: seq<Member>, key: string, v: Json)
    requires WellFormedMembers(ms) && NulFree(key) && WellFormed(v)
    ensures WellFormedMembers(PutKey(ms, key, v))
    ensures NormMembers(PutKey(ms, key, v)) == NormMembers(ms)[Fold(key) := Norm(v)]
  {
    hide WellFormed, Norm, NormMembers;
    DropKeyHolds(ms, key);
    AppendHolds(DropKey(ms, key), key, v);
    assert (NormMembers(ms) - {Fold(key)})[Fold(key) := Norm(v)] == NormMembers(ms)[Fold(key) := Norm(v)];
  }

  lemma UpdateKeeps(ms: seq<Member>, i: nat, v: Json, k: string)
    requires i < |ms| && (k == Fold(ms[i].key) || HasKey(ms, k))
    ensures HasKey(ms[i := Member(ms[i].key, v)], k)
  {
    var r := ms[i := Member(ms[i].key, v)];
    if k == Fold(ms[i].key) {
      assert r[i].key == ms[i].key;
    } else {
      var o :| 0 <= o < |ms| && Fold(ms[o].key) == k;
      assert r[o].key == ms[o].key;
    }
  }

  /** Replacing one member's value in place. */
  lemma UpdateHolds(ms: seq<Member>, i: nat, v: Json)
    requires WellFormedMembers(ms) && i < |ms| && WellFormed(v)
    ensures WellFormedMembers(ms[i := Member(ms[i].key, v)])
    ensures NormMembers(ms[i := Member(ms[i].key, v)]) == NormMembers(ms)[Fold(ms[i].key) := Norm(v)]
  {
    hide WellFormed, Norm, NormMembers, Fold, HasKey;
    var r := ms[i := Member(ms[i].key, v)];
    var m := NormMembers(ms)[Fold(ms[i].key) := Norm(v)];
    NormMembersHolds(ms);
    assert forall j {:trigger r[j]} :: 0 <= j < |ms| ==> r[j].key == ms[j].key && (j != i ==> r[j] == ms[j]);
    forall k | k in m
      ensures HasKey(r, k)
    {
      assert k == Fold(ms[i].key) || HasKey(ms, k);
      UpdateKeeps(ms, i, v, k);
    }
    HoldsUnique(m, r);
  }

  /** A list with the same members in another order is the same map. */
  lemma PermutationHolds(ms: seq<Member>, rs: seq<Member>)
    requires DistinctKeys(ms) && DistinctKeys(rs) && multiset(ms) == multiset(rs)
    ensures NormMembers(ms) == NormMembers(rs)
  {
    var m := NormMembers(ms);
    NormMembersHolds(ms);
    forall i {:trigger rs[i]} | 0 <= i < |rs|
      ensures Fold(rs[i].key) in m && m[Fold(rs[i].key)] == Norm(rs[i].value)
    {
      assert rs[i] in multiset(rs);
      assert rs[i] in ms;
    }
    forall k | k in m
      ensures HasKey(rs, k)
    {
      var o :| 0 <= o < |ms| && Fold(ms[o].key) == k;
      assert ms[o] in multiset(ms);
      assert ms[o] in rs;
      var j :| 0 <= j < |rs| && rs[j] == ms[o];
    }
    HoldsUnique(m, rs);
  }
}
