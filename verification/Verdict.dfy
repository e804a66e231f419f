/** Which verdict the comparison and a patch return. */
module Verdict {
  import opened CStrings
  import opened JsonValue
  import opened ChildList
  import opened Compare
  import opened Pointer
  import opened Patch

  // ---- the comparison

  /** The children in the order they are compared: items as they are, members sorted. */
  function Row(v: Json): (r: seq<Member>) {
    match v
    case Array(items) => seq(|items|, i requires 0 <= i < |items| => Member("", items[i]))
    case Object(ms) => Sorted(ms)
    case _ => []
  }

  /** The first `k` children agree, names and meanings. */
  predicate Agree(xs: seq<Member>, ys: seq<Member>, k: nat) {
    && k <= |xs| && k <= |ys|
    && forall i :: 0 <= i < k ==> Fold(xs[i].key) == Fold(ys[i].key) && Norm(xs[i].value) == Norm(ys[i].value)
  }

  /** What is wrong with two documents that part where they stand. */
  ghost predicate PartHere(a: Json, b: Json, code: int) {
    var xs, ys := Row(a), Row(b);
    var n := Min(|xs|, |ys|);
    match code
    case -1 => !SameType(a, b)
    case -2 => a.Number? && b.Number? && a.n != b.n
    case -3 => a.String? && b.String? && a.s != b.s
    case -4 => a.Array? && b.Array? && |xs| != |ys| && Agree(xs, ys, n)
    case -5 => a.Object? && b.Object? && |xs| != |ys| && Agree(xs, ys, n)
    case -6 =>
      a.Object? && b.Object? && exists k: nat :: k < n && Agree(xs, ys, k) && Fold(xs[k].key) != Fold(ys[k].key)
    case _ => false
  }

  /** They part at `place`: everything before it agrees. */
  ghost predicate PartAt(a: Json, b: Json, place: seq<nat>, code: int)
    decreases |place|
  {
    if place == [] then PartHere(a, b, code)
    else
      var xs, ys, k := Row(a), Row(b), place[0];
      && SameType(a, b) && k < |xs| && k < |ys| && Agree(xs, ys, k) && Fold(xs[k].key) == Fold(ys[k].key)
      && PartAt(xs[k].value, ys[k].value, place[1..], code)
  }

  /** `k` children agree, and `code` is what comes of the next ones. */
  predicate Stops(xs: seq<Member>, ys: seq<Member>, k: nat, code: int, short: int) {
    && Agree(xs, ys, k)
    && if k == |xs| && k == |ys| then code == 0
       else if k == |xs| || k == |ys| then code == short
       else if Fold(xs[k].key) != Fold(ys[k].key) then code == -6
       else code == CompareCode(xs[k].value, ys[k].value) && Norm(xs[k].value) != Norm(ys[k].value)
  }

  lemma {:induction false} ItemsStop(xs: seq<Json>, ys: seq<Json>) returns (k: nat)
    requires forall i :: 0 <= i < |xs| ==> WellFormed(xs[i])
    requires forall i :: 0 <= i < |ys| ==> WellFormed(ys[i])
    ensures Stops(Row(Array(xs)), Row(Array(ys)), k, CompareItems(xs, ys), -4)
  {
    hide Norm, WellFormed, CompareCode, CompareItems, Stops;
    var rx, ry, code := Row(Array(xs)), Row(Array(ys)), CompareItems(xs, ys);
    if xs == [] || ys == [] {
      ItemsEnd(xs, ys);
      k := 0;
      StopsNow(rx, ry, code, -4);
    } else {
      ItemsStep(xs, ys);
      CompareZero(xs[0], ys[0]);
      if CompareCode(xs[0], ys[0]) == 0 {
        var j := ItemsStop(xs[1..], ys[1..]);
        k := j + 1;
        StopsLater(rx, ry, Row(Array(xs[1..])), Row(Array(ys[1..])), j, code, -4);
      } else {
        k := 0;
        StopsNow(rx, ry, code, -4);
      }
    }
  }

  predicate Sound(xs: seq<Member>) {
    forall i :: 0 <= i < |xs| ==> NulFree(xs[i].key) && WellFormed(xs[i].value)
  }

  lemma {:induction false} MembersStop(xs: seq<Member>, ys: seq<Member>, root: Json) returns (k: nat)
    requires Sound(xs) && Sound(ys) && Below(xs, root)
    ensures Stops(xs, ys, k, CompareMembers(xs, ys, root), -5)
  {
    hide Norm, WellFormed, NulFree, CompareCode, CompareMembers, CaseCmp, Fold, Stops;
    var code := CompareMembers(xs, ys, root);
    if xs == [] || ys == [] {
      MembersEnd(xs, ys, root);
      k := 0;
      StopsNow(xs, ys, code, -5);
    } else {
      MembersStep(xs, ys, root);
      CompareZero(xs[0].value, ys[0].value);
      CaseCmpZero(xs[0].key, ys[0].key);
      if Fold(xs[0].key) == Fold(ys[0].key) && CompareCode(xs[0].value, ys[0].value) == 0 {
        var j := MembersStop(xs[1..], ys[1..], root);
        k := j + 1;
        StopsLater(xs, ys, xs[1..], ys[1..], j, code, -5);
      } else {
        k := 0;
        StopsNow(xs, ys, code, -5);
      }
    }
  }

  lemma StopsNow(xs: seq<Member>, ys: seq<Member>, code: int, short: int)
    requires if xs == [] && ys == [] then code == 0
      else if xs == [] || ys == [] then code == short
      else if Fold(xs[0].key) != Fold(ys[0].key) then code == -6
      else code == CompareCode(xs[0].value, ys[0].value) && Norm(xs[0].value) != Norm(ys[0].value)
    ensures Stops(xs, ys, 0, code, short)
  {
    hide Norm, Fold, CompareCode;
  }

  lemma StopsLater(xs: seq<Member>, ys: seq<Member>, xs': seq<Member>, ys': seq<Member>, j: nat, code: int, short: int)
    requires xs != [] && ys != [] && xs[1..] == xs' && ys[1..] == ys' && Stops(xs', ys', j, code, short)
    requires Fold(xs[0].key) == Fold(ys[0].key) && Norm(xs[0].value) == Norm(ys[0].value)
    ensures Stops(xs, ys, j + 1, code, short)
  {
    hide Norm, Fold, CompareCode;
  }

  /** Where two containers of one kind stop agreeing. */
  lemma RowsStop(a: Json, b: Json) returns (k: nat)
    requires WellFormed(a) && WellFormed(b) && SameType(a, b) && (a.Array? || a.Object?)
    ensures Stops(Row(a), Row(b), k, CompareCode(a, b), if a.Array? then -4 else -5)
    ensures forall i :: 0 <= i < |Row(a)| ==> WellFormed(Row(a)[i].value) && Row(a)[i].value < a
    ensures forall i :: 0 <= i < |Row(b)| ==> WellFormed(Row(b)[i].value)
    ensures a.Array? ==> forall i :: 0 <= i < |Row(a)| && i < |Row(b)| ==> Row(a)[i].key == Row(b)[i].key
  {
    hide Stops, Sorted, CompareItems, CompareMembers;
    if a.Array? {
      k := ItemsStop(a.items, b.items);
    } else {
      SortedObject(a.members);
      SortedObject(b.members);
      SortedBelow(a);
      k := MembersStop(Sorted(a.members), Sorted(b.members), a);
    }
  }

  lemma RowEmpty(a: Json)
    requires !a.Array? && !a.Object?
    ensures Row(a) == []
  {
  }

  /** Two containers of one kind part here, or in the first children that do not agree. */
  lemma StopsHere(a: Json, b: Json, k: nat)
    requires SameType(a, b) && (a.Array? || a.Object?) && CompareCode(a, b) != 0
    requires Stops(Row(a), Row(b), k, CompareCode(a, b), if a.Array? then -4 else -5)
    requires a.Array? ==> forall i :: 0 <= i < |Row(a)| && i < |Row(b)| ==> Row(a)[i].key == Row(b)[i].key
    requires k < |Row(a)| && k < |Row(b)| ==> Fold(Row(a)[k].key) != Fold(Row(b)[k].key)
    ensures PartHere(a, b, CompareCode(a, b))
  {
    hide Norm, Fold, Row, CompareCode;
    if k < |Row(a)| && k < |Row(b)| {
      assert Agree(Row(a), Row(b), k);
    } else {
      assert k == Min(|Row(a)|, |Row(b)|);
    }
  }

  lemma {:induction false} FindPart(a: Json, b: Json) returns (place: seq<nat>)
    requires WellFormed(a) && WellFormed(b) && CompareCode(a, b) != 0
    ensures PartAt(a, b, place, CompareCode(a, b))
    decreases a
  {
    hide Norm, WellFormed, Fold, Row;
    place := [];
    if SameType(a, b) && (a.Array? || a.Object?) {
      hide CompareCode, PartHere, SameType;
      var k := RowsStop(a, b);
      var xs, ys := Row(a), Row(b);
      if k < |xs| && k < |ys| && Fold(xs[k].key) == Fold(ys[k].key) {
        CompareZero(xs[k].value, ys[k].value);
        var rest := FindPart(xs[k].value, ys[k].value);
        place := [k] + rest;
        assert place[1..] == rest;
      } else {
        StopsHere(a, b, k);
      }
    }
  }

  /** No other children part earlier or later. */
  lemma PartHereIs(a: Json, b: Json, k: nat, code: int)
    requires SameType(a, b) && (a.Array? || a.Object?) && PartHere(a, b, code)
    requires Stops(Row(a), Row(b), k, CompareCode(a, b), if a.Array? then -4 else -5)
    ensures CompareCode(a, b) == code && code != 0
  {
    hide Norm, Fold, Row, CompareCode;
    var xs, ys := Row(a), Row(b);
    if code == -6 {
      var j: nat :| j < |xs| && j < |ys| && Agree(xs, ys, j) && Fold(xs[j].key) != Fold(ys[j].key);
      assert k == j;
    } else {
      assert k == Min(|xs|, |ys|);
    }
  }

  lemma {:induction false} PartIs(a: Json, b: Json, place: seq<nat>, code: int)
    requires WellFormed(a) && WellFormed(b) && PartAt(a, b, place, code)
    ensures CompareCode(a, b) == code && code != 0
    decreases |place|
  {
    hide Norm, WellFormed, Fold, Row;
    if SameType(a, b) && (a.Array? || a.Object?) {
      hide CompareCode, PartHere, SameType;
      var k := RowsStop(a, b);
      if place == [] {
        PartHereIs(a, b, k, code);
      } else {
        var x, y := Row(a)[place[0]].value, Row(b)[place[0]].value;
        PartIs(x, y, place[1..], code);
        CompareZero(x, y);
        assert k == place[0];
      }
    } else if !a.Array? && !a.Object? {
      RowEmpty(a);
    }
  }

  /**
   * The verdict is that of the first difference: a type, a number, a string, the length of an array, the number of
   * members or a name, where everything before it agrees.
   */
  lemma VerdictExactly(a: Json, b: Json, code: int)
    requires WellFormed(a) && WellFormed(b)
    ensures CompareCode(a, b) == code && code != 0 <==> exists place :: PartAt(a, b, place, code)
  {
    hide CompareCode, WellFormed, PartAt;
    if CompareCode(a, b) == code && code != 0 {
      var place := FindPart(a, b);
    }
    forall place | PartAt(a, b, place, code) ensures CompareCode(a, b) == code && code != 0 {
      PartIs(a, b, place, code);
    }
  }

  // ---- what a comparison without a difference leaves

  /** The same document in the same order; only the case of names may differ. */
  predicate Alike(a: Json, b: Json) {
    match a
    case Array(items) =>
      b.Array? && |items| == |b.items| && forall i :: 0 <= i < |items| ==> Alike(items[i], b.items[i])
    case Object(ms) => b.Object? && AlikeMembers(ms, b.members)
    case _ => a == b
  }

  predicate AlikeMembers(xs: seq<Member>, ys: seq<Member>) {
    && |xs| == |ys|
    && forall i :: 0 <= i < |xs| ==> Fold(xs[i].key) == Fold(ys[i].key) && Alike(xs[i].value, ys[i].value)
  }

  /** Documents of equal meaning are left in the same order throughout. */
  lemma {:induction false} TouchedAlike(a: Json, b: Json)
    requires WellFormed(a) && WellFormed(b) && CompareCode(a, b) == 0
    ensures Alike(Touched(a, b).0, Touched(a, b).1)
    decreases a, 1, 0
  {
    hide TouchedItems, TouchedMembers, CompareItems, CompareMembers, Sorted, AlikeMembers;
    if a.Array? {
      TouchedItemsAlike(a.items, b.items);
    } else if a.Object? {
      SortedObject(a.members);
      SortedObject(b.members);
      SortedBelow(a);
      TouchedMembersAlike(Sorted(a.members), Sorted(b.members), a);
    }
  }

  lemma {:induction false} TouchedItemsAlike(xs: seq<Json>, ys: seq<Json>)
    requires forall i :: 0 <= i < |xs| ==> WellFormed(xs[i])
    requires forall i :: 0 <= i < |ys| ==> WellFormed(ys[i])
    requires CompareItems(xs, ys) == 0
    ensures var t := TouchedItems(xs, ys);
      |t.0| == |t.1| && forall i :: 0 <= i < |t.0| ==> Alike(t.0[i], t.1[i])
    decreases xs, 0, 0
  {
    hide Alike, WellFormed, CompareCode, Touched, TouchedItems, CompareItems;
    if xs == [] || ys == [] {
      ItemsEnd(xs, ys);
    } else {
      ItemsStep(xs, ys);
      TouchedAlike(xs[0], ys[0]);
      TouchedItemsAlike(xs[1..], ys[1..]);
    }
  }

  lemma {:induction false} TouchedMembersAlike(xs: seq<Member>, ys: seq<Member>, root: Json)
    requires Sound(xs) && Sound(ys) && Below(xs, root) && CompareMembers(xs, ys, root) == 0
    ensures var t := TouchedMembers(xs, ys, root); AlikeMembers(t.0, t.1)
    decreases root, 0, |xs|
  {
    hide Alike, WellFormed, NulFree, Fold, CaseCmp, CompareCode, Touched, TouchedMembers, CompareMembers;
    if xs == [] || ys == [] {
      MembersEnd(xs, ys, root);
    } else {
      MembersStep(xs, ys, root);
      CaseCmpZero(xs[0].key, ys[0].key);
      TouchedAlike(xs[0].value, ys[0].value);
      TouchedMembersAlike(xs[1..], ys[1..], root);
    }
  }

  // ---- the patch

  datatype Kind = Add | Remove | Replace | Move | Copy | Test | Unknown

  function KindOf(op: string): (k: Kind) {
    if op == "add" then Add
    else if op == "remove" then Remove
    else if op == "replace" then Replace
    else if op == "move" then Move
    else if op == "copy" then Copy
    else if op == "test" then Test
    else Unknown
  }

  /** What a patch with an operation and a path asks for. */
  function Asked(patch: Json): (r: Option<Kind>) {
    match (Field(patch, "op"), Field(patch, "path"))
    case (Some(String(op)), Some(_)) => Some(KindOf(op))
    case _ => None
  }

  /** The node at `from` is there: to take out for a move, to read for a copy. */
  predicate HasSource(doc: Json, from: Json, kind: Kind) {
    from.String? &&
    if kind == Move then PatchDetach(doc, from.s).Detached? && PatchDetach(doc, from.s).item.Some?
    else Resolve(doc, Split(from.s)).Some?
  }

  /** The document without the node at a path. */
  function Without(doc: Json, path: Json): (r: Json) {
    if path.String? && PatchDetach(doc, path.s).Detached? then PatchDetach(doc, path.s).doc else doc
  }

  /** Nothing is where the parent of the target should be. */
  predicate NoParent(doc: Json, path: Json) {
    path.String? && LastSlash(path.s).Some? && Resolve(doc, Split(path.s[..LastSlash(path.s).value])).None?
  }

  /** There is a value to put: given with the patch, or found at the source. */
  predicate HasValue(doc: Json, patch: Json, kind: Kind) {
    if kind == Add || kind == Replace then Field(patch, "value").Some?
    else
      && (kind == Move || kind == Copy)
      && Field(patch, "from").Some? && HasSource(doc, Field(patch, "from").value, kind)
  }

  /** The document a value is put into: what is replaced or moved is out of it. */
  function Cleared(doc: Json, patch: Json, kind: Kind): (r: Json) {
    match kind
    case Replace => if Field(patch, "path").Some? then Without(doc, Field(patch, "path").value) else doc
    case Move => if Field(patch, "from").Some? then Without(doc, Field(patch, "from").value) else doc
    case _ => doc
  }

  /** Each status of an operation stands for one fault. */
  predicate RightStatus(doc: Json, patch: Json, path: Json, kind: Kind, e: int) {
    && (e == 3 <==> kind == Unknown)
    && (e == 4 <==> (kind == Move || kind == Copy) && Field(patch, "from").None?)
    && (e == 5 <==> (kind == Move || kind == Copy) && Field(patch, "from").Some? && !HasValue(doc, patch, kind))
    && (e == 7 <==> (kind == Add || kind == Replace) && Field(patch, "value").None?)
    && (e == 9 <==> HasValue(doc, patch, kind) && NoParent(Cleared(doc, patch, kind), path))
    && e in {0, 3, 4, 5, 7, 9}
  }

  lemma AddStatus(doc: Json, path: string, value: Json)
    requires AddValue(doc, path, value).Applied?
    ensures var e := AddValue(doc, path, value).err; (e == 9 <==> NoParent(doc, String(path))) && e in {0, 9}
  {
    hide Resolve, Split, AddTo, Decode, LastSlash, SetAt, At;
  }

  lemma OpStatus(doc: Json, op: string, path: string, patch: Json)
    requires ApplyOp(doc, op, path, patch).Applied? && KindOf(op) != Test
    requires Field(patch, "path") == Some(String(path))
    ensures RightStatus(doc, patch, String(path), KindOf(op), ApplyOp(doc, op, path, patch).err)
  {
    hide Field, Resolve, Split, PatchDetach, AddValue, NoParent, RightStatus;
    hide ApplyAdd, ApplyReplace, ApplyMove, ApplyCopy;
    match KindOf(op)
    case Add => PutStatus(doc, path, patch);
    case Replace => PutStatus(doc, path, patch);
    case Move => MoveStatus(doc, path, patch);
    case Copy => CopyStatus(doc, path, patch);
    case k => OtherStatus(doc, patch, path, k);
  }

  lemma OtherStatus(doc: Json, patch: Json, path: string, k: Kind)
    requires k == Unknown || k == Remove
    ensures RightStatus(doc, patch, String(path), k, if k == Unknown then 3 else 0)
  {
    hide Field;
  }

  lemma PutStatus(doc: Json, path: string, patch: Json)
    requires Field(patch, "path") == Some(String(path))
    ensures var r := ApplyAdd(doc, path, patch); r.Applied? ==> RightStatus(doc, patch, String(path), Add, r.err)
    ensures var r := ApplyReplace(doc, path, patch);
      r.Applied? ==> RightStatus(doc, patch, String(path), Replace, r.err)
  {
    hide Field, PatchDetach, AddValue, NoParent;
    var value, d := Field(patch, "value"), PatchDetach(doc, path);
    if value.Some? {
      if AddValue(doc, path, value.value).Applied? {
        AddStatus(doc, path, value.value);
      }
      if d.Detached? && AddValue(d.doc, path, value.value).Applied? {
        AddStatus(d.doc, path, value.value);
      }
    }
  }

  lemma MoveStatus(doc: Json, path: string, patch: Json)
    ensures var r := ApplyMove(doc, path, patch); r.Applied? ==> RightStatus(doc, patch, String(path), Move, r.err)
  {
    hide Field, PatchDetach, AddValue, NoParent;
    var from := Field(patch, "from");
    if ApplyMove(doc, path, patch).Applied? && from.Some? && HasSource(doc, from.value, Move) {
      AddStatus(PatchDetach(doc, from.value.s).doc, path, PatchDetach(doc, from.value.s).item.value);
    }
  }

  lemma CopyStatus(doc: Json, path: string, patch: Json)
    ensures var r := ApplyCopy(doc, path, patch); r.Applied? ==> RightStatus(doc, patch, String(path), Copy, r.err)
  {
    hide Field, Resolve, Split, AddValue, NoParent;
    var from := Field(patch, "from");
    if ApplyCopy(doc, path, patch).Applied? && from.Some? && HasSource(doc, from.value, Copy) {
      ResolveAt(doc, Split(from.value.s));
      AddStatus(doc, path, At(doc, Resolve(doc, Split(from.value.s)).value).value);
    }
  }

  /** The status of every patch but a `test`: 2 without an operation or a path, else the one of the fault. */
  lemma StatusExactly(doc: Json, patch: Json)
    requires ApplyPatch(doc, patch).Applied? && Asked(patch) != Some(Test)
    ensures var e, incomplete := ApplyPatch(doc, patch).err, Field(patch, "op").None? || Field(patch, "path").None?;
      && (incomplete ==> e == 2)
      && (!incomplete ==>
        Asked(patch).Some? && RightStatus(doc, patch, Field(patch, "path").value, Asked(patch).value, e))
  {
    hide Field, ApplyOp, RightStatus;
    match (Field(patch, "op"), Field(patch, "path"))
    case (Some(String(op)), Some(String(path))) => OpStatus(doc, op, path, patch);
    case (Some(String(op)), Some(_)) => UnknownStatus(doc, op, patch);
    case _ =>
  }

  lemma UnknownStatus(doc: Json, op: string, patch: Json)
    requires op !in ["add", "remove", "replace", "move", "copy", "test"]
    requires Field(patch, "path").Some?
    ensures KindOf(op) == Unknown && RightStatus(doc, patch, Field(patch, "path").value, Unknown, 3)
  {
    hide Field;
  }

  /** The status of a `test` is the verdict on the node its path leads to, and -1 without a node or a value. */
  lemma TestStatus(doc: Json, patch: Json, path: string)
    requires ApplyPatch(doc, patch).Applied? && Asked(patch) == Some(Test)
    requires Field(patch, "path") == Some(String(path))
    ensures var e, at, v := ApplyPatch(doc, patch).err, Resolve(doc, Split(path)), Field(patch, "value");
      && (at.None? || v.None? ==> e == -1)
      && (at.Some? && v.Some? ==> At(doc, at.value).Some? && e == CompareCode(At(doc, at.value).value, v.value))
  {
    hide Field, Resolve, Split, CompareCode;
    ResolveAt(doc, Split(path));
  }
}
