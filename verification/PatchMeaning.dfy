/** What pointers and patches do to the meaning of a document. */
module PatchMeaning {
  import opened CStrings
  import opened JsonValue
  import opened Pointer
  import opened Patch
  import opened Compare

  // ---- pointers on meanings

  /** The value a token selects. */
  function Step(s: Sem, token: string): (r: Option<Sem>) {
    match s
    case SArray(items) =>
      (match IndexOf(token)
       case Some(i) => if i < |items| then Some(items[i]) else None
       case None => None)
    case SObject(fields) =>
      (match Unescape(token)
       case Some(k) => if Fold(k) in fields then Some(fields[Fold(k)]) else None
       case None => None)
    case _ => None
  }

  /** The same value with what the token selects replaced. */
  function PutStep(s: Sem, token: string, w: Sem): (r: Sem)
    requires Step(s, token).Some?
  {
    if s.SArray? then SArray(s.items[IndexOf(token).value := w])
    else SObject(s.fields[Fold(Unescape(token).value) := w])
  }

  function SemAt(s: Sem, tokens: seq<string>): (r: Option<Sem>)
    decreases |tokens|
  {
    if tokens == [] then Some(s)
    else match Step(s, tokens[0])
      case Some(c) => SemAt(c, tokens[1..])
      case None => None
  }

  function SemSet(s: Sem, tokens: seq<string>, w: Sem): (r: Sem)
    requires SemAt(s, tokens).Some?
    decreases |tokens|
  {
    if tokens == [] then w
    else PutStep(s, tokens[0], SemSet(Step(s, tokens[0]).value, tokens[1..], w))
  }

  lemma {:induction false} SetAtSame(s: Sem, tokens: seq<string>)
    requires SemAt(s, tokens).Some?
    ensures SemSet(s, tokens, SemAt(s, tokens).value) == s
    decreases |tokens|
  {
    if tokens != [] {
      SetAtSame(Step(s, tokens[0]).value, tokens[1..]);
    }
  }

  /** Reading back what was set, and setting twice. */
  lemma {:induction false} SetTwice(s: Sem, tokens: seq<string>, w: Sem, w': Sem)
    requires SemAt(s, tokens).Some?
    ensures SemAt(SemSet(s, tokens, w), tokens) == Some(w)
    ensures SemSet(SemSet(s, tokens, w), tokens, w') == SemSet(s, tokens, w')
    decreases |tokens|
  {
    if tokens != [] {
      var c, rest := Step(s, tokens[0]).value, tokens[1..];
      SetTwice(c, rest, w, w');
    }
  }

  /** A path one token longer goes through the value at the shorter path. */
  lemma {:induction false} AtSnoc(s: Sem, tokens: seq<string>, t: string)
    ensures SemAt(s, tokens + [t]) ==
      match SemAt(s, tokens) { case Some(v) => Step(v, t) case None => None }
    decreases |tokens|
  {
    if tokens == [] {
      assert tokens + [t] == [t];
    } else {
      assert (tokens + [t])[1..] == tokens[1..] + [t];
      var c := Step(s, tokens[0]);
      if c.Some? {
        AtSnoc(c.value, tokens[1..], t);
      }
    }
  }

  lemma {:induction false} SetSnoc(s: Sem, tokens: seq<string>, t: string, w: Sem)
    requires SemAt(s, tokens).Some? && Step(SemAt(s, tokens).value, t).Some?
    ensures SemAt(s, tokens + [t]).Some?
    ensures SemSet(s, tokens + [t], w) == SemSet(s, tokens, PutStep(SemAt(s, tokens).value, t, w))
    decreases |tokens|
  {
    AtSnoc(s, tokens, t);
    if tokens == [] {
      assert tokens + [t] == [t];
      assert SemSet(s, [t], w) == PutStep(s, t, SemSet(Step(s, t).value, [], w));
    } else {
      assert (tokens + [t])[1..] == tokens[1..] + [t];
      SetSnoc(Step(s, tokens[0]).value, tokens[1..], t, w);
    }
  }

  // ---- the tree agrees with its meaning

  lemma StepMeaning(v: Json, token: string)
    requires WellFormed(v)
    ensures var i := Select(v, token);
      Step(Norm(v), token) == if i < ChildCount(v) then Some(Norm(Child(v, i))) else None
  {
    match v
    case Object(ms) =>
      var u := Unescape(token);
      if u.Some? {
        FindKeyHolds(ms, u.value);
      }
    case _ =>
  }

  lemma PutMeaning(v: Json, token: string, w: Json)
    requires WellFormed(v) && WellFormed(w) && Select(v, token) < ChildCount(v)
    ensures WellFormed(SetChild(v, Select(v, token), w))
    ensures Step(Norm(v), token).Some?
    ensures Norm(SetChild(v, Select(v, token), w)) == PutStep(Norm(v), token, Norm(w))
  {
    hide NormItems, NormMembers, WellFormedMembers, Unescape, IndexOf;
    StepMeaning(v, token);
    var i := Select(v, token);
    if v.Array? {
      UpdateItems(v.items, i, w);
    } else {
      UpdateHolds(v.members, i, w);
    }
  }

  lemma UpdateItems(items: seq<Json>, i: nat, w: Json)
    requires i < |items|
    ensures NormItems(items[i := w]) == NormItems(items)[i := Norm(w)]
  {
    hide Norm, NormItems;
  }

  /** GetPointer finds the node that the pointer denotes, and replacing the node replaces its meaning. */
  lemma {:induction false} ResolveMeaning(v: Json, tokens: seq<string>)
    requires WellFormed(v)
    ensures Resolve(v, tokens).Some? <==> SemAt(Norm(v), tokens).Some?
    ensures Resolve(v, tokens).Some? ==>
      var node := At(v, Resolve(v, tokens).value);
      node.Some? && WellFormed(node.value) && SemAt(Norm(v), tokens) == Some(Norm(node.value))
    decreases |tokens|
  {
    ResolveAt(v, tokens);
    if tokens != [] {
      StepMeaning(v, tokens[0]);
      var i := Select(v, tokens[0]);
      if i < ChildCount(v) {
        ResolveMeaning(Child(v, i), tokens[1..]);
        var r := Resolve(Child(v, i), tokens[1..]);
        assert r.Some? ==> ([i] + r.value)[1..] == r.value;
      }
    }
  }

  lemma {:induction false} SetMeaning(v: Json, tokens: seq<string>, w: Json)
    requires WellFormed(v) && WellFormed(w) && Resolve(v, tokens).Some?
    ensures SemAt(Norm(v), tokens).Some? && At(v, Resolve(v, tokens).value).Some?
    ensures WellFormed(SetAt(v, Resolve(v, tokens).value, w))
    ensures Norm(SetAt(v, Resolve(v, tokens).value, w)) == SemSet(Norm(v), tokens, Norm(w))
    decreases |tokens|
  {
    ResolveMeaning(v, tokens);
    if tokens != [] {
      var i := Select(v, tokens[0]);
      StepMeaning(v, tokens[0]);
      SetMeaning(Child(v, i), tokens[1..], w);
      var r := Resolve(Child(v, i), tokens[1..]);
      assert ([i] + r.value)[1..] == r.value;
      PutMeaning(v, tokens[0], SetAt(Child(v, i), r.value, w));
    }
  }

  // ---- patches on meanings

  /** What was taken out, if anything, and what is left. */
  datatype SemDetached = SemDetached(item: Option<Sem>, doc: Sem) | SemUndetachable

  function Lift(v: Option<Json>): (r: Option<Sem>) {
    match v
    case Some(j) => Some(Norm(j))
    case None => None
  }

  function DetachedMeaning(d: Detached): (r: SemDetached) {
    match d
    case Detached(item, doc) => SemDetached(Lift(item), Norm(doc))
    case Undetachable => SemUndetachable
  }

  /** What detaching does to one container: an absent member or index leaves it alone. */
  function SemDetachFrom(parent: Sem, child: string): (r: SemDetached) {
    match parent
    case SArray(items) =>
      (match Atoi(child)
       case None => SemUndetachable
       case Some(i) =>
         if 0 <= i < |items| then SemDetached(Some(items[i]), SArray(RemoveAt(items, i)))
         else SemDetached(None, parent))
    case SObject(fields) =>
      if Fold(child) in fields then SemDetached(Some(fields[Fold(child)]), SObject(fields - {Fold(child)}))
      else SemDetached(None, parent)
    case _ => SemDetached(None, parent)
  }

  function SemDetach(s: Sem, path: string): (r: SemDetached) {
    match LastSlash(path)
    case None => SemDetached(None, s)
    case Some(k) =>
      match Decode(path[k + 1..])
      case None => SemUndetachable
      case Some(child) =>
        match SemAt(s, Split(path[..k]))
        case None => SemDetached(None, s)
        case Some(parent) =>
          match SemDetachFrom(parent, child)
          case SemUndetachable => SemUndetachable
          case SemDetached(item, node) => SemDetached(item, SemSet(s, Split(path[..k]), node))
  }

  lemma RemoveItems(items: seq<Json>, i: nat)
    requires i < |items|
    ensures NormItems(RemoveAt(items, i)) == RemoveAt(NormItems(items), i)
  {
    hide Norm, NormItems;
    forall j | 0 <= j < |items| - 1
      ensures NormItems(RemoveAt(items, i))[j] == RemoveAt(NormItems(items), i)[j]
    {
      RemoveAtIndex(items, i, j);
      RemoveAtIndex(NormItems(items), i, j);
    }
  }

  lemma DetachFromMeaning(parent: Json, child: string)
    requires WellFormed(parent)
    ensures DetachedMeaning(DetachFrom(parent, child)) == SemDetachFrom(Norm(parent), child)
    ensures var d := DetachFrom(parent, child);
      d.Detached? ==> WellFormed(d.doc) && (d.item.Some? ==> WellFormed(d.item.value))
  {
    hide Atoi, NormItems, NormMembers;
    match parent
    case Array(items) =>
      var i := Atoi(child);
      if i.Some? && 0 <= i.value < |items| {
        RemoveItems(items, i.value);
        var r := RemoveAt(items, i.value);
        assert forall k :: 0 <= k < |r| ==> r[k] in items;
      }
    case Object(ms) =>
      DropKeyHolds(ms, child);
      FindKeyHolds(ms, child);
    case _ =>
  }

  lemma DetachMeaning(doc: Json, path: string)
    requires WellFormed(doc)
    ensures DetachedMeaning(PatchDetach(doc, path)) == SemDetach(Norm(doc), path)
    ensures var d := PatchDetach(doc, path);
      d.Detached? ==> WellFormed(d.doc) && (d.item.Some? ==> WellFormed(d.item.value))
  {
    hide DetachFrom, SemDetachFrom, Split;
    var k := LastSlash(path);
    if k.Some? {
      var tokens := Split(path[..k.value]);
      var child := Decode(path[k.value + 1..]);
      ResolveMeaning(doc, tokens);
      var r := Resolve(doc, tokens);
      if child.Some? && r.Some? {
        var parent := At(doc, r.value).value;
        DetachFromMeaning(parent, child.value);
        var d := DetachFrom(parent, child.value);
        if d.Detached? {
          SetMeaning(doc, tokens, d.doc);
        }
      }
    }
  }

  /** Whether the step succeeded, and the document it leaves. */
  datatype SemApplied = SemApplied(ok: bool, doc: Sem) | SemUndefined

  function AppliedMeaning(r: Applied): (s: SemApplied) {
    match r
    case Applied(err, doc) => SemApplied(err == 0, Norm(doc))
    case Undefined => SemUndefined
  }

  /** What adding does to one container: an index past the end appends, and a scalar stays as it is. */
  function SemAddTo(parent: Sem, child: string, value: Sem): (r: Option<Sem>) {
    match parent
    case SArray(items) =>
      if child == "-" then Some(SArray(items + [value]))
      else (match Atoi(child)
        case None => None
        case Some(i) => Some(SArray(InsertAt(items, InsertIndex(i, |items|), value))))
    case SObject(fields) => Some(SObject(fields[Fold(child) := value]))
    case _ => Some(parent)
  }

  /** A path without `/` means the root, and there the member name is empty. */
  function SemAdd(s: Sem, path: string, value: Sem): (r: SemApplied) {
    match LastSlash(path)
    case None =>
      (match s
       case SArray(_) => SemUndefined
       case SObject(fields) => SemApplied(true, SObject(fields["" := value]))
       case _ => SemApplied(true, s))
    case Some(k) =>
      match Decode(path[k + 1..])
      case None => SemUndefined
      case Some(child) =>
        match SemAt(s, Split(path[..k]))
        case None => SemApplied(false, s)
        case Some(parent) =>
          match SemAddTo(parent, child, value)
          case None => SemUndefined
          case Some(node) => SemApplied(true, SemSet(s, Split(path[..k]), node))
  }

  lemma {:induction false} DecodeNulFree(s: string)
    requires NulFree(s) && Decode(s).Some?
    ensures NulFree(Decode(s).value)
    decreases |s|
  {
    if s != [] {
      if s[0] != '~' {
        DecodeNulFree(s[1..]);
      } else {
        DecodeNulFree(s[2..]);
      }
    }
  }

  lemma InsertItems(items: seq<Json>, i: nat, v: Json)
    requires i <= |items|
    ensures NormItems(InsertAt(items, i, v)) == InsertAt(NormItems(items), i, Norm(v))
  {
    hide Norm, NormItems;
  }

  lemma AppendItem(items: seq<Json>, v: Json)
    ensures NormItems(items + [v]) == NormItems(items) + [Norm(v)]
  {
    hide Norm, NormItems;
  }

  lemma InsertWellFormed(items: seq<Json>, i: nat, v: Json)
    requires i <= |items| && WellFormed(v) && WellFormed(Array(items))
    ensures WellFormed(Array(InsertAt(items, i, v)))
    ensures i == |items| ==> InsertAt(items, i, v) == items + [v]
  {
  }

  lemma AddToMeaning(parent: Json, child: string, value: Json)
    requires WellFormed(parent) && WellFormed(value) && NulFree(child)
    ensures Lift(AddTo(parent, child, value)) == SemAddTo(Norm(parent), child, Norm(value))
    ensures AddTo(parent, child, value).Some? ==> WellFormed(AddTo(parent, child, value).value)
  {
    hide Atoi, NormItems, NormMembers, PutKey, WellFormedMembers;
    match parent
    case Array(items) =>
      var i := Atoi(child);
      if child == "-" {
        AppendItem(items, value);
        InsertWellFormed(items, |items|, value);
      } else if i.Some? {
        InsertItems(items, InsertIndex(i.value, |items|), value);
        InsertWellFormed(items, InsertIndex(i.value, |items|), value);
      }
    case Object(ms) =>
      PutKeyHolds(ms, child, value);
    case _ =>
  }

  /** The outcomes correspond, and the tree left is well formed. */
  ghost predicate Refines(r: Applied, s: SemApplied) {
    AppliedMeaning(r) == s && (r.Applied? ==> WellFormed(r.doc))
  }

  lemma AddBelowMeaning(doc: Json, path: string, value: Json)
    requires WellFormed(doc) && WellFormed(value) && NulFree(path) && LastSlash(path).Some?
    ensures Refines(AddValue(doc, path, value), SemAdd(Norm(doc), path, Norm(value)))
  {
    hide AddTo, SemAddTo, Split, Resolve, SemAt, SetAt, SemSet, Norm, WellFormed, Decode, LastSlash;
    var k := LastSlash(path).value;
    var tokens := Split(path[..k]);
    var child := Decode(path[k + 1..]);
    ResolveMeaning(doc, tokens);
    var r := Resolve(doc, tokens);
    if child.Some? && r.Some? {
      DecodeNulFree(path[k + 1..]);
      var parent := At(doc, r.value).value;
      AddToMeaning(parent, child.value, value);
      var n := AddTo(parent, child.value, value);
      if n.Some? {
        SetMeaning(doc, tokens, n.value);
      }
    }
  }

  /** No `/` in the path, and the root is an object with an empty name already: it gets a second one. */
  predicate DoublesAt(s: Sem, path: string) {
    LastSlash(path).None? && s.SObject? && "" in s.fields
  }

  lemma AddUnnamed(ms: seq<Member>, value: Json)
    requires WellFormedMembers(ms) && WellFormed(value)
    ensures "" in NormMembers(ms) <==> !WellFormedMembers(ms + [Member("", value)])
    ensures "" !in NormMembers(ms) ==> NormMembers(ms + [Member("", value)]) == NormMembers(ms)["" := Norm(value)]
  {
    hide WellFormed, Norm, NormMembers;
    var ns, i := ms + [Member("", value)], FindKey(ms, "");
    FindKeyHolds(ms, "");
    assert Fold("") == "" && ns[|ms|] == Member("", value);
    if i < |ms| {
      assert Fold(ns[i].key) == Fold(ns[|ms|].key);
    } else {
      AppendHolds(ms, "", value);
    }
  }

  /** Adding does to the meaning what it should exactly if it does not double the empty name. */
  lemma AddMeaning(doc: Json, path: string, value: Json)
    requires WellFormed(doc) && WellFormed(value) && NulFree(path)
    ensures Refines(AddValue(doc, path, value), SemAdd(Norm(doc), path, Norm(value))) <==> !DoublesAt(Norm(doc), path)
  {
    hide LastSlash, NormMembers, WellFormedMembers;
    if LastSlash(path).Some? {
      AddBelowMeaning(doc, path, value);
    } else if doc.Object? {
      AddUnnamed(doc.members, value);
    }
  }

  /** A patch of C strings. */
  predicate IsPatch(patch: Json) {
    WellFormed(patch) && match Field(patch, "path") { case Some(String(path)) => NulFree(path) case _ => true }
  }

  /** What ApplyPatch does to the meaning. Where that is what RFC 6902 asks for is the matter of module Rfc6902. */
  function SemApply(s: Sem, patch: Json): (r: SemApplied) {
    match (Field(patch, "op"), Field(patch, "path"))
    case (Some(String(op)), Some(String(path))) => SemApplyOp(s, op, path, patch)
    case (None, _) => SemApplied(false, s)
    case (_, None) => SemApplied(false, s)
    case (Some(String(op)), _) =>
      if op in ["add", "remove", "replace", "move", "copy", "test"] then SemUndefined else SemApplied(false, s)
    case _ => SemUndefined
  }

  function SemApplyOp(s: Sem, op: string, path: string, patch: Json): (r: SemApplied) {
    if op == "add" then SemApplyAdd(s, path, patch)
    else if op == "remove" then SemRemove(s, path)
    else if op == "replace" then SemReplace(s, path, patch)
    else if op == "move" then SemMove(s, path, patch)
    else if op == "copy" then SemCopy(s, path, patch)
    else if op == "test" then SemTest(s, path, patch)
    else SemApplied(false, s)
  }

  function SemApplyAdd(s: Sem, path: string, patch: Json): (r: SemApplied) {
    match Field(patch, "value")
    case None => SemApplied(false, s)
    case Some(v) => SemAdd(s, path, Norm(v))
  }

  function SemRemove(s: Sem, path: string): (r: SemApplied) {
    match SemDetach(s, path)
    case SemUndetachable => SemUndefined
    case SemDetached(_, rest) => SemApplied(true, rest)
  }

  function SemReplace(s: Sem, path: string, patch: Json): (r: SemApplied) {
    match SemDetach(s, path)
    case SemUndetachable => SemUndefined
    case SemDetached(_, rest) => SemApplyAdd(rest, path, patch)
  }

  function SemMove(s: Sem, path: string, patch: Json): (r: SemApplied) {
    match Field(patch, "from")
    case None => SemApplied(false, s)
    case Some(String(from)) =>
      (match SemDetach(s, from)
       case SemUndetachable => SemUndefined
       case SemDetached(None, rest) => SemApplied(false, rest)
       case SemDetached(Some(v), rest) => SemAdd(rest, path, v))
    case Some(_) => SemUndefined
  }

  function SemCopy(s: Sem, path: string, patch: Json): (r: SemApplied) {
    match Field(patch, "from")
    case None => SemApplied(false, s)
    case Some(String(from)) =>
      (match SemAt(s, Split(from))
       case None => SemApplied(false, s)
       case Some(v) => SemAdd(s, path, v))
    case Some(_) => SemUndefined
  }

  function SemTest(s: Sem, path: string, patch: Json): (r: SemApplied) {
    match Field(patch, "value")
    case None => SemApplied(false, s)
    case Some(v) => SemApplied(SemAt(s, Split(path)) == Some(Norm(v)), s)
  }

  // ---- the one way to leave the well-formed documents

  /** The patch gives the root a second empty name. */
  predicate Doubles(s: Sem, patch: Json) {
    match (Field(patch, "op"), Field(patch, "path"))
    case (Some(String(op)), Some(String(path))) => OpDoubles(s, op, path, patch)
    case _ => false
  }

  predicate OpDoubles(s: Sem, op: string, path: string, patch: Json) {
    if op == "add" || op == "replace" then Field(patch, "value").Some? && DoublesAt(s, path)
    else if op == "move" then MoveDoubles(s, path, patch)
    else op == "copy" && CopyDoubles(s, path, patch)
  }

  predicate MoveDoubles(s: Sem, path: string, patch: Json) {
    match Field(patch, "from")
    case Some(String(from)) =>
      var d := SemDetach(s, from);
      d.SemDetached? && d.item.Some? && DoublesAt(d.doc, path)
    case _ => false
  }

  predicate CopyDoubles(s: Sem, path: string, patch: Json) {
    match Field(patch, "from")
    case Some(String(from)) => SemAt(s, Split(from)).Some? && DoublesAt(s, path)
    case _ => false
  }

  lemma ItemWellFormed(patch: Json, name: string)
    requires WellFormed(patch) && Field(patch, name).Some?
    ensures WellFormed(Field(patch, name).value)
  {
  }

  lemma AddOpMeaning(doc: Json, path: string, patch: Json)
    requires WellFormed(doc) && WellFormed(patch) && NulFree(path)
    ensures Refines(ApplyAdd(doc, path, patch), SemApplyAdd(Norm(doc), path, patch)) <==>
      !(Field(patch, "value").Some? && DoublesAt(Norm(doc), path))
  {
    hide AddValue, SemAdd, Field, DoublesAt;
    var v := Field(patch, "value");
    if v.Some? {
      ItemWellFormed(patch, "value");
      AddMeaning(doc, path, v.value);
    }
  }

  lemma RemoveOpMeaning(doc: Json, path: string)
    requires WellFormed(doc)
    ensures Refines(ApplyRemove(doc, path), SemRemove(Norm(doc), path))
  {
    hide PatchDetach, SemDetach;
    DetachMeaning(doc, path);
  }

  /** With a `/` in the path nothing doubles; without one nothing is taken out. */
  lemma DetachKeepsRoot(s: Sem, path: string)
    ensures var d := SemDetach(s, path);
      d.SemDetached? ==> (DoublesAt(d.doc, path) <==> DoublesAt(s, path))
    ensures SemDetach(s, path).SemUndetachable? ==> !DoublesAt(s, path)
  {
  }

  lemma ReplaceOpMeaning(doc: Json, path: string, patch: Json)
    requires WellFormed(doc) && WellFormed(patch) && NulFree(path)
    ensures Refines(ApplyReplace(doc, path, patch), SemReplace(Norm(doc), path, patch)) <==>
      !(Field(patch, "value").Some? && DoublesAt(Norm(doc), path))
  {
    hide PatchDetach, SemDetach, ApplyAdd, SemApplyAdd, Field, DoublesAt;
    DetachMeaning(doc, path);
    DetachKeepsRoot(Norm(doc), path);
    var d := PatchDetach(doc, path);
    if d.Detached? {
      AddOpMeaning(d.doc, path, patch);
    }
  }

  lemma MoveOpMeaning(doc: Json, path: string, patch: Json)
    requires WellFormed(doc) && NulFree(path)
    ensures Refines(ApplyMove(doc, path, patch), SemMove(Norm(doc), path, patch)) <==>
      !MoveDoubles(Norm(doc), path, patch)
  {
    hide PatchDetach, SemDetach, AddValue, SemAdd, Field, DoublesAt;
    var from := Field(patch, "from");
    if from.Some? && from.value.String? {
      DetachMeaning(doc, from.value.s);
      var d := PatchDetach(doc, from.value.s);
      if d.Detached? && d.item.Some? {
        AddMeaning(d.doc, path, d.item.value);
      }
    }
  }

  lemma CopyOpMeaning(doc: Json, path: string, patch: Json)
    requires WellFormed(doc) && NulFree(path)
    ensures Refines(ApplyCopy(doc, path, patch), SemCopy(Norm(doc), path, patch)) <==>
      !CopyDoubles(Norm(doc), path, patch)
  {
    hide AddValue, SemAdd, Field, Resolve, SemAt, Split, DoublesAt;
    var from := Field(patch, "from");
    if from.Some? && from.value.String? {
      var tokens := Split(from.value.s);
      ResolveMeaning(doc, tokens);
      if Resolve(doc, tokens).Some? {
        AddMeaning(doc, path, At(doc, Resolve(doc, tokens).value).value);
      }
    }
  }

  lemma TestOpMeaning(doc: Json, path: string, patch: Json)
    requires WellFormed(doc) && WellFormed(patch)
    ensures Refines(ApplyTest(doc, path, patch), SemTest(Norm(doc), path, patch))
  {
    hide Field, Resolve, SemAt, Split, CompareCode, Touched, SetAt, SemSet, Norm, WellFormed;
    var v := Field(patch, "value");
    if v.Some? {
      var tokens := Split(path);
      ItemWellFormed(patch, "value");
      ResolveMeaning(doc, tokens);
      if Resolve(doc, tokens).Some? {
        var node := At(doc, Resolve(doc, tokens).value).value;
        CompareZero(node, v.value);
        TouchedMeaning(node, v.value);
        SetMeaning(doc, tokens, Touched(node, v.value).0);
        SetAtSame(Norm(doc), tokens);
      }
    }
  }

  lemma OpMeaning(doc: Json, op: string, path: string, patch: Json)
    requires WellFormed(doc) && WellFormed(patch) && NulFree(path)
    ensures Refines(ApplyOp(doc, op, path, patch), SemApplyOp(Norm(doc), op, path, patch)) <==>
      !OpDoubles(Norm(doc), op, path, patch)
  {
    hide ApplyAdd, ApplyRemove, ApplyReplace, ApplyMove, ApplyCopy, ApplyTest, Field, Norm, WellFormed, Refines;
    hide SemApplyAdd, SemRemove, SemReplace, SemMove, SemCopy, SemTest, DoublesAt, MoveDoubles, CopyDoubles;
    if op == "add" {
      AddOpMeaning(doc, path, patch);
    } else if op == "remove" {
      RemoveOpMeaning(doc, path);
    } else if op == "replace" {
      ReplaceOpMeaning(doc, path, patch);
    } else if op == "move" {
      MoveOpMeaning(doc, path, patch);
    } else if op == "copy" {
      CopyOpMeaning(doc, path, patch);
    } else if op == "test" {
      TestOpMeaning(doc, path, patch);
    } else {
      ErrorMeaning(3, doc);
    }
  }

  lemma ErrorMeaning(err: int, doc: Json)
    requires WellFormed(doc) && err != 0
    ensures Refines(Applied(err, doc), SemApplied(false, Norm(doc))) && Refines(Undefined, SemUndefined)
  {
  }

  /**
   * On values, for every patch: the status and the effect of ApplyPatch depend on the meaning alone and the tree stays
   * well formed, exactly if the patch does not double the empty name of the root.
   */
  lemma ApplyMeaning(doc: Json, patch: Json)
    requires WellFormed(doc) && IsPatch(patch)
    ensures Refines(ApplyPatch(doc, patch), SemApply(Norm(doc), patch)) <==> !Doubles(Norm(doc), patch)
  {
    hide ApplyOp, SemApplyOp, OpDoubles, Field, Norm, WellFormed, Refines;
    var o, p := Field(patch, "op"), Field(patch, "path");
    ErrorMeaning(2, doc);
    ErrorMeaning(3, doc);
    if o.Some? && o.value.String? && p.Some? && p.value.String? {
      OpMeaning(doc, o.value.s, p.value.s, patch);
    }
  }

  // ---- whole patch documents

  predicate AllPatches(patches: seq<Json>) {
    forall i :: 0 <= i < |patches| ==> IsPatch(patches[i])
  }

  function SemApplyAll(s: Sem, patches: seq<Json>): (r: SemApplied)
    decreases |patches|
  {
    if patches == [] then SemApplied(true, s)
    else match SemApply(s, patches[0])
      case SemUndefined => SemUndefined
      case SemApplied(ok, d) => if ok then SemApplyAll(d, patches[1..]) else SemApplied(false, d)
  }

  /** Some patch of the run doubles. */
  predicate DoublesSome(s: Sem, patches: seq<Json>)
    decreases |patches|
  {
    patches != [] &&
    (Doubles(s, patches[0]) ||
     (var r := SemApply(s, patches[0]);
      r.SemApplied? && r.ok && DoublesSome(r.doc, patches[1..])))
  }

  /** Whole patch documents on values; in place, where nodes keep their links, the law has a condition: StaleHeads. */
  lemma {:induction false} ApplyAllMeaning(doc: Json, patches: seq<Json>)
    requires WellFormed(doc) && AllPatches(patches)
    ensures !DoublesSome(Norm(doc), patches) ==> Refines(ApplyAll(doc, patches), SemApplyAll(Norm(doc), patches))
    decreases |patches|
  {
    hide ApplyPatch, SemApply, IsPatch, Doubles;
    if patches != [] && !Doubles(Norm(doc), patches[0]) {
      ApplyMeaning(doc, patches[0]);
      var r := ApplyPatch(doc, patches[0]);
      if r.Applied? {
        ApplyAllMeaning(r.doc, patches[1..]);
      }
    }
  }

  /** After every patch of the list so far. */
  ghost predicate Throughout(doc: Json, patches: seq<Json>) {
    forall k :: 0 <= k <= |patches| ==> Refines(ApplyAll(doc, patches[..k]), SemApplyAll(Norm(doc), patches[..k]))
  }

  /** The law holds after every patch of the list exactly if none doubles. */
  lemma {:induction false} ThroughoutExactly(doc: Json, patches: seq<Json>)
    requires WellFormed(doc) && AllPatches(patches)
    ensures Throughout(doc, patches) <==> !DoublesSome(Norm(doc), patches)
    decreases |patches|
  {
    hide ApplyPatch, SemApply, IsPatch, Doubles, Norm, WellFormed, ApplyAll, SemApplyAll;
    if patches == [] {
      assert patches[..0] == [];
      ApplyAllMeaning(doc, []);
    } else {
      ApplyMeaning(doc, patches[0]);
      FirstThen(doc, patches);
      var r := ApplyPatch(doc, patches[0]);
      if !Doubles(Norm(doc), patches[0]) && r.Applied? && r.err == 0 {
        ThroughoutExactly(r.doc, patches[1..]);
      }
    }
  }

  /** The law throughout a list: at the first patch, and then throughout the rest. */
  lemma FirstThen(doc: Json, patches: seq<Json>)
    requires WellFormed(doc) && AllPatches(patches) && patches != []
    ensures var r, m := ApplyPatch(doc, patches[0]), SemApply(Norm(doc), patches[0]);
      Throughout(doc, patches) <==>
        Refines(r, m) && (r.Applied? && r.err == 0 ==> Throughout(r.doc, patches[1..]))
  {
    hide ApplyPatch, SemApply, IsPatch, Norm, WellFormed, ApplyAll, SemApplyAll, Refines;
    var r, m := ApplyPatch(doc, patches[0]), SemApply(Norm(doc), patches[0]);
    var rest := patches[1..];
    TakeNone(doc, patches);
    TakeOne(doc, patches);
    if Refines(r, m) {
      forall k | 0 < k <= |patches|
        ensures Refines(ApplyAll(doc, patches[..k]), SemApplyAll(Norm(doc), patches[..k])) <==>
          (r.Applied? && r.err == 0 ==>
            Refines(ApplyAll(r.doc, rest[..k - 1]), SemApplyAll(Norm(r.doc), rest[..k - 1])))
      {
        TakeSome(doc, patches, k);
      }
      if Throughout(doc, patches) && r.Applied? && r.err == 0 {
        forall k | 0 <= k <= |rest|
          ensures Refines(ApplyAll(r.doc, rest[..k]), SemApplyAll(Norm(r.doc), rest[..k]))
        {
          assert Refines(ApplyAll(doc, patches[..k + 1]), SemApplyAll(Norm(doc), patches[..k + 1]));
        }
      }
    }
  }

  lemma TakeNone(doc: Json, patches: seq<Json>)
    requires WellFormed(doc)
    ensures Refines(ApplyAll(doc, patches[..0]), SemApplyAll(Norm(doc), patches[..0]))
  {
  }

  lemma TakeOne(doc: Json, patches: seq<Json>)
    requires patches != []
    ensures Refines(ApplyAll(doc, patches[..1]), SemApplyAll(Norm(doc), patches[..1])) <==>
      Refines(ApplyPatch(doc, patches[0]), SemApply(Norm(doc), patches[0]))
  {
    hide ApplyPatch, SemApply, Norm, WellFormed;
    var p := patches[..1];
    assert p[0] == patches[0] && p[1..] == [];
    var r, m := ApplyPatch(doc, p[0]), SemApply(Norm(doc), p[0]);
    assert r.Applied? ==> ApplyAll(r.doc, []) == Applied(0, r.doc);
    assert m.SemApplied? ==> SemApplyAll(m.doc, []) == SemApplied(true, m.doc);
  }

  lemma TakeSome(doc: Json, patches: seq<Json>, k: nat)
    requires 0 < k <= |patches| && Refines(ApplyPatch(doc, patches[0]), SemApply(Norm(doc), patches[0]))
    ensures var r := ApplyPatch(doc, patches[0]);
      Refines(ApplyAll(doc, patches[..k]), SemApplyAll(Norm(doc), patches[..k])) <==>
        (r.Applied? && r.err == 0 ==>
          Refines(ApplyAll(r.doc, patches[1..][..k - 1]), SemApplyAll(Norm(r.doc), patches[1..][..k - 1])))
  {
    hide ApplyPatch, SemApply, Norm, WellFormed;
    assert patches[..k][0] == patches[0] && patches[..k][1..] == patches[1..][..k - 1];
  }

  /** A path with a child part. */
  predicate Placed(patch: Json) {
    IsPatch(patch) && match Field(patch, "path") { case Some(String(path)) => LastSlash(path).Some? case _ => false }
  }

  predicate AllPlaced(patches: seq<Json>) {
    forall i :: 0 <= i < |patches| ==> Placed(patches[i])
  }

  lemma {:induction false} PlacedNeverDoubles(s: Sem, patches: seq<Json>)
    requires AllPlaced(patches)
    ensures AllPatches(patches) && !DoublesSome(s, patches)
    decreases |patches|
  {
    hide SemApply, IsPatch, Field, SemDetach, SemAt;
    if patches != [] {
      assert Placed(patches[0]);
      var r := SemApply(s, patches[0]);
      PlacedNeverDoubles(if r.SemApplied? then r.doc else s, patches[1..]);
    }
  }

  lemma {:induction false} SemApplyAllAppend(s: Sem, a: seq<Json>, b: seq<Json>)
    ensures AllPlaced(a) && AllPlaced(b) ==> AllPlaced(a + b)
    ensures SemApplyAll(s, a).SemApplied? && SemApplyAll(s, a).ok ==>
      SemApplyAll(s, a + b) == SemApplyAll(SemApplyAll(s, a).doc, b)
    decreases |a|
  {
    hide SemApply, Placed;
    if a == [] {
      assert a + b == b;
    } else {
      assert (a + b)[1..] == a[1..] + b;
      var r := SemApply(s, a[0]);
      if r.SemApplied? {
        SemApplyAllAppend(r.doc, a[1..], b);
      }
    }
  }
}
