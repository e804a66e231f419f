/**
 * Patching a document in place. Comparing sorts the objects it meets, and the node that becomes the head of a member
 * list keeps the `prev` it had. Here the documents carry that fact along, and the law of patching gets its condition.
 */
module StaleHeads {
  import opened CStrings
  import opened JsonValue
  import opened Pointer
  import opened ChildList
  import opened Compare
  import opened Patch
  import opened PatchMeaning

  // ---- documents with their marks

  /** For a container and all below it: is the `prev` of the first child set? Children without an entry are clean. */
  datatype Marks = Marks(stale: bool, kids: seq<Marks>)

  const CLEAN: Marks := Marks(false, [])

  datatype Tree = Tree(doc: Json, marks: Marks)

  function Kid(m: Marks, i: nat): (k: Marks) {
    if i < |m.kids| then m.kids[i] else CLEAN
  }

  function Kids(m: Marks, n: nat): (ks: seq<Marks>)
    ensures |ks| == n
  {
    seq(n, i requires 0 <= i => Kid(m, i))
  }

  function KidTree(t: Tree, i: nat): (k: Tree)
    requires i < ChildCount(t.doc)
  {
    Tree(Child(t.doc, i), Kid(t.marks, i))
  }

  function TreeAt(t: Tree, a: Address): (r: Tree)
    requires At(t.doc, a).Some?
    ensures At(t.doc, a) == Some(r.doc)
    decreases |a|
  {
    if a == [] then t else TreeAt(KidTree(t, a[0]), a[1..])
  }

  function SetMarks(t: Tree, a: Address, m: Marks): (r: Marks)
    requires At(t.doc, a).Some?
    decreases |a|
  {
    if a == [] then m
    else Marks(t.marks.stale, Kids(t.marks, ChildCount(t.doc))[a[0] := SetMarks(KidTree(t, a[0]), a[1..], m)])
  }

  function SetTree(t: Tree, a: Address, x: Tree): (r: Tree)
    requires At(t.doc, a).Some?
  {
    Tree(SetAt(t.doc, a, x.doc), SetMarks(t, a, x.marks))
  }

  // ---- what a comparison does to the marks

  /** Sorting puts another member first. */
  predicate HeadMoves(ms: seq<Member>) {
    ms != [] && !([ms[0]] <= Sorted(ms))
  }

  /** The marks of the first document after `cJSONUtils_Compare`; finding a child's by its key takes distinct keys. */
  function TouchMarks(t: Tree, b: Json): (m: Marks)
    decreases t.doc, 1, 0
  {
    if t.doc.Array? && b.Array? then
      Marks(t.marks.stale, TouchItems(t.doc.items, Kids(t.marks, |t.doc.items|), b.items))
    else if t.doc.Object? && b.Object? then
      var ms, s := t.doc.members, Sorted(t.doc.members);
      SortedBelow(t.doc);
      Marks(t.marks.stale || HeadMoves(ms),
            TouchMembers(s, seq(|s|, i requires 0 <= i < |s| => Kid(t.marks, FindKey(ms, s[i].key))),
                         Sorted(b.members), t.doc))
    else t.marks
  }

  function TouchItems(xs: seq<Json>, ks: seq<Marks>, ys: seq<Json>): (r: seq<Marks>)
    requires |ks| == |xs|
    decreases xs, 0, 0
  {
    if xs == [] || ys == [] then ks
    else
      [TouchMarks(Tree(xs[0], ks[0]), ys[0])] +
      if CompareCode(xs[0], ys[0]) != 0 then ks[1..] else TouchItems(xs[1..], ks[1..], ys[1..])
  }

  function TouchMembers(xs: seq<Member>, ks: seq<Marks>, ys: seq<Member>, ghost root: Json): (r: seq<Marks>)
    requires |ks| == |xs| && Below(xs, root)
    decreases root, 0, |xs|
  {
    if xs == [] || ys == [] || CaseCmp(xs[0].key, ys[0].key) != 0 then ks
    else
      [TouchMarks(Tree(xs[0].value, ks[0]), ys[0].value)] +
      if CompareCode(xs[0].value, ys[0].value) != 0 then ks[1..] else TouchMembers(xs[1..], ks[1..], ys[1..], root)
  }

  // ---- taking a node out, putting a node in

  function DropChild(v: Json, i: nat): (r: Json)
    requires i < ChildCount(v)
  {
    if v.Array? then Array(RemoveAt(v.items, i)) else Object(RemoveAt(v.members, i))
  }

  /** The container without child `i`. Unlinking a head whose `prev` is set writes through that link: no tree then. */
  function Unlinked(t: Tree, i: nat): (r: Option<Tree>)
    requires i < ChildCount(t.doc)
  {
    if i == 0 && t.marks.stale then None
    else Some(Tree(DropChild(t.doc, i), Marks(t.marks.stale, RemoveAt(Kids(t.marks, ChildCount(t.doc)), i))))
  }

  function Inserted(t: Tree, i: nat, x: Tree): (r: Tree)
    requires t.doc.Array? && i <= |t.doc.items|
  {
    Tree(Array(InsertAt(t.doc.items, i, x.doc)),
         Marks(t.marks.stale && t.doc.items != [], InsertAt(Kids(t.marks, |t.doc.items|), i, x.marks)))
  }

  function Appended(t: Tree, key: string, x: Tree): (r: Tree)
    requires t.doc.Object?
  {
    Tree(Object(t.doc.members + [Member(key, x.doc)]),
         Marks(t.marks.stale && t.doc.members != [], Kids(t.marks, |t.doc.members|) + [x.marks]))
  }

  /** The index of the child a decoded name denotes when detaching; `ChildCount` means none. */
  function IndexIn(parent: Json, child: string): (r: Option<nat>)
    ensures r.Some? ==> r.value <= ChildCount(parent)
  {
    match parent
    case Array(items) =>
      (match Atoi(child)
       case None => None
       case Some(i) => Some(if 0 <= i < |items| then i else |items|))
    case Object(ms) => Some(FindKey(ms, child))
    case _ => Some(0)
  }

  datatype Taken = Taken(item: Option<Tree>, rest: Tree) | TakeUndefined | TakeAstray

  function TakeFrom(t: Tree, child: string): (r: Taken) {
    match IndexIn(t.doc, child)
    case None => TakeUndefined
    case Some(i) =>
      if i == ChildCount(t.doc) then Taken(None, t)
      else match Unlinked(t, i)
        case None => TakeAstray
        case Some(rest) => Taken(Some(KidTree(t, i)), rest)
  }

  /** `cJSONUtils_PatchDetach`. */
  function Take(t: Tree, path: string): (r: Taken) {
    match LastSlash(path)
    case None => Taken(None, t)
    case Some(k) =>
      match Decode(path[k + 1..])
      case None => TakeUndefined
      case Some(child) =>
        match Resolve(t.doc, Split(path[..k]))
        case None => Taken(None, t)
        case Some(a) =>
          ResolveAt(t.doc, Split(path[..k]));
          match TakeFrom(TreeAt(t, a), child)
          case Taken(item, node) => Taken(item, SetTree(t, a, node))
          case other => other
  }

  /** What a patch leaves; `Astray` once the code has written through a stale link. */
  datatype Tracked = Tracked(err: int, tree: Tree) | TrackUndefined | Astray

  /** An object first loses the member of that name. */
  function PutIn(t: Tree, child: string, x: Tree): (r: Tracked) {
    match t.doc
    case Array(items) =>
      if child == "-" then Tracked(0, Inserted(t, |items|, x))
      else (match Atoi(child)
        case None => TrackUndefined
        case Some(i) => Tracked(0, Inserted(t, InsertIndex(i, |items|), x)))
    case Object(ms) =>
      var i := FindKey(ms, child);
      if i == |ms| then Tracked(0, Appended(t, child, x))
      else (match Unlinked(t, i)
        case None => Astray
        case Some(rest) => Tracked(0, Appended(rest, child, x)))
    case _ => Tracked(0, t)
  }

  function Put(t: Tree, path: string, x: Tree): (r: Tracked) {
    match LastSlash(path)
    case None =>
      (match t.doc
       case Array(_) => TrackUndefined
       case Object(_) => Tracked(0, Appended(t, "", x))
       case _ => Tracked(0, t))
    case Some(k) =>
      match Decode(path[k + 1..])
      case None => TrackUndefined
      case Some(child) =>
        match Resolve(t.doc, Split(path[..k]))
        case None => Tracked(9, t)
        case Some(a) =>
          ResolveAt(t.doc, Split(path[..k]));
          match PutIn(TreeAt(t, a), child, x)
          case Tracked(err, node) => Tracked(err, SetTree(t, a, node))
          case other => other
  }

  // ---- the six operations; a duplicate is clean, a moved node keeps its marks

  /** `cJSONUtils_ApplyPatch` on the tree. */
  function Track(t: Tree, patch: Json): (r: Tracked) {
    match (Field(patch, "op"), Field(patch, "path"))
    case (Some(String(op)), Some(String(path))) => TrackOp(t, op, path, patch)
    case (None, _) => Tracked(2, t)
    case (_, None) => Tracked(2, t)
    case (Some(String(op)), _) =>
      if op in ["add", "remove", "replace", "move", "copy", "test"] then TrackUndefined else Tracked(3, t)
    case _ => TrackUndefined
  }

  function TrackOp(t: Tree, op: string, path: string, patch: Json): (r: Tracked) {
    if op == "add" then TrackAdd(t, path, patch)
    else if op == "remove" then TrackRemove(t, path)
    else if op == "replace" then TrackReplace(t, path, patch)
    else if op == "move" then TrackMove(t, path, patch)
    else if op == "copy" then TrackCopy(t, path, patch)
    else if op == "test" then TrackTest(t, path, patch)
    else Tracked(3, t)
  }

  function TrackAdd(t: Tree, path: string, patch: Json): (r: Tracked) {
    match Field(patch, "value")
    case None => Tracked(7, t)
    case Some(v) => Put(t, path, Tree(v, CLEAN))
  }

  function TrackRemove(t: Tree, path: string): (r: Tracked) {
    match Take(t, path)
    case TakeUndefined => TrackUndefined
    case TakeAstray => Astray
    case Taken(_, rest) => Tracked(0, rest)
  }

  function TrackReplace(t: Tree, path: string, patch: Json): (r: Tracked) {
    match Take(t, path)
    case TakeUndefined => TrackUndefined
    case TakeAstray => Astray
    case Taken(_, rest) => TrackAdd(rest, path, patch)
  }

  function TrackMove(t: Tree, path: string, patch: Json): (r: Tracked) {
    match Field(patch, "from")
    case None => Tracked(4, t)
    case Some(String(from)) =>
      (match Take(t, from)
       case TakeUndefined => TrackUndefined
       case TakeAstray => Astray
       case Taken(None, rest) => Tracked(5, rest)
       case Taken(Some(x), rest) => Put(rest, path, x))
    case Some(_) => TrackUndefined
  }

  function TrackCopy(t: Tree, path: string, patch: Json): (r: Tracked) {
    match Field(patch, "from")
    case None => Tracked(4, t)
    case Some(String(from)) =>
      (match Resolve(t.doc, Split(from))
       case None => Tracked(5, t)
       case Some(a) => ResolveAt(t.doc, Split(from)); Put(t, path, Tree(At(t.doc, a).value, CLEAN)))
    case Some(_) => TrackUndefined
  }

  function TrackTest(t: Tree, path: string, patch: Json): (r: Tracked) {
    match (Resolve(t.doc, Split(path)), Field(patch, "value"))
    case (Some(a), Some(v)) =>
      ResolveAt(t.doc, Split(path));
      var node := TreeAt(t, a);
      Tracked(CompareCode(node.doc, v), SetTree(t, a, Tree(Touched(node.doc, v).0, TouchMarks(node, v))))
    case _ => Tracked(-1, t)
  }

  /** `cJSONUtils_ApplyPatches` on the tree. */
  function Run(t: Tree, patches: seq<Json>): (r: Tracked)
    decreases |patches|
  {
    if patches == [] then Tracked(0, t)
    else match Track(t, patches[0])
      case Tracked(0, t') => Run(t', patches[1..])
      case other => other
  }

  // ---- when a patch goes astray, read off the paths

  /** `child` names the first child of a container whose head is stale. */
  predicate OnStaleHead(t: Tree, child: string) {
    t.marks.stale && ChildCount(t.doc) > 0 && IndexIn(t.doc, child) == Some(0)
  }

  /** The container a path points into and the name of the child there. */
  function Parent(t: Tree, path: string): (r: Option<(Tree, string)>) {
    match LastSlash(path)
    case None => None
    case Some(k) =>
      match (Decode(path[k + 1..]), Resolve(t.doc, Split(path[..k])))
      case (Some(child), Some(a)) => ResolveAt(t.doc, Split(path[..k])); Some((TreeAt(t, a), child))
      case _ => None
  }

  /** The path names a stale head. */
  predicate Takes(t: Tree, path: string) {
    var p := Parent(t, path);
    p.Some? && OnStaleHead(p.value.0, p.value.1)
  }

  /** The path names a stale head of an object, which a new value there displaces. */
  predicate Displaces(t: Tree, path: string) {
    var p := Parent(t, path);
    p.Some? && p.value.0.doc.Object? && OnStaleHead(p.value.0, p.value.1)
  }

  /** Does the patch detach a stale head? */
  predicate Trips(t: Tree, patch: Json) {
    match (Field(patch, "op"), Field(patch, "path"))
    case (Some(String(op)), Some(String(path))) =>
      if op == "remove" || op == "replace" then Takes(t, path)
      else if op == "add" then Field(patch, "value").Some? && Displaces(t, path)
      else if op == "copy" then CopyTrips(t, path, patch)
      else if op == "move" then MoveTrips(t, path, patch)
      else false
    case _ => false
  }

  predicate CopyTrips(t: Tree, path: string, patch: Json) {
    match Field(patch, "from")
    case Some(String(from)) => Resolve(t.doc, Split(from)).Some? && Displaces(t, path)
    case _ => false
  }

  predicate MoveTrips(t: Tree, path: string, patch: Json) {
    match Field(patch, "from")
    case Some(String(from)) =>
      var d := Take(t, from);
      Takes(t, from) || (d.Taken? && d.item.Some? && Displaces(d.rest, path))
    case _ => false
  }

  // ---- one patch: astray exactly if it trips, and otherwise the values are those of ApplyPatch

  function TakenValue(r: Taken): (d: Detached)
    requires !r.TakeAstray?
  {
    match r
    case Taken(item, rest) => Detached(match item { case Some(x) => Some(x.doc) case None => None }, rest.doc)
    case TakeUndefined => Undetachable
  }

  function TrackedValue(r: Tracked): (d: Applied)
    requires !r.Astray?
  {
    match r
    case Tracked(err, t) => Applied(err, t.doc)
    case TrackUndefined => Undefined
  }

  /** Astray exactly under the condition, else the value. */
  ghost predicate TakesAs(r: Taken, trips: bool, d: Detached) {
    (r.TakeAstray? <==> trips) && (!trips ==> TakenValue(r) == d)
  }

  ghost predicate TracksAs(r: Tracked, trips: bool, d: Applied) {
    (r.Astray? <==> trips) && (!trips ==> TrackedValue(r) == d)
  }

  lemma TakeFromIs(t: Tree, child: string)
    ensures TakesAs(TakeFrom(t, child), OnStaleHead(t, child), DetachFrom(t.doc, child))
  {
    hide Atoi, FindKey;
  }

  lemma TakeIs(t: Tree, path: string)
    ensures TakesAs(Take(t, path), Takes(t, path), PatchDetach(t.doc, path))
  {
    hide TakeFrom, OnStaleHead, DetachFrom, Resolve, Split, SetAt, SetMarks;
    var p := Parent(t, path);
    if p.Some? {
      TakeFromIs(p.value.0, p.value.1);
    }
  }

  lemma PutInIs(t: Tree, child: string, x: Tree)
    ensures var n := AddTo(t.doc, child, x.doc);
      TracksAs(PutIn(t, child, x), t.doc.Object? && OnStaleHead(t, child),
               if n.Some? then Applied(0, n.value) else Undefined)
  {
    hide Atoi, FindKey;
    if t.doc.Array? {
      var items := t.doc.items;
      assert InsertAt(items, |items|, x.doc) == items + [x.doc];
    }
  }

  lemma PutIs(t: Tree, path: string, x: Tree)
    ensures TracksAs(Put(t, path, x), Displaces(t, path), AddValue(t.doc, path, x.doc))
  {
    hide PutIn, OnStaleHead, AddTo, Resolve, Split, SetAt, SetMarks;
    var p := Parent(t, path);
    if p.Some? {
      PutInIs(p.value.0, p.value.1, x);
    }
  }

  // ---- the two halves of a replacement meet in the same container

  lemma SelectKept(v: Json, i: nat, w: Json, token: string)
    requires i < ChildCount(v)
    ensures Select(SetChild(v, i, w), token) == Select(v, token)
    ensures ChildCount(SetChild(v, i, w)) == ChildCount(v) && Child(SetChild(v, i, w), i) == w
  {
    hide IndexOf, Unescape;
    if v.Object? {
      var u := Unescape(token);
      if u.Some? {
        SameKeys(v.members, SetChild(v, i, w).members, u.value);
      }
    }
  }

  lemma SameKeys(ms: seq<Member>, ns: seq<Member>, key: string)
    requires |ms| == |ns| && forall j :: 0 <= j < |ms| ==> ms[j].key == ns[j].key
    ensures FindKey(ms, key) == FindKey(ns, key)
  {
    var i, j := FindKey(ms, key), FindKey(ns, key);
    if i < |ms| {
      assert Fold(ns[i].key) == Fold(key);
    }
    if j < |ns| {
      assert Fold(ms[j].key) == Fold(key);
    }
  }

  /** The same pointer leads to what was set there. */
  lemma {:induction false} SetThenFollow(t: Tree, tokens: seq<string>, x: Tree)
    requires Resolve(t.doc, tokens).Some?
    ensures At(t.doc, Resolve(t.doc, tokens).value).Some?
    ensures var a := Resolve(t.doc, tokens).value;
      var r := SetTree(t, a, x);
      Resolve(r.doc, tokens) == Some(a) && At(r.doc, a).Some? && TreeAt(r, a) == x
    decreases |tokens|
  {
    hide Select, SetChild;
    ResolveAt(t.doc, tokens);
    var a := Resolve(t.doc, tokens).value;
    if tokens != [] {
      var i := Select(t.doc, tokens[0]);
      var k := KidTree(t, i);
      assert a == [i] + a[1..] && Resolve(k.doc, tokens[1..]) == Some(a[1..]);
      SetThenFollow(k, tokens[1..], x);
      SelectKept(t.doc, i, SetAt(k.doc, a[1..], x.doc), tokens[0]);
    }
  }

  /** Once the named child is out, putting something under that name displaces no stale head. */
  lemma NothingToDisplace(t: Tree, child: string)
    ensures var d := TakeFrom(t, child);
      d.Taken? ==> !(d.rest.doc.Object? && OnStaleHead(d.rest, child))
  {
    if t.doc.Object? {
      var i := FindKey(t.doc.members, child);
      if 0 < i < |t.doc.members| {
        assert RemoveAt(t.doc.members, i)[0] == t.doc.members[0];
      }
    }
  }

  lemma ReplaceApart(t: Tree, path: string)
    ensures Take(t, path).Taken? ==> !Displaces(Take(t, path).rest, path)
  {
    hide TakeFrom, OnStaleHead, Resolve, Split, SetAt, SetMarks;
    var k := LastSlash(path);
    var p := Parent(t, path);
    if p.Some? {
      var (c, child) := p.value;
      NothingToDisplace(c, child);
      var d := TakeFrom(c, child);
      if d.Taken? {
        SetThenFollow(t, Split(path[..k.value]), d.rest);
      }
    }
  }

  lemma AddIs(t: Tree, path: string, patch: Json)
    ensures TracksAs(TrackAdd(t, path, patch), Field(patch, "value").Some? && Displaces(t, path),
                     ApplyAdd(t.doc, path, patch))
  {
    hide Put, Displaces, AddValue, Field;
    var v := Field(patch, "value");
    if v.Some? {
      PutIs(t, path, Tree(v.value, CLEAN));
    }
  }

  lemma ReplaceIs(t: Tree, path: string, patch: Json)
    ensures TracksAs(TrackReplace(t, path, patch), Takes(t, path), ApplyReplace(t.doc, path, patch))
  {
    hide Take, Takes, Displaces, PatchDetach, TrackAdd, ApplyAdd;
    TakeIs(t, path);
    ReplaceApart(t, path);
    var d := Take(t, path);
    if d.Taken? {
      AddIs(d.rest, path, patch);
    }
  }

  lemma MoveIs(t: Tree, path: string, patch: Json)
    ensures TracksAs(TrackMove(t, path, patch), MoveTrips(t, path, patch), ApplyMove(t.doc, path, patch))
  {
    hide Take, Takes, Displaces, PatchDetach, Put, AddValue, Field;
    var from := Field(patch, "from");
    if from.Some? && from.value.String? {
      TakeIs(t, from.value.s);
      var d := Take(t, from.value.s);
      if d.Taken? && d.item.Some? {
        PutIs(d.rest, path, d.item.value);
      }
    }
  }

  lemma CopyIs(t: Tree, path: string, patch: Json)
    ensures TracksAs(TrackCopy(t, path, patch), CopyTrips(t, path, patch), ApplyCopy(t.doc, path, patch))
  {
    hide Displaces, Put, AddValue, Field, Resolve, Split;
    var from := Field(patch, "from");
    if from.Some? && from.value.String? {
      var a := Resolve(t.doc, Split(from.value.s));
      if a.Some? {
        ResolveAt(t.doc, Split(from.value.s));
        PutIs(t, path, Tree(At(t.doc, a.value).value, CLEAN));
      }
    }
  }

  /**
   * One patch writes through a stale link exactly if it trips; otherwise status and document are those of ApplyPatch.
   */
  lemma TrackExactly(t: Tree, patch: Json)
    ensures Track(t, patch).Astray? <==> Trips(t, patch)
    ensures !Trips(t, patch) ==> TrackedValue(Track(t, patch)) == ApplyPatch(t.doc, patch)
  {
    hide Take, Takes, Displaces, MoveTrips, CopyTrips, Field;
    hide TrackAdd, TrackReplace, TrackMove, TrackCopy, TrackTest;
    hide ApplyAdd, ApplyReplace, ApplyMove, ApplyCopy, ApplyTest, PatchDetach;
    var o, p := Field(patch, "op"), Field(patch, "path");
    if o.Some? && o.value.String? && p.Some? && p.value.String? {
      var op, path := o.value.s, p.value.s;
      if op == "add" {
        AddIs(t, path, patch);
      } else if op == "remove" {
        TakeIs(t, path);
      } else if op == "replace" {
        ReplaceIs(t, path, patch);
      } else if op == "move" {
        MoveIs(t, path, patch);
      } else if op == "copy" {
        CopyIs(t, path, patch);
      } else if op == "test" {
        TestIs(t, path, patch);
      }
    }
  }

  lemma TestIs(t: Tree, path: string, patch: Json)
    ensures TracksAs(TrackTest(t, path, patch), false, ApplyTest(t.doc, path, patch))
  {
    hide Field, Resolve, Split, CompareCode, Touched, TouchMarks, SetAt, SetMarks;
  }

  // ---- whole patch documents

  /** Some patch of the run trips. */
  predicate Stumbles(t: Tree, patches: seq<Json>)
    decreases |patches|
  {
    patches != [] &&
    (Trips(t, patches[0]) ||
     (var r := Track(t, patches[0]);
      r.Tracked? && r.err == 0 && Stumbles(r.tree, patches[1..])))
  }

  lemma {:induction false} RunAstray(t: Tree, patches: seq<Json>)
    ensures Run(t, patches).Astray? <==> Stumbles(t, patches)
    decreases |patches|
  {
    hide Track, Trips;
    if patches != [] {
      TrackExactly(t, patches[0]);
      var r := Track(t, patches[0]);
      if r.Tracked? && r.err == 0 {
        RunAstray(r.tree, patches[1..]);
      }
    }
  }

  /** A run that does not stumble is the run on values. */
  lemma {:induction false} RunIsApplyAll(t: Tree, patches: seq<Json>)
    requires !Stumbles(t, patches)
    ensures !Run(t, patches).Astray? && TrackedValue(Run(t, patches)) == ApplyAll(t.doc, patches)
    decreases |patches|
  {
    hide Track, Trips, ApplyPatch;
    if patches != [] {
      TrackExactly(t, patches[0]);
      var r := Track(t, patches[0]);
      if r.Tracked? && r.err == 0 {
        RunIsApplyAll(r.tree, patches[1..]);
      }
    }
  }

  lemma {:induction false} StumblesEarlier(t: Tree, patches: seq<Json>, k: nat)
    requires k <= |patches| && Stumbles(t, patches[..k])
    ensures Stumbles(t, patches)
    decreases k
  {
    hide Track, Trips;
    assert patches[..k][0] == patches[0] && patches[..k][1..] == patches[1..][..k - 1];
    var r := Track(t, patches[0]);
    if !Trips(t, patches[0]) {
      StumblesEarlier(r.tree, patches[1..], k - 1);
    }
  }

  /** No write went through a stale link, the tree is well formed and means what the patches make of the meaning. */
  ghost predicate Lawful(r: Tracked, s: SemApplied) {
    !r.Astray? && Refines(TrackedValue(r), s)
  }

  /** Lawful after every patch of the list. */
  ghost predicate LawfulThroughout(t: Tree, patches: seq<Json>) {
    forall k :: 0 <= k <= |patches| ==> Lawful(Run(t, patches[..k]), SemApplyAll(Norm(t.doc), patches[..k]))
  }

  /**
   * ApplyPatches in place, over every well-formed document, whatever its marks, and every list of patches. The law
   * holds after every patch exactly if none detaches the first child of a container whose head is stale and none
   * doubles the empty name of the root. If none doubles it, the outcome of the whole list decides alike.
   */
  lemma RunExactly(t: Tree, patches: seq<Json>)
    requires WellFormed(t.doc) && AllPatches(patches)
    ensures LawfulThroughout(t, patches) <==> !Stumbles(t, patches) && !DoublesSome(Norm(t.doc), patches)
    ensures !DoublesSome(Norm(t.doc), patches) ==>
      (Lawful(Run(t, patches), SemApplyAll(Norm(t.doc), patches)) <==> !Stumbles(t, patches))
  {
    hide Run, SemApplyAll, ApplyAll, Norm, WellFormed, AllPatches, Refines, Stumbles, DoublesSome;
    RunAstray(t, patches);
    if Stumbles(t, patches) {
      assert patches[..|patches|] == patches;
    } else {
      RunIsApplyAll(t, patches);
      ApplyAllMeaning(t.doc, patches);
      ThroughoutExactly(t.doc, patches);
      forall k | 0 <= k <= |patches|
        ensures !Run(t, patches[..k]).Astray? && TrackedValue(Run(t, patches[..k])) == ApplyAll(t.doc, patches[..k])
      {
        if Stumbles(t, patches[..k]) {
          StumblesEarlier(t, patches, k);
        }
        RunIsApplyAll(t, patches[..k]);
      }
    }
  }

  // ---- the marks are the links: one object on the heap

  /** An object whose member values are taken as values, with the mark its head deserves. */
  ghost function Shown(c: Container): (t: Tree)
    reads c, c.child, c.spine
  {
    Tree(Object(Contents(c.spine)), Marks(c.HeadPrev() != null, []))
  }

  /** The same document, and the same mark unless nothing is left to mark. */
  ghost predicate Shows(c: Container, t: Tree)
    reads c, c.child, c.spine
  {
    Shown(c).doc == t.doc && (c.spine != [] ==> Shown(c).marks.stale == t.marks.stale)
  }

  lemma ContentsWithout(spine: seq<Item>, i: nat)
    requires i < |spine|
    ensures Contents(RemoveAt(spine, i)) == RemoveAt(Contents(spine), i)
  {
    var r := RemoveAt(spine, i);
    forall k | 0 <= k < |r|
      ensures Contents(r)[k] == RemoveAt(Contents(spine), i)[k]
    {
      RemoveAtIndex(spine, i, k);
      RemoveAtIndex(Contents(spine), i, k);
    }
  }

  lemma TakeMember(t: Tree, key: string)
    requires t.doc.Object?
    ensures var ms, d := t.doc.members, TakeFrom(t, key);
      var i := FindKey(ms, key);
      if i == |ms| then d == Taken(None, t)
      else if i == 0 && t.marks.stale then d.TakeAstray?
      else && d.Taken? && d.item.Some? && d.item.value.doc == ms[i].value
           && d.rest.doc == Object(RemoveAt(ms, i)) && d.rest.marks.stale == t.marks.stale
  {
  }

  /** Detaching a member on the heap is TakeFrom; astray, the list is broken if the stale link leads into it. */
  method DetachMember(c: Container, key: string) returns (item: Item?)
    requires c.Valid() && CKeys(c.spine) && NulFree(key)
    modifies c, c.spine`next, c.spine`prev, Named(c.HeadPrev())`next
    ensures var d := TakeFrom(old(Shown(c)), key);
      && (d.TakeAstray? && NamesLater(old(c.HeadPrev()), old(c.spine)) ==> !c.Valid())
      && (!d.TakeAstray? ==> d.Taken? && c.Valid() && Shows(c, d.rest) && (item == null <==> d.item == None))
      && (d.Taken? && d.item.Some? ==> d.item.value.doc == item.value)
  {
    hide Contents, FindKey, Distinct, Chained, BackChained, TakeFrom, RemoveAt;
    ghost var nodes, i := c.spine, FindKey(Contents(c.spine), key);
    TakeMember(Shown(c), key);
    item := c.DetachItemFromObject(key);
    if i < |nodes| {
      ContentsWithout(nodes, i);
    }
  }

  /** Sorting on the heap sets the mark exactly as TouchMarks does. */
  method SortMembers(c: Container)
    requires c.Valid() && CKeys(c.spine) && DistinctKeys(Contents(c.spine))
    modifies c, c.spine`next, c.spine`prev
    ensures c.Valid() && Shown(c).doc == Object(Sorted(old(Contents(c.spine))))
    ensures Shown(c).marks.stale <==> old(Shown(c).marks.stale) || HeadMoves(old(Contents(c.spine)))
  {
    hide Contents, Sorted;
    ghost var nodes, ms := c.spine, Contents(c.spine);
    c.SortObject();
    if nodes != [] {
      assert c.spine != [] by { assert |multiset(c.spine)| == |multiset(nodes)|; }
      SameHead(nodes, c.spine);
    }
  }

  /** With distinct keys the first member tells whether the first node moved. */
  lemma SameHead(a: seq<Item>, b: seq<Item>)
    requires a != [] && b != [] && multiset(a) == multiset(b) && DistinctKeys(Contents(a))
    ensures a[0] == b[0] <==> [Contents(a)[0]] <= Contents(b)
  {
    assert b[0] in multiset(b);
    assert b[0] in a;
    var i :| 0 <= i < |a| && a[i] == b[0];
    assert Contents(a)[i] == Contents(b)[0];
  }

  /** Appending a member on the heap. */
  method AppendMember(c: Container, item: Item)
    requires c.Valid() && item !in c.spine && item.next == null && item.prev == null
    modifies c, item`prev, c.spine`next
    ensures c.Valid() && Shows(c, Appended(old(Shown(c)), item.key, Tree(item.value, CLEAN)))
  {
    hide Contents, IsList, Kids;
    ContentsPlus(c.spine, item);
    c.AddItemToArray(item);
  }

  lemma ContentsPlus(spine: seq<Item>, item: Item)
    ensures Contents(spine + [item]) == Contents(spine) + [Member(item.key, item.value)]
  {
  }
}
