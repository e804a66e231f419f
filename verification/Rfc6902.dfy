/**
 * JSON Patch as section 4 of RFC 6902 has it, on meanings, and exactly when one call of ApplyPatch agrees with it.
 * Member names are compared as everywhere else here: ignoring case.
 */
module Rfc6902 {
  import opened CStrings
  import opened JsonValue
  import opened Decimal
  import opened Pointer
  import opened Patch
  import opened PatchMeaning
  import opened Diff

  // ---- section 4 of RFC 6901

  /** The reference tokens; a pointer is empty or starts with `/`. */
  function Tokens(pointer: string): (r: Option<seq<string>>) {
    if pointer == "" then Some([]) else if pointer[0] == '/' then Some(Split(pointer)) else None
  }

  /** Digits without a leading zero. */
  predicate ArrayIndex(token: string) {
    token != [] && AllDigits(token) && (token == "0" || token[0] != '0')
  }

  function Refer(s: Sem, token: string): (r: Option<Sem>) {
    match s
    case SArray(items) =>
      if ArrayIndex(token) && Value(token) < |items| then Some(items[Value(token)]) else None
    case SObject(fields) =>
      (match Unescape(token)
       case Some(k) => if Fold(k) in fields then Some(fields[Fold(k)]) else None
       case None => None)
    case _ => None
  }

  function PutRefer(s: Sem, token: string, w: Sem): (r: Sem)
    requires Refer(s, token).Some?
  {
    if s.SArray? then SArray(s.items[Value(token) := w])
    else SObject(s.fields[Fold(Unescape(token).value) := w])
  }

  function Target(s: Sem, tokens: seq<string>): (r: Option<Sem>)
    decreases |tokens|
  {
    if tokens == [] then Some(s)
    else match Refer(s, tokens[0])
      case Some(c) => Target(c, tokens[1..])
      case None => None
  }

  function SetTarget(s: Sem, tokens: seq<string>, w: Sem): (r: Sem)
    requires Target(s, tokens).Some?
    decreases |tokens|
  {
    if tokens == [] then w
    else PutRefer(s, tokens[0], SetTarget(Refer(s, tokens[0]).value, tokens[1..], w))
  }

  // ---- section 4 of RFC 6902; `None` is an error

  /** Section 4.1 in one container: an index at most the length, `-` for the end, or a member name. */
  function InsertInto(parent: Sem, token: string, v: Sem): (r: Option<Sem>) {
    match parent
    case SArray(items) =>
      if token == "-" then Some(SArray(items + [v]))
      else if ArrayIndex(token) && Value(token) <= |items| then Some(SArray(InsertAt(items, Value(token), v)))
      else None
    case SObject(fields) =>
      (match Unescape(token)
       case Some(k) => Some(SObject(fields[Fold(k) := v]))
       case None => None)
    case _ => None
  }

  function RemoveFrom(parent: Sem, token: string): (r: Sem)
    requires Refer(parent, token).Some?
  {
    if parent.SArray? then SArray(RemoveAt(parent.items, Value(token)))
    else SObject(parent.fields - {Fold(Unescape(token).value)})
  }

  /** Section 4.1: the root is replaced, anything else goes into its container, which must exist. */
  function Add(s: Sem, tokens: seq<string>, v: Sem): (r: Option<Sem>) {
    if tokens == [] then Some(v)
    else
      var q, t := tokens[..|tokens| - 1], tokens[|tokens| - 1];
      match Target(s, q)
      case None => None
      case Some(p) =>
        match InsertInto(p, t, v)
        case None => None
        case Some(p') => Some(SetTarget(s, q, p'))
  }

  /** Section 4.2: the target must exist. Without its root there is no document, so that is an error too. */
  function Remove(s: Sem, tokens: seq<string>): (r: Option<Sem>) {
    if tokens == [] then None
    else
      var q, t := tokens[..|tokens| - 1], tokens[|tokens| - 1];
      match Target(s, q)
      case None => None
      case Some(p) => if Refer(p, t).Some? then Some(SetTarget(s, q, RemoveFrom(p, t))) else None
  }

  /** Section 4.4: remove, then add; the source must not lie above the destination. */
  function Move(s: Sem, from: seq<string>, path: seq<string>): (r: Option<Sem>) {
    match (Target(s, from), Remove(s, from))
    case (Some(v), Some(rest)) => if from < path then None else Add(rest, path, v)
    case _ => None
  }

  function Text(patch: Json, name: string): (r: Option<string>) {
    match Field(patch, name)
    case Some(String(s)) => Some(s)
    case _ => None
  }

  /** The pointer in a patch, as a list of tokens. */
  function Location(patch: Json, name: string): (r: Option<seq<string>>) {
    match Text(patch, name)
    case Some(p) => Tokens(p)
    case None => None
  }

  /** Section 4. */
  function Standard(s: Sem, patch: Json): (r: Option<Sem>) {
    match (Text(patch, "op"), Location(patch, "path"))
    case (Some(op), Some(path)) =>
      if op == "add" then StandardAdd(s, path, patch)
      else if op == "remove" then Remove(s, path)
      else if op == "replace" then StandardReplace(s, path, patch)
      else if op == "move" then StandardMove(s, path, patch)
      else if op == "copy" then StandardCopy(s, path, patch)
      else if op == "test" then StandardTest(s, path, patch)
      else None
    case _ => None
  }

  function StandardAdd(s: Sem, path: seq<string>, patch: Json): (r: Option<Sem>) {
    match Field(patch, "value")
    case Some(v) => Add(s, path, Norm(v))
    case None => None
  }

  /** Section 4.3: the target must exist. */
  function StandardReplace(s: Sem, path: seq<string>, patch: Json): (r: Option<Sem>) {
    match (Target(s, path), Field(patch, "value"))
    case (Some(_), Some(v)) => Some(SetTarget(s, path, Norm(v)))
    case _ => None
  }

  function StandardMove(s: Sem, path: seq<string>, patch: Json): (r: Option<Sem>) {
    match Location(patch, "from")
    case Some(from) => Move(s, from, path)
    case None => None
  }

  /** Section 4.5: the source must exist. */
  function StandardCopy(s: Sem, path: seq<string>, patch: Json): (r: Option<Sem>) {
    match Location(patch, "from")
    case None => None
    case Some(from) =>
      match Target(s, from)
      case Some(v) => Add(s, path, v)
      case None => None
  }

  /** Section 4.6: the target must be equal to the value. */
  function StandardTest(s: Sem, path: seq<string>, patch: Json): (r: Option<Sem>) {
    match Field(patch, "value")
    case Some(v) => if Target(s, path) == Some(Norm(v)) then Some(s) else None
    case None => None
  }

  // ---- agreement

  /** Success with the standard's document, or a status that reports the standard's error. */
  ghost predicate Agrees(r: Applied, o: Option<Sem>) {
    match o
    case Some(s) => r.Applied? && r.err == 0 && WellFormed(r.doc) && Norm(r.doc) == s
    case None => r.Applied? && r.err != 0
  }

  ghost predicate SemAgrees(r: SemApplied, o: Option<Sem>) {
    match o
    case Some(s) => r == SemApplied(true, s)
    case None => r.SemApplied? && !r.ok
  }

  lemma Carry(r: Applied, m: SemApplied, o: Option<Sem>)
    requires Refines(r, m)
    ensures Agrees(r, o) <==> SemAgrees(m, o)
  {
  }

  // ---- when the code agrees

  predicate Scalar(s: Sem) {
    !s.SArray? && !s.SObject?
  }

  /** Read by the standard, the text is a JSON Pointer to something that exists. */
  predicate Names(s: Sem, pointer: string) {
    Tokens(pointer).Some? && Target(s, Tokens(pointer).value).Some?
  }

  /** The container part of a path, as the code splits it, leads nowhere, and its last part can be decoded. */
  predicate NoParent(s: Sem, path: string) {
    match LastSlash(path)
    case None => false
    case Some(k) => Decode(path[k + 1..]).Some? && SemAt(s, Split(path[..k])).None?
  }

  /** A token that may name a new child: `-`, an index at most the length that fits an `int`, an escaped name. */
  predicate Admits(parent: Sem, token: string) {
    match parent
    case SArray(items) => token == "-" || (ArrayIndex(token) && Value(token) <= |items| && Value(token) <= INT_MAX)
    case SObject(_) => Unescape(token).Some?
    case _ => false
  }

  /** Putting `v` at `path`: no container at all, or a proper pointer to an admissible place in one. */
  predicate AddAgrees(s: Sem, path: string, v: Sem) {
    match LastSlash(path)
    case None => path == "" && Scalar(s) && s == v
    case Some(k) =>
      || NoParent(s, path)
      || (var p := Target(s, Split(path[..k]));
          path[0] == '/' && p.Some? && Admits(p.value, path[k + 1..]))
  }

  /** Replacing: as for adding there may be no container; if there is one, the target must exist. */
  predicate ReplaceAgrees(s: Sem, path: string, v: Option<Sem>) {
    match LastSlash(path)
    case None => v.None? || (path == "" && Scalar(s) && Some(s) == v)
    case Some(k) =>
      || NoParent(s, path)
      || (v.None? && !SemDetach(s, path).SemUndetachable?)
      || (v.Some? && Names(s, path))
  }

  /**
   * The source was not there, or it was and the rest is an addition; a source only the code finds must end in an
   * error.
   */
  predicate MoveAgrees(s: Sem, path: string, from: string) {
    match SemDetach(s, from)
    case SemUndetachable => false
    case SemDetached(None, _) => true
    case SemDetached(Some(v), rest) =>
      if Names(s, from) && !(Tokens(path).Some? && Tokens(from).value < Tokens(path).value)
      then AddAgrees(rest, path, v)
      else NoParent(rest, path)
  }

  predicate CopyAgrees(s: Sem, path: string, from: string) {
    match SemAt(s, Split(from))
    case None => true
    case Some(v) => if Names(s, from) then AddAgrees(s, path, v) else NoParent(s, path)
  }

  /** The condition on document and patch. */
  predicate Conforms(s: Sem, patch: Json) {
    match (Field(patch, "op"), Field(patch, "path"))
    case (Some(String(op)), Some(String(path))) => ConformsAt(s, op, path, patch)
    case (None, _) => true
    case (_, None) => true
    case (Some(String(op)), _) => op !in ["add", "remove", "replace", "move", "copy", "test"]
    case _ => false
  }

  predicate ConformsAt(s: Sem, op: string, path: string, patch: Json) {
    var v, from := Lift(Field(patch, "value")), Field(patch, "from");
    if op == "add" then v.None? || AddAgrees(s, path, v.value)
    else if op == "remove" then path != "" && Names(s, path)
    else if op == "replace" then ReplaceAgrees(s, path, v)
    else if op == "move" then from.None? || (from.value.String? && MoveAgrees(s, path, from.value.s))
    else if op == "copy" then from.None? || (from.value.String? && CopyAgrees(s, path, from.value.s))
    else if op == "test" then v.None? || Names(s, path) || SemAt(s, Split(path)) != v
    else true
  }

  // ---- sizes

  /** Array indices fit an `int`. */
  predicate SemSized(s: Sem) {
    match s
    case SArray(items) => |items| <= INT_MAX + 1 && forall i :: 0 <= i < |items| ==> SemSized(items[i])
    case SObject(fields) => forall k :: k in fields ==> SemSized(fields[k])
    case _ => true
  }

  // ---- the code's reading of a pointer extends the standard's

  lemma ReferStep(s: Sem, token: string)
    requires SemSized(s) && Refer(s, token).Some?
    ensures Step(s, token) == Refer(s, token) && SemSized(Refer(s, token).value)
  {
    if s.SArray? {
      assert Value(token) % SIZE_MODULUS == Value(token);
    }
  }

  lemma {:induction false} TargetAt(s: Sem, tokens: seq<string>)
    requires SemSized(s) && Target(s, tokens).Some?
    ensures SemAt(s, tokens) == Target(s, tokens) && SemSized(Target(s, tokens).value)
    decreases |tokens|
  {
    hide Refer, Step;
    if tokens != [] {
      ReferStep(s, tokens[0]);
      TargetAt(Refer(s, tokens[0]).value, tokens[1..]);
    }
  }

  lemma PutReferStep(s: Sem, token: string, w: Sem)
    requires SemSized(s) && Refer(s, token).Some?
    ensures Step(s, token).Some? && PutStep(s, token, w) == PutRefer(s, token, w)
  {
    ReferStep(s, token);
    if s.SArray? {
      assert Value(token) % SIZE_MODULUS == Value(token);
    }
  }

  lemma {:induction false} SetTargetSet(s: Sem, tokens: seq<string>, w: Sem)
    requires SemSized(s) && Target(s, tokens).Some?
    ensures SemAt(s, tokens).Some? && SemSet(s, tokens, w) == SetTarget(s, tokens, w)
    decreases |tokens|
  {
    hide Refer, Step, PutStep, PutRefer;
    TargetAt(s, tokens);
    if tokens != [] {
      ReferStep(s, tokens[0]);
      var c := Refer(s, tokens[0]).value;
      SetTargetSet(c, tokens[1..], w);
      PutReferStep(s, tokens[0], SetTarget(c, tokens[1..], w));
    }
  }

  lemma PutStepSized(s: Sem, token: string, w: Sem)
    requires SemSized(s) && SemSized(w) && Step(s, token).Some?
    ensures SemSized(PutStep(s, token, w))
  {
  }

  lemma {:induction false} SetSized(s: Sem, tokens: seq<string>, w: Sem)
    requires SemSized(s) && SemSized(w) && SemAt(s, tokens).Some?
    ensures SemSized(SemSet(s, tokens, w))
    decreases |tokens|
  {
    hide Step, PutStep, SemSized;
    if tokens != [] {
      StepSized(s, tokens[0]);
      SetSized(Step(s, tokens[0]).value, tokens[1..], w);
      PutStepSized(s, tokens[0], SemSet(Step(s, tokens[0]).value, tokens[1..], w));
    }
  }

  lemma StepSized(s: Sem, token: string)
    requires SemSized(s) && Step(s, token).Some?
    ensures SemSized(Step(s, token).value)
  {
  }

  lemma {:induction false} AtSized(s: Sem, tokens: seq<string>)
    requires SemSized(s) && SemAt(s, tokens).Some?
    ensures SemSized(SemAt(s, tokens).value)
    decreases |tokens|
  {
    hide Step, SemSized;
    if tokens != [] {
      StepSized(s, tokens[0]);
      AtSized(Step(s, tokens[0]).value, tokens[1..]);
    }
  }

  // ---- the text of a path

  lemma {:induction false} RenderSplit(p: string)
    requires p == [] || p[0] == '/'
    ensures Render(Split(p)) == p && SlashFreeAll(Split(p))
    decreases |p|
  {
    hide Split, TokenLength;
    if p == [] {
      SplitEmpty();
    } else {
      var t, rest := Token(p[1..]), p[1..][TokenLength(p[1..])..];
      SplitUnfold(p);
      RenderSplit(rest);
      assert ([t] + Split(rest))[1..] == Split(rest);
      assert p == "/" + t + rest;
    }
  }

  /** The standard's tokens of a path are those the code walks to the container, and the last part. */
  lemma TokensOfPath(path: string)
    requires path != [] && path[0] == '/'
    ensures LastSlash(path).Some?
    ensures var k := LastSlash(path).value;
      Split(path) == Split(path[..k]) + [path[k + 1..]]
  {
    hide Split, Render, LastSlash;
    LeadingSlash(path);
    var k := LastSlash(path).value;
    var q, t := path[..k], path[k + 1..];
    assert q == [] || q[0] == path[0];
    RenderSplit(q);
    RenderAppend(Split(q), [t]);
    RenderOne(t);
    assert path == q + ("/" + t);
    SplitRender(Split(q) + [t]);
  }

  lemma LeadingSlash(path: string)
    requires path != [] && path[0] == '/'
    ensures LastSlash(path).Some?
  {
  }

  lemma RenderOne(t: string)
    ensures Render([t]) == "/" + t
  {
    assert [t][1..] == [];
    assert "/" + t + [] == "/" + t;
  }

  lemma {:induction false} UnescapeDecodes(token: string)
    ensures Unescape(token).Some? ==> Decode(token) == Unescape(token)
    decreases |token|
  {
    if token != [] {
      if token[0] != '~' {
        UnescapeDecodes(token[1..]);
      } else if |token| >= 2 {
        UnescapeDecodes(token[2..]);
      }
    }
  }

  lemma {:induction false} PlainDecodes(token: string)
    requires forall i :: 0 <= i < |token| ==> token[i] != '~'
    ensures Decode(token) == Some(token)
  {
    if token != [] {
      PlainDecodes(token[1..]);
      assert token == [token[0]] + token[1..];
    }
  }

  lemma AtoiIndex(token: string)
    requires ArrayIndex(token)
    ensures Decode(token) == Some(token) && Atoi(token) == InInt(Value(token))
  {
    hide Decode, Value, DigitRun;
    PlainDecodes(token);
    assert token[..|token|] == token;
    DigitRunIs(token, |token|);
    assert IsDigit(token[0]);
  }

  // ---- one container

  lemma InsertAgrees(p: Sem, token: string, v: Sem)
    requires SemSized(p) && Admits(p, token)
    ensures Decode(token).Some? && SemAddTo(p, Decode(token).value, v) == InsertInto(p, token, v)
    ensures InsertInto(p, token, v).Some?
  {
    if p.SArray? {
      if token == "-" {
        PlainDecodes(token);
      } else {
        AtoiIndex(token);
        IndexIsNoDash(token);
      }
    } else {
      UnescapeDecodes(token);
    }
  }

  lemma IndexIsNoDash(token: string)
    requires ArrayIndex(token)
    ensures token != "-"
  {
    assert IsDigit(token[0]);
  }

  /** Where the standard's rule is met only in part, the code does not report an error. */
  lemma InsertDiffers(p: Sem, token: string, v: Sem)
    requires SemSized(p) && !Admits(p, token) && InsertInto(p, token, v).Some?
    ensures Decode(token).Some? ==> SemAddTo(p, Decode(token).value, v) == None
  {
    AtoiIndex(token);
    IndexIsNoDash(token);
  }

  lemma RemoveAgrees(p: Sem, token: string)
    requires SemSized(p) && Refer(p, token).Some?
    ensures Decode(token).Some?
    ensures SemDetachFrom(p, Decode(token).value) == SemDetached(Refer(p, token), RemoveFrom(p, token))
    ensures SemSized(RemoveFrom(p, token))
  {
    if p.SArray? {
      AtoiIndex(token);
      var r := RemoveAt(p.items, Value(token));
      assert forall i :: 0 <= i < |r| ==> r[i] in p.items;
    } else {
      UnescapeDecodes(token);
    }
  }

  // ---- the operations on paths with a child part

  /** The standard's reading of a path with a child part, in the code's terms. */
  lemma SplitPath(s: Sem, path: string, k: nat)
    requires SemSized(s) && LastSlash(path) == Some(k)
    ensures path != "" && Tokens(path) == if path[0] == '/' then Some(Split(path[..k]) + [path[k + 1..]]) else None
    ensures Target(s, Split(path[..k])).Some? ==>
      SemAt(s, Split(path[..k])) == Target(s, Split(path[..k])) && SemSized(SemAt(s, Split(path[..k])).value)
  {
    hide Split, LastSlash, Target, SemAt;
    if path[0] == '/' {
      TokensOfPath(path);
    }
    if Target(s, Split(path[..k])).Some? {
      TargetAt(s, Split(path[..k]));
    }
  }

  function AddAt(s: Sem, path: string, v: Sem): (r: Option<Sem>) {
    match Tokens(path)
    case Some(tokens) => Add(s, tokens, v)
    case None => None
  }

  lemma AddSnoc(s: Sem, q: seq<string>, t: string, v: Sem)
    ensures Add(s, q + [t], v) ==
      match Target(s, q) {
        case None => None
        case Some(p) => match InsertInto(p, t, v) { case None => None case Some(p') => Some(SetTarget(s, q, p')) } }
  {
    hide Target, InsertInto, SetTarget;
    assert (q + [t])[..|q|] == q;
  }

  lemma RemoveSnoc(s: Sem, q: seq<string>, t: string)
    ensures Remove(s, q + [t]) ==
      match Target(s, q) {
        case None => None
        case Some(p) => if Refer(p, t).Some? then Some(SetTarget(s, q, RemoveFrom(p, t))) else None }
    ensures Target(s, q + [t]) == match Target(s, q) { case None => None case Some(p) => Refer(p, t) }
  {
    hide Refer, RemoveFrom, SetTarget;
    assert (q + [t])[..|q|] == q;
    TargetSnoc(s, q, t);
  }

  lemma {:induction false} TargetSnoc(s: Sem, q: seq<string>, t: string)
    ensures Target(s, q + [t]) == match Target(s, q) { case None => None case Some(p) => Refer(p, t) }
    decreases |q|
  {
    hide Refer;
    if q == [] {
      assert q + [t] == [t] && [t][1..] == [];
      var c := Refer(s, t);
      assert c.Some? ==> Target(c.value, []) == c;
    } else {
      assert (q + [t])[1..] == q[1..] + [t];
      var c := Refer(s, q[0]);
      if c.Some? {
        TargetSnoc(c.value, q[1..], t);
      }
    }
  }

  lemma AddExactly(s: Sem, path: string, v: Sem)
    requires SemSized(s) && LastSlash(path).Some?
    ensures SemAgrees(SemAdd(s, path, v), AddAt(s, path, v)) <==> AddAgrees(s, path, v)
  {
    hide Split, LastSlash, Target, SemAt, InsertInto, SemAddTo, Admits, Decode, SetTarget, SemSet, SemSized, Add;
    var k := LastSlash(path).value;
    var q, t := Split(path[..k]), path[k + 1..];
    SplitPath(s, path, k);
    AddSnoc(s, q, t, v);
    if path[0] == '/' && Target(s, q).Some? {
      var p := Target(s, q).value;
      if Admits(p, t) {
        InsertAgrees(p, t, v);
        SetTargetSet(s, q, InsertInto(p, t, v).value);
      } else if InsertInto(p, t, v).Some? {
        InsertDiffers(p, t, v);
      }
    }
  }

  /** SemAdd reports an error exactly if there is no container. */
  lemma AddFails(s: Sem, path: string, v: Sem)
    requires LastSlash(path).Some?
    ensures SemAgrees(SemAdd(s, path, v), None) <==> NoParent(s, path)
  {
  }

  function RemoveAtPath(s: Sem, path: string): (r: Option<Sem>) {
    match Tokens(path)
    case Some(tokens) => Remove(s, tokens)
    case None => None
  }

  /** What the standard can remove, the code takes out. */
  lemma DetachNamed(s: Sem, path: string)
    requires SemSized(s) && path != "" && Names(s, path)
    ensures RemoveAtPath(s, path).Some? && SemSized(RemoveAtPath(s, path).value)
    ensures Target(s, Tokens(path).value).Some?
    ensures SemDetach(s, path) == SemDetached(Target(s, Tokens(path).value), RemoveAtPath(s, path).value)
  {
    hide Split, LastSlash, Target, SemAt, Refer, RemoveFrom, Decode, SetTarget, SemSet, SemSized, SemDetachFrom, Remove;
    LeadingSlash(path);
    var k := LastSlash(path).value;
    var q, t := Split(path[..k]), path[k + 1..];
    SplitPath(s, path, k);
    RemoveSnoc(s, q, t);
    var p := Target(s, q).value;
    RemoveAgrees(p, t);
    SetTargetSet(s, q, RemoveFrom(p, t));
    SetSized(s, q, RemoveFrom(p, t));
  }

  lemma NotNamed(s: Sem, path: string)
    requires path == "" || !Names(s, path)
    ensures RemoveAtPath(s, path).None?
  {
    hide Split, Target, Refer, RemoveFrom, SetTarget;
    if path != "" && path[0] == '/' {
      TokensOfPath(path);
      var tokens := Split(path);
      RemoveSnoc(s, tokens[..|tokens| - 1], tokens[|tokens| - 1]);
      assert tokens == tokens[..|tokens| - 1] + [tokens[|tokens| - 1]];
    }
  }

  lemma RemoveExactly(s: Sem, path: string)
    requires SemSized(s)
    ensures SemAgrees(SemRemove(s, path), RemoveAtPath(s, path)) <==> path != "" && Names(s, path)
  {
    hide SemDetach, Names, RemoveAtPath, SemSized;
    if path != "" && Names(s, path) {
      DetachNamed(s, path);
    } else {
      NotNamed(s, path);
    }
  }

  // ---- replacing

  /** Out and in again at the same token is a replacement. */
  lemma OutAndIn(p: Sem, token: string, v: Sem)
    requires SemSized(p) && Refer(p, token).Some?
    ensures Decode(token).Some?
    ensures SemAddTo(RemoveFrom(p, token), Decode(token).value, v) == Some(PutRefer(p, token, v))
  {
    if p.SArray? {
      AtoiIndex(token);
      IndexIsNoDash(token);
      var i := Value(token);
      assert InsertAt(RemoveAt(p.items, i), i, v) == p.items[i := v];
    } else {
      UnescapeDecodes(token);
      var k := Fold(Unescape(token).value);
      assert (p.fields - {k})[k := v] == p.fields[k := v];
    }
  }

  lemma {:induction false} SetTargetSnoc(s: Sem, q: seq<string>, t: string, w: Sem)
    requires Target(s, q).Some? && Refer(Target(s, q).value, t).Some?
    ensures Target(s, q + [t]).Some?
    ensures SetTarget(s, q + [t], w) == SetTarget(s, q, PutRefer(Target(s, q).value, t, w))
    decreases |q|
  {
    hide Refer, PutRefer;
    TargetSnoc(s, q, t);
    if q == [] {
      assert q + [t] == [t] && [t][1..] == [];
      assert SetTarget(s, [t], w) == PutRefer(s, t, SetTarget(Refer(s, t).value, [], w));
    } else {
      assert (q + [t])[1..] == q[1..] + [t];
      SetTargetSnoc(Refer(s, q[0]).value, q[1..], t, w);
    }
  }

  /** The document after taking out and putting in: the target replaced. */
  lemma ReplaceNamed(s: Sem, path: string, v: Sem)
    requires SemSized(s) && path != "" && Names(s, path)
    ensures SemDetach(s, path).SemDetached? && LastSlash(path).Some?
    ensures SemAdd(SemDetach(s, path).doc, path, v) == SemApplied(true, SetTarget(s, Tokens(path).value, v))
  {
    hide Split, LastSlash, Target, SemAt, Refer, RemoveFrom, PutRefer, Decode, SetTarget, SemSet, SemSized;
    hide SemDetachFrom, SemAddTo;
    LeadingSlash(path);
    var k := LastSlash(path).value;
    var q, t := Split(path[..k]), path[k + 1..];
    SplitPath(s, path, k);
    RemoveSnoc(s, q, t);
    var p := Target(s, q).value;
    RemoveAgrees(p, t);
    OutAndIn(p, t, v);
    SetTargetSnoc(s, q, t, v);
    SetTargetSet(s, q, PutRefer(p, t, v));
    SetTwice(s, q, RemoveFrom(p, t), PutRefer(p, t, v));
  }

  /** Whatever was taken out, the container is still there, so putting in reports no error. */
  lemma ReplaceFinds(s: Sem, path: string)
    requires LastSlash(path).Some? && SemDetach(s, path).SemDetached? && !NoParent(s, path)
    ensures !NoParent(SemDetach(s, path).doc, path)
  {
    hide Split, LastSlash, SemAt, Decode, SemSet, SemDetachFrom;
    var k := LastSlash(path).value;
    var q, child := Split(path[..k]), Decode(path[k + 1..]).value;
    var d := SemDetachFrom(SemAt(s, q).value, child);
    SetTwice(s, q, d.doc, d.doc);
  }

  function ReplaceAt(s: Sem, path: string, patch: Json): (r: Option<Sem>) {
    match Tokens(path)
    case Some(tokens) => StandardReplace(s, tokens, patch)
    case None => None
  }

  lemma ReplaceExactly(s: Sem, path: string, patch: Json)
    requires SemSized(s) && LastSlash(path).Some?
    ensures SemAgrees(SemReplace(s, path, patch), ReplaceAt(s, path, patch)) <==>
      ReplaceAgrees(s, path, Lift(Field(patch, "value")))
  {
    hide SemDetach, SemAdd, Names, NoParent, SemSized, Field, SetTarget, Norm;
    var v := Field(patch, "value");
    if Names(s, path) && v.Some? {
      SplitPath(s, path, LastSlash(path).value);
      NamedReplace(s, path, patch);
      ReplaceNamed(s, path, Norm(v.value));
    } else {
      NotNamedReplace(s, path, patch);
      NoParentDetach(s, path);
      var d := SemDetach(s, path);
      if d.SemDetached? && v.Some? {
        AddFails(d.doc, path, Norm(v.value));
        if !NoParent(s, path) {
          ReplaceFinds(s, path);
        }
      }
    }
  }

  lemma NamedReplace(s: Sem, path: string, patch: Json)
    requires Names(s, path) && Field(patch, "value").Some?
    ensures ReplaceAt(s, path, patch) == Some(SetTarget(s, Tokens(path).value, Norm(Field(patch, "value").value)))
  {
  }

  lemma NotNamedReplace(s: Sem, path: string, patch: Json)
    requires !Names(s, path) || Field(patch, "value").None?
    ensures ReplaceAt(s, path, patch).None?
  {
  }

  lemma NoParentDetach(s: Sem, path: string)
    ensures NoParent(s, path) ==> SemDetach(s, path) == SemDetached(None, s)
  {
  }

  // ---- paths without a child part

  /** No object is one of its own members. */
  lemma NotItsOwnMember(fields: map<string, Sem>, k: string)
    requires k in fields
    ensures fields[k] != SObject(fields)
  {
    var s := SObject(fields);
    assert s.fields[k] < s;
  }

  lemma RootAdd(doc: Json, path: string, v: Json)
    requires WellFormed(doc) && LastSlash(path).None?
    ensures Agrees(AddValue(doc, path, v), AddAt(Norm(doc), path, Norm(v))) <==> AddAgrees(Norm(doc), path, Norm(v))
  {
    match doc
    case Object(ms) =>
      var ns := ms + [Member("", v)];
      if WellFormed(Object(ns)) {
        assert WellFormedMembers(ns);
        NormMembersHolds(ns);
        assert Fold(ns[|ms|].key) in NormMembers(ns) && ns[|ms|] == Member("", v);
        NotItsOwnMember(NormMembers(ns), Fold(""));
      }
    case _ =>
  }

  // ---- ApplyPatch

  lemma AddValueExactly(doc: Json, path: string, v: Json)
    requires WellFormed(doc) && WellFormed(v) && NulFree(path) && SemSized(Norm(doc))
    ensures Agrees(AddValue(doc, path, v), AddAt(Norm(doc), path, Norm(v))) <==> AddAgrees(Norm(doc), path, Norm(v))
    ensures Agrees(AddValue(doc, path, v), None) <==> NoParent(Norm(doc), path)
  {
    hide AddValue, AddAt, AddAgrees, SemAdd, Norm, WellFormed, SemSized, SemAgrees;
    if LastSlash(path).None? {
      RootAdd(doc, path, v);
      RootNeverFails(doc, path, v);
    } else {
      AddBelowMeaning(doc, path, v);
      AddExactly(Norm(doc), path, Norm(v));
      AddFails(Norm(doc), path, Norm(v));
      Carry(AddValue(doc, path, v), SemAdd(Norm(doc), path, Norm(v)), AddAt(Norm(doc), path, Norm(v)));
      Carry(AddValue(doc, path, v), SemAdd(Norm(doc), path, Norm(v)), None);
    }
  }

  lemma RootNeverFails(doc: Json, path: string, v: Json)
    requires LastSlash(path).None?
    ensures !Agrees(AddValue(doc, path, v), None)
  {
  }

  lemma ReplaceOpExactly(doc: Json, path: string, patch: Json)
    requires WellFormed(doc) && SemSized(Norm(doc)) && WellFormed(patch) && NulFree(path)
    ensures Agrees(ApplyReplace(doc, path, patch), ReplaceAt(Norm(doc), path, patch)) <==>
      ReplaceAgrees(Norm(doc), path, Lift(Field(patch, "value")))
  {
    hide AddValue, SemReplace, ReplaceAt, ReplaceAgrees, Field, Norm, WellFormed, SemSized, SemAgrees, PatchDetach;
    hide LastSlash, ApplyReplace;
    var v := Field(patch, "value");
    if LastSlash(path).None? {
      RootReplaced(doc, path, patch);
    } else {
      ReplaceOpMeaning(doc, path, patch);
      assert !DoublesAt(Norm(doc), path);
      ReplaceExactly(Norm(doc), path, patch);
      Carry(ApplyReplace(doc, path, patch), SemReplace(Norm(doc), path, patch), ReplaceAt(Norm(doc), path, patch));
    }
  }

  lemma RootReplaced(doc: Json, path: string, patch: Json)
    requires WellFormed(doc) && LastSlash(path).None?
    ensures Agrees(ApplyReplace(doc, path, patch), ReplaceAt(Norm(doc), path, patch)) <==>
      ReplaceAgrees(Norm(doc), path, Lift(Field(patch, "value")))
  {
    hide AddValue, Field, Norm, WellFormed, Add;
    var v := Field(patch, "value");
    if v.Some? {
      RootAdd(doc, path, v.value);
      assert ReplaceAt(Norm(doc), path, patch) == AddAt(Norm(doc), path, Norm(v.value)) by {
        RootTokens(Norm(doc), path, Norm(v.value));
      }
    }
  }

  lemma RootTokens(s: Sem, path: string, v: Sem)
    requires LastSlash(path).None?
    ensures Tokens(path) == (if path == "" then Some([]) else None)
    ensures Add(s, [], v) == Some(v) && Target(s, []) == Some(s) && SetTarget(s, [], v) == v
  {
  }

  function MoveAt(s: Sem, path: string, from: string): (r: Option<Sem>) {
    match (Tokens(from), Tokens(path))
    case (Some(f), Some(p)) => Move(s, f, p)
    case _ => None
  }

  /** If the standard has the source, it goes on to add, unless the source lies above the destination. */
  lemma MoveUnfold(s: Sem, path: string, from: string)
    ensures RemoveAtPath(s, from).None? || !Names(s, from) ==> MoveAt(s, path, from) == None
    ensures Names(s, from) && RemoveAtPath(s, from).Some? ==>
      MoveAt(s, path, from) ==
        if Tokens(path).Some? && Tokens(from).value < Tokens(path).value then None
        else AddAt(RemoveAtPath(s, from).value, path, Target(s, Tokens(from).value).value)
  {
    hide Tokens, Target, Remove, Add;
  }

  lemma MoveOpExactly(doc: Json, path: string, from: string, patch: Json)
    requires WellFormed(doc) && SemSized(Norm(doc)) && NulFree(path) && Field(patch, "from") == Some(String(from))
    ensures Agrees(ApplyMove(doc, path, patch), MoveAt(Norm(doc), path, from)) <==> MoveAgrees(Norm(doc), path, from)
  {
    hide AddValue, MoveAt, AddAt, AddAgrees, NoParent, Field, Norm, WellFormed, SemSized, PatchDetach, SemDetach;
    hide Names, RemoveAtPath, Tokens, Target;
    var s, d := Norm(doc), PatchDetach(doc, from);
    DetachMeaning(doc, from);
    MoveUnfold(s, path, from);
    NothingDetached(s, from);
    if from != "" && Names(s, from) {
      DetachNamed(s, from);
      AddValueExactly(d.doc, path, d.item.value);
    } else {
      NotNamed(s, from);
      if d.Detached? && d.item.Some? {
        DetachedSized(s, from);
        AddValueExactly(d.doc, path, d.item.value);
      }
    }
  }

  /** Without a child part nothing is taken out. */
  lemma NothingDetached(s: Sem, from: string)
    ensures from == "" ==> SemDetach(s, from) == SemDetached(None, s)
  {
  }

  lemma DetachFromSized(p: Sem, child: string)
    requires SemSized(p) && SemDetachFrom(p, child).SemDetached?
    ensures SemSized(SemDetachFrom(p, child).doc)
  {
    var i := Atoi(child);
    if p.SArray? && i.Some? && 0 <= i.value < |p.items| {
      var r := RemoveAt(p.items, i.value);
      assert forall j :: 0 <= j < |r| ==> r[j] in p.items;
    }
  }

  lemma DetachedSized(s: Sem, from: string)
    requires SemSized(s) && SemDetach(s, from).SemDetached?
    ensures SemSized(SemDetach(s, from).doc)
  {
    hide SemSized, SemDetachFrom, SemAt, SemSet, Decode, LastSlash, Split;
    var k := LastSlash(from);
    if k.Some? && SemAt(s, Split(from[..k.value])).Some? {
      var q, child := Split(from[..k.value]), Decode(from[k.value + 1..]).value;
      AtSized(s, q);
      DetachFromSized(SemAt(s, q).value, child);
      SetSized(s, q, SemDetachFrom(SemAt(s, q).value, child).doc);
    }
  }

  function CopyAt(s: Sem, path: string, from: string): (r: Option<Sem>) {
    if Names(s, from) then AddAt(s, path, Target(s, Tokens(from).value).value) else None
  }

  /** A pointer the standard follows, the code follows to the same value. */
  lemma NamesAt(s: Sem, pointer: string)
    requires SemSized(s) && Names(s, pointer)
    ensures SemAt(s, Split(pointer)) == Target(s, Tokens(pointer).value) && Target(s, Tokens(pointer).value).Some?
  {
    hide Target, SemAt, SemSized;
    TargetAt(s, Tokens(pointer).value);
  }

  lemma CopyOpExactly(doc: Json, path: string, from: string, patch: Json)
    requires WellFormed(doc) && SemSized(Norm(doc)) && NulFree(path) && Field(patch, "from") == Some(String(from))
    ensures Agrees(ApplyCopy(doc, path, patch), CopyAt(Norm(doc), path, from)) <==> CopyAgrees(Norm(doc), path, from)
  {
    hide AddValue, AddAt, AddAgrees, NoParent, Field, Norm, WellFormed, SemSized, Names, Tokens, Target, Resolve;
    hide SemAt, Split;
    var s, r := Norm(doc), Resolve(doc, Split(from));
    ResolveMeaning(doc, Split(from));
    if Names(s, from) {
      NamesAt(s, from);
    }
    if r.Some? {
      AddValueExactly(doc, path, At(doc, r.value).value);
    }
  }

  function TestAt(s: Sem, path: string, patch: Json): (r: Option<Sem>) {
    match Tokens(path)
    case Some(tokens) => StandardTest(s, tokens, patch)
    case None => None
  }

  lemma TestOpExactly(doc: Json, path: string, patch: Json)
    requires WellFormed(doc) && SemSized(Norm(doc)) && WellFormed(patch)
    ensures var s, v := Norm(doc), Lift(Field(patch, "value"));
      Agrees(ApplyTest(doc, path, patch), TestAt(s, path, patch)) <==>
        v.None? || Names(s, path) || SemAt(s, Split(path)) != v
  {
    hide Field, Norm, WellFormed, SemSized, Tokens, Target, SemAt, Split, ApplyTest;
    var s := Norm(doc);
    TestOpMeaning(doc, path, patch);
    Carry(ApplyTest(doc, path, patch), SemTest(s, path, patch), TestAt(s, path, patch));
    if Names(s, path) {
      NamesAt(s, path);
    }
  }

  /** `Standard` by the text of the path. */
  function StandardAt(s: Sem, op: string, path: string, patch: Json): (r: Option<Sem>) {
    var v, from := Field(patch, "value"), Text(patch, "from");
    if op == "add" then (match v { case Some(w) => AddAt(s, path, Norm(w)) case None => None })
    else if op == "remove" then RemoveAtPath(s, path)
    else if op == "replace" then ReplaceAt(s, path, patch)
    else if op == "move" then (match from { case Some(f) => MoveAt(s, path, f) case None => None })
    else if op == "copy" then (match from { case Some(f) => CopyAt(s, path, f) case None => None })
    else if op == "test" then TestAt(s, path, patch)
    else None
  }

  lemma StandardByPath(s: Sem, op: string, path: string, patch: Json)
    requires Field(patch, "op") == Some(String(op)) && Field(patch, "path") == Some(String(path))
    ensures Standard(s, patch) == StandardAt(s, op, path, patch)
  {
    hide Field, Add, Remove, StandardReplace, StandardMove, StandardCopy, StandardTest, MoveAt, CopyAt, Norm, Tokens;
    FromByPath(s, path, patch);
    assert Text(patch, "op") == Some(op) && Location(patch, "path") == Tokens(path);
  }

  lemma FromByPath(s: Sem, path: string, patch: Json)
    ensures var t, from := Tokens(path), Text(patch, "from");
      && (from.Some? ==> MoveAt(s, path, from.value) == if t.Some? then StandardMove(s, t.value, patch) else None)
      && (from.Some? ==> CopyAt(s, path, from.value) == if t.Some? then StandardCopy(s, t.value, patch) else None)
      && (from.None? && t.Some? ==> StandardMove(s, t.value, patch) == StandardCopy(s, t.value, patch) == None)
  {
    hide Field, Add, Move, Target, Tokens;
  }

  lemma OpExactly(doc: Json, op: string, path: string, patch: Json)
    requires WellFormed(doc) && SemSized(Norm(doc)) && WellFormed(patch) && NulFree(path)
    ensures Agrees(ApplyOp(doc, op, path, patch), StandardAt(Norm(doc), op, path, patch)) <==>
      ConformsAt(Norm(doc), op, path, patch)
  {
    hide ApplyAdd, ApplyRemove, ApplyReplace, ApplyMove, ApplyCopy, ApplyTest, Field, Norm, WellFormed, SemSized, Text;
    hide AddAt, RemoveAtPath, ReplaceAt, MoveAt, CopyAt, TestAt, Agrees;
    hide AddAgrees, Names, ReplaceAgrees, MoveAgrees, CopyAgrees, SemAt, Split;
    if op == "add" {
      AddOpExactly(doc, path, patch);
    } else if op == "remove" {
      RemoveOpExactly(doc, path);
    } else if op == "replace" {
      ReplaceOpExactly(doc, path, patch);
    } else if op == "move" {
      MoveOrMissing(doc, path, patch);
    } else if op == "copy" {
      CopyOrMissing(doc, path, patch);
    } else if op == "test" {
      TestOpExactly(doc, path, patch);
    } else {
      ErrorsAgree(3, doc);
    }
  }

  /**
   * One call of ApplyPatch on values, for every well-formed document and every patch of C strings: it agrees with
   * section 4 of RFC 6902 exactly if Conforms holds.
   */
  lemma ConformsExactly(doc: Json, patch: Json)
    requires WellFormed(doc) && SemSized(Norm(doc)) && IsPatch(patch)
    ensures Agrees(ApplyPatch(doc, patch), Standard(Norm(doc), patch)) <==> Conforms(Norm(doc), patch)
  {
    hide ApplyOp, Field, Norm, WellFormed, SemSized, Standard, StandardAt, ConformsAt, Agrees;
    var s, o, p := Norm(doc), Field(patch, "op"), Field(patch, "path");
    ErrorsAgree(2, doc);
    ErrorsAgree(3, doc);
    if o.Some? && o.value.String? && p.Some? && p.value.String? {
      var op, path := o.value.s, p.value.s;
      StandardByPath(s, op, path, patch);
      OpExactly(doc, op, path, patch);
    } else {
      Malformed(s, patch);
    }
  }

  lemma ErrorsAgree(err: int, doc: Json)
    requires err != 0
    ensures Agrees(Applied(err, doc), None) && !Agrees(Undefined, None)
  {
  }

  lemma Malformed(s: Sem, patch: Json)
    requires Text(patch, "op").None? || Text(patch, "path").None?
    ensures Standard(s, patch) == None
  {
  }

  lemma AddOpExactly(doc: Json, path: string, patch: Json)
    requires WellFormed(doc) && SemSized(Norm(doc)) && WellFormed(patch) && NulFree(path)
    ensures var s, v := Norm(doc), Field(patch, "value");
      Agrees(ApplyAdd(doc, path, patch), match v { case Some(w) => AddAt(s, path, Norm(w)) case None => None }) <==>
        v.None? || AddAgrees(s, path, Norm(v.value))
  {
    hide AddValue, AddAt, AddAgrees, Field, Norm, WellFormed, SemSized;
    var v := Field(patch, "value");
    if v.Some? {
      ItemWellFormed(patch, "value");
      AddValueExactly(doc, path, v.value);
    }
  }

  lemma RemoveOpExactly(doc: Json, path: string)
    requires WellFormed(doc) && SemSized(Norm(doc))
    ensures Agrees(ApplyRemove(doc, path), RemoveAtPath(Norm(doc), path)) <==> path != "" && Names(Norm(doc), path)
  {
    hide ApplyRemove, SemRemove, RemoveAtPath, Names, Norm, WellFormed, SemSized;
    RemoveOpMeaning(doc, path);
    RemoveExactly(Norm(doc), path);
    Carry(ApplyRemove(doc, path), SemRemove(Norm(doc), path), RemoveAtPath(Norm(doc), path));
  }

  lemma MoveOrMissing(doc: Json, path: string, patch: Json)
    requires WellFormed(doc) && SemSized(Norm(doc)) && NulFree(path)
    ensures var s, from := Norm(doc), Text(patch, "from");
      Agrees(ApplyMove(doc, path, patch), match from { case Some(f) => MoveAt(s, path, f) case None => None }) <==>
        (var f := Field(patch, "from");
        f.None? || (f.value.String? && MoveAgrees(s, path, f.value.s)))
  {
    hide MoveAt, MoveAgrees, Norm, WellFormed, SemSized, PatchDetach, AddValue;
    var from := Text(patch, "from");
    if from.Some? {
      MoveOpExactly(doc, path, from.value, patch);
    }
  }

  lemma CopyOrMissing(doc: Json, path: string, patch: Json)
    requires WellFormed(doc) && SemSized(Norm(doc)) && NulFree(path)
    ensures var s, from := Norm(doc), Text(patch, "from");
      Agrees(ApplyCopy(doc, path, patch), match from { case Some(f) => CopyAt(s, path, f) case None => None }) <==>
        (var f := Field(patch, "from");
        f.None? || (f.value.String? && CopyAgrees(s, path, f.value.s)))
  {
    hide CopyAt, CopyAgrees, Norm, WellFormed, SemSized, AddValue, Resolve, Split;
    var from := Text(patch, "from");
    if from.Some? {
      CopyOpExactly(doc, path, from.value, patch);
    }
  }

  // ---- whole patch documents

  /** Section 5 of RFC 6902: in order, up to the first error. */
  function StandardAll(s: Sem, patches: seq<Json>): (r: Option<Sem>)
    decreases |patches|
  {
    if patches == [] then Some(s)
    else match Standard(s, patches[0])
      case Some(s') => StandardAll(s', patches[1..])
      case None => None
  }

  /** Every document the patches meet is of a size that an `int` can index. */
  predicate SizedRun(s: Sem, patches: seq<Json>)
    decreases |patches|
  {
    patches != [] ==>
      SemSized(s) && (Standard(s, patches[0]).Some? ==> SizedRun(Standard(s, patches[0]).value, patches[1..]))
  }

  /** Every patch conforms on the document it meets. */
  predicate ConformsAll(s: Sem, patches: seq<Json>)
    decreases |patches|
  {
    patches != [] ==>
      && Conforms(s, patches[0])
      && (Standard(s, patches[0]).Some? ==> ConformsAll(Standard(s, patches[0]).value, patches[1..]))
  }

  /** Agreement after every patch of the list so far. */
  ghost predicate AgreesThroughout(doc: Json, patches: seq<Json>) {
    forall k :: 0 <= k <= |patches| ==> Agrees(ApplyAll(doc, patches[..k]), StandardAll(Norm(doc), patches[..k]))
  }

  /** On values: the code agrees with section 5 of RFC 6902 after every patch exactly if every patch conforms. */
  lemma {:induction false} AgreesExactly(doc: Json, patches: seq<Json>)
    requires WellFormed(doc) && AllPatches(patches) && SizedRun(Norm(doc), patches)
    ensures AgreesThroughout(doc, patches) <==> ConformsAll(Norm(doc), patches)
    decreases |patches|
  {
    hide ApplyPatch, Standard, Conforms, IsPatch, SemSized, Norm, WellFormed, ApplyAll, StandardAll, Agrees;
    TakeNothing(doc, patches);
    if patches != [] {
      assert IsPatch(patches[0]);
      ConformsExactly(doc, patches[0]);
      FirstAgrees(doc, patches);
      var r := ApplyPatch(doc, patches[0]);
      if Conforms(Norm(doc), patches[0]) && Standard(Norm(doc), patches[0]).Some? {
        AgreedDocument(r, Standard(Norm(doc), patches[0]));
        AgreesExactly(r.doc, patches[1..]);
      }
    }
  }

  lemma AgreedDocument(r: Applied, o: Option<Sem>)
    requires Agrees(r, o) && o.Some?
    ensures r.Applied? && r.err == 0 && WellFormed(r.doc) && Norm(r.doc) == o.value
  {
  }

  /** Agreement throughout a list: at the first patch, and then throughout the rest. */
  lemma FirstAgrees(doc: Json, patches: seq<Json>)
    requires WellFormed(doc) && patches != []
    ensures var r, o := ApplyPatch(doc, patches[0]), Standard(Norm(doc), patches[0]);
      AgreesThroughout(doc, patches) <==> Agrees(r, o) && (o.Some? ==> AgreesThroughout(r.doc, patches[1..]))
  {
    hide ApplyPatch, Standard, Norm, WellFormed, ApplyAll, StandardAll, Agrees;
    var r, o, rest := ApplyPatch(doc, patches[0]), Standard(Norm(doc), patches[0]), patches[1..];
    TakeNothing(doc, patches);
    TakeFirst(doc, patches);
    if Agrees(r, o) {
      if o.Some? {
        AgreedDocument(r, o);
      }
      forall k | 0 < k <= |patches|
        ensures Agrees(ApplyAll(doc, patches[..k]), StandardAll(Norm(doc), patches[..k])) <==>
          (o.Some? ==> Agrees(ApplyAll(r.doc, rest[..k - 1]), StandardAll(Norm(r.doc), rest[..k - 1])))
      {
        TakeMore(doc, patches, k);
      }
      if AgreesThroughout(doc, patches) && o.Some? {
        forall k | 0 <= k <= |rest|
          ensures Agrees(ApplyAll(r.doc, rest[..k]), StandardAll(Norm(r.doc), rest[..k]))
        {
          assert Agrees(ApplyAll(doc, patches[..k + 1]), StandardAll(Norm(doc), patches[..k + 1]));
        }
      }
    }
  }

  lemma TakeNothing(doc: Json, patches: seq<Json>)
    requires WellFormed(doc)
    ensures Agrees(ApplyAll(doc, patches[..0]), StandardAll(Norm(doc), patches[..0]))
  {
  }

  lemma TakeFirst(doc: Json, patches: seq<Json>)
    requires patches != []
    ensures Agrees(ApplyAll(doc, patches[..1]), StandardAll(Norm(doc), patches[..1])) <==>
      Agrees(ApplyPatch(doc, patches[0]), Standard(Norm(doc), patches[0]))
  {
    hide ApplyPatch, Standard, Norm, WellFormed;
    var p := patches[..1];
    assert p[0] == patches[0] && p[1..] == [];
    var r, o := ApplyPatch(doc, p[0]), Standard(Norm(doc), p[0]);
    assert r.Applied? ==> ApplyAll(r.doc, []) == Applied(0, r.doc);
    assert o.Some? ==> StandardAll(o.value, []) == Some(o.value);
  }

  lemma TakeMore(doc: Json, patches: seq<Json>, k: nat)
    requires 0 < k <= |patches| && Agrees(ApplyPatch(doc, patches[0]), Standard(Norm(doc), patches[0]))
    ensures var r, o := ApplyPatch(doc, patches[0]), Standard(Norm(doc), patches[0]);
      Agrees(ApplyAll(doc, patches[..k]), StandardAll(Norm(doc), patches[..k])) <==>
        (o.Some? ==> Agrees(ApplyAll(r.doc, patches[1..][..k - 1]), StandardAll(Norm(r.doc), patches[1..][..k - 1])))
  {
    hide ApplyPatch, Standard, Norm, WellFormed;
    assert patches[..k][0] == patches[0] && patches[..k][1..] == patches[1..][..k - 1];
  }

  // ---- inputs on which the code goes its own way

  lemma OneToken(lead: string, t: string)
    requires SlashFree(t) && SlashFree(lead)
    ensures var path := lead + "/" + t;
      && LastSlash(path) == Some(|lead|) && path[..|lead|] == lead && path[|lead| + 1..] == t && Split(lead) == []
      && Tokens(path) == if lead == "" then Some([t]) else None
  {
    LastSlashOf(lead, t);
    if lead == "" {
      TokensOfPath(lead + "/" + t);
      assert [] + [t] == [t];
    }
  }

  /** One token under the root: the code edits the root, and the standard objects if its own rule for the root does. */
  lemma AddAtRoot(doc: Json, lead: string, t: string, v: Json)
    requires SlashFree(t) && SlashFree(lead) && Decode(t) == Some(t)
    requires lead != "" || InsertInto(Norm(doc), t, Norm(v)) == None
    requires AddTo(doc, t, v).Some?
    ensures var p := MakePatch("add", lead + "/" + t, Some(v));
      Standard(Norm(doc), p) == None && ApplyPatch(doc, p) == Applied(0, AddTo(doc, t, v).value)
  {
    hide InsertInto, AddTo, Norm, Field, LastSlash, Split, Decode;
    var path, s := lead + "/" + t, Norm(doc);
    ItemsOfPatch("add", path, Some(v));
    OneToken(lead, t);
    StandardByPath(s, "add", path, MakePatch("add", path, Some(v)));
    AddSnoc(s, [], t, Norm(v));
    assert [] + [t] == [t];
    ResolveNothing(doc);
    assert At(doc, []) == Some(doc) && SetAt(doc, [], AddTo(doc, t, v).value) == AddTo(doc, t, v).value;
  }

  lemma RemoveAtRoot(doc: Json, t: string)
    requires SlashFree(t) && Decode(t) == Some(t) && Refer(Norm(doc), t) == None && DetachFrom(doc, t).Detached?
    ensures var p := MakePatch("remove", "/" + t, None);
      Standard(Norm(doc), p) == None && ApplyPatch(doc, p) == Applied(0, DetachFrom(doc, t).doc)
  {
    hide Refer, DetachFrom, Norm, Field, Decode, Standard, MakePatch, ApplyRemove, RemoveAtPath, SlashFree;
    var path, s := "/" + t, Norm(doc);
    ItemsOfPatch("remove", path, None);
    StandardByPath(s, "remove", path, MakePatch("remove", path, None));
    RootRemoval(doc, t);
  }

  lemma RootRemoval(doc: Json, t: string)
    requires SlashFree(t) && Decode(t) == Some(t) && Refer(Norm(doc), t) == None && DetachFrom(doc, t).Detached?
    ensures RemoveAtPath(Norm(doc), "/" + t) == None
    ensures ApplyRemove(doc, "/" + t) == Applied(0, DetachFrom(doc, t).doc)
  {
    hide Refer, DetachFrom, Norm, Decode, LastSlash, Split, SlashFree, Remove;
    var path := "/" + t;
    assert "" + "/" + t == path;
    OneToken("", t) by { assert SlashFree("") by { NoSlash(); } }
    RemoveSnoc(Norm(doc), [], t);
    assert [] + [t] == [t];
    ResolveNothing(doc);
    assert At(doc, []) == Some(doc) && SetAt(doc, [], DetachFrom(doc, t).doc) == DetachFrom(doc, t).doc;
  }

  lemma NoSlash()
    ensures SlashFree("")
  {
  }

  /** Removing a member that is not there, which the standard forbids, reports success. */
  lemma RemovesNothing()
    ensures var doc, p := Object([]), MakePatch("remove", "/a", None);
      ApplyPatch(doc, p) == Applied(0, doc) && Standard(Norm(doc), p) == None
  {
    hide ApplyPatch, Standard, MakePatch;
    assert "/" + "a" == "/a";
    PlainDecodes("a");
    RemoveAtRoot(Object([]), "a");
  }

  /** So does adding a member to a number. */
  lemma AddsToNumber(n: int, v: Json)
    ensures var doc, p := Number(n), MakePatch("add", "/a", Some(v));
      ApplyPatch(doc, p) == Applied(0, doc) && Standard(Norm(doc), p) == None
  {
    hide ApplyPatch, Standard, MakePatch;
    assert "" + "/" + "a" == "/a";
    PlainDecodes("a");
    AddAtRoot(Number(n), "", "a", v);
  }

  lemma ReadFive()
    ensures ArrayIndex("5") && Value("5") == 5 && Atoi("5") == Some(5) && Decode("5") == Some("5")
  {
    assert "5"[..0] == "";
    AtoiIndex("5");
  }

  /** An index beyond the length appends. */
  lemma AddsBeyond(v: Json)
    ensures var doc, p := Array([]), MakePatch("add", "/5", Some(v));
      ApplyPatch(doc, p) == Applied(0, Array([v])) && Standard(Norm(doc), p) == None
  {
    hide ApplyPatch, Standard, MakePatch, Atoi, Value, Decode, ArrayIndex;
    assert "" + "/" + "5" == "/5";
    ReadFive();
    assert InsertAt([], 0, v) == [v];
    AddAtRoot(Array([]), "", "5", v);
  }

  lemma ReadZeros()
    ensures !ArrayIndex("00") && Atoi("00") == Some(0) && Decode("00") == Some("00")
  {
    PlainDecodes("00");
    assert "00"[..2] == "00" && "00"[..1] == "0" && "0"[..0] == "";
    DigitRunIs("00", 2);
    assert Value("0") == 0 && Value("00") == 0;
  }

  /** A leading zero is read as an index. */
  lemma ReadsLeadingZero(v: Json)
    ensures var doc, p := Array([v]), MakePatch("remove", "/00", None);
      ApplyPatch(doc, p) == Applied(0, Array([])) && Standard(Norm(doc), p) == None
  {
    hide ApplyPatch, Standard, MakePatch, Atoi, Value, Decode, ArrayIndex;
    assert "/" + "00" == "/00";
    ReadZeros();
    assert RemoveAt([v], 0) == [];
    RemoveAtRoot(Array([v]), "00");
  }

  /** What stands before the first `/` is passed over. */
  lemma SkipsPrefix(v: Json)
    ensures var doc, p := Object([]), MakePatch("add", "x/a", Some(v));
      ApplyPatch(doc, p) == Applied(0, Object([Member("a", v)])) && Standard(Norm(doc), p) == None
  {
    hide ApplyPatch, Standard, MakePatch;
    assert "x" + "/" + "a" == "x/a";
    PlainDecodes("a");
    assert PutKey([], "a", v) == [Member("a", v)];
    AddAtRoot(Object([]), "x", "a", v);
  }
}
