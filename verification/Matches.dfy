/** The console's list of completions. */
module Matches {
  import opened CStrings

  class Node {
    const val: string
    var next: Node?

    constructor (v: string)
      ensures val == v && next == null
    {
      val, next := v, null;
    }
  }

  // ---- sequences of nodes

  ghost predicate Distinct(spine: seq<Node>) {
    forall i, j :: 0 <= i < j < |spine| ==> spine[i] != spine[j]
  }

  /** Every node but the last points at its successor; nothing is said of the last one. */
  ghost predicate Linked(spine: seq<Node>)
    reads spine
  {
    forall i {:trigger spine[i]} :: 0 <= i < |spine| - 1 ==> spine[i].next == spine[i + 1]
  }

  ghost predicate Terminated(spine: seq<Node>) {
    forall i :: 0 <= i < |spine| ==> NulFree(spine[i].val)
  }

  predicate Before(a: Node, b: Node) {
    StrCmp(a.val, b.val) <= 0
  }

  /** From position `from` on, every node is after all nodes in front of it. */
  ghost predicate Settled(spine: seq<Node>, from: nat) {
    forall i, j :: 0 <= i < j < |spine| && from <= j ==> Before(spine[i], spine[j])
  }

  /** Dictionary order of the values. */
  ghost predicate InOrder(spine: seq<Node>) {
    forall i, j :: 0 <= i < j < |spine| ==>
      spine[i].val == spine[j].val || Precedes(spine[i].val, spine[j].val)
  }

  lemma SettledInOrder(spine: seq<Node>)
    requires Terminated(spine) && Settled(spine, 0)
    ensures InOrder(spine)
  {
    hide StrCmp, Precedes;
    forall i, j | 0 <= i < j < |spine|
      ensures spine[i].val == spine[j].val || Precedes(spine[i].val, spine[j].val)
    {
      StrCmpOrder(spine[i].val, spine[j].val);
      assert Before(spine[i], spine[j]);
    }
  }

  ghost predicate Largest(spine: seq<Node>, k: nat)
    requires k < |spine|
  {
    forall i :: 0 <= i < k ==> Before(spine[i], spine[k])
  }

  function Swapped(spine: seq<Node>, k: nat): (r: seq<Node>)
    requires k + 1 < |spine|
    ensures |r| == |spine| && r[k] == spine[k + 1] && r[k + 1] == spine[k]
    ensures forall i :: 0 <= i < |spine| && i != k && i != k + 1 ==> r[i] == spine[i]
  {
    spine[k := spine[k + 1]][k + 1 := spine[k]]
  }

  function Stepped(spine: seq<Node>, k: nat): (r: seq<Node>)
    requires k + 1 < |spine|
    ensures |r| == |spine|
  {
    if Before(spine[k], spine[k + 1]) then spine else Swapped(spine, k)
  }

  /** The same nodes, each once. */
  ghost predicate Rearranged(a: seq<Node>, b: seq<Node>) {
    |a| == |b| && multiset(a) == multiset(b) && Distinct(b)
  }

  /** A comparison carries the largest node one place further and leaves the settled part settled. */
  lemma StepKeeps(spine: seq<Node>, k: nat, from: nat)
    requires Distinct(spine) && Terminated(spine) && k + 1 < from <= |spine|
    requires Settled(spine, from) && Largest(spine, k)
    ensures var s := Stepped(spine, k);
      Rearranged(spine, s) && Terminated(s) && Settled(s, from) && Largest(s, k + 1)
  {
    hide StrCmp;
    var s := Stepped(spine, k);
    StrCmpFlip(spine[k].val, spine[k + 1].val);
    forall i | 0 <= i < k + 1
      ensures Before(s[i], s[k + 1])
    {
      if s == spine && i < k {
        StrCmpTransitive(spine[i].val, spine[k].val, spine[k + 1].val);
      }
    }
  }

  lemma PassSettles(spine: seq<Node>, from: nat)
    requires 0 < from <= |spine| && Settled(spine, from) && Largest(spine, from - 1)
    ensures Settled(spine, from - 1)
  {
  }

  lemma RearrangedTwice(a: seq<Node>, b: seq<Node>, c: seq<Node>)
    requires Rearranged(a, b) && Rearranged(b, c)
    ensures Rearranged(a, c)
  {
  }

  ghost predicate Within(spine: seq<Node>, nodes: set<Node>) {
    forall i :: 0 <= i < |spine| ==> spine[i] in nodes
  }

  lemma All(spine: seq<Node>, nodes: set<Node>)
    requires nodes == set x | x in spine
    ensures Within(spine, nodes)
  {
  }

  lemma StillWithin(a: seq<Node>, b: seq<Node>, nodes: set<Node>)
    requires Rearranged(a, b) && Within(a, nodes)
    ensures Within(b, nodes)
  {
    forall i | 0 <= i < |b|
      ensures b[i] in nodes
    {
      assert b[i] in multiset(b);
    }
  }

  // ---- the list

  class List {
    var head: Node?
    var end: Node?
    var count: nat
    ghost var spine: seq<Node>

    ghost predicate Valid()
      reads this, spine
    {
      && Chain() && Terminated(spine)
      && (if spine == [] then head == null else end == spine[|spine| - 1] && end.next == null)
    }

    /** Everything but the link and the record of the last node. */
    ghost predicate Chain()
      reads this, spine
    {
      Distinct(spine) && Linked(spine) && count == |spine| && (spine != [] ==> head == spine[0])
    }

    constructor ()
      ensures Valid() && spine == [] && fresh(this)
    {
      head, end, count, spine := null, null, 0, [];
    }

    /** The four nodes around position `k`; only the first three are reliable at the end of the list. */
    ghost predicate Window(k: nat, s0: Node?, s1: Node?, s2: Node?, s3: Node?)
      reads this
    {
      && k + 1 < |spine| && s1 == spine[k] && s2 == spine[k + 1]
      && s0 == (if k == 0 then null else spine[k - 1])
      && (k + 2 < |spine| ==> s3 == spine[k + 2])
    }

    /** One comparison: exchange two neighbours if they are out of order and move the window on. */
    method Step(ghost nodes: set<Node>, ghost k: nat, s0: Node?, s1: Node, s2: Node, s3: Node?)
      returns (t0: Node?, t1: Node?, t2: Node?, t3: Node?)
      requires Chain() && Within(spine, nodes) && Window(k, s0, s1, s2, s3)
      modifies `head, `spine, nodes
      ensures Chain() && spine == Stepped(old(spine), k)
      ensures k + 2 < |spine| ==> Window(k + 1, t0, t1, t2, t3)
    {
      if StrCmp(s1.val, s2.val) > 0 {
        s1.next := s3;
        s2.next := s1;
        if s0 != null {
          s0.next := s2;
        }
        if s1 == head {
          head := s2;
        }
        spine := Swapped(spine, k);
        t0, t1, t2 := s2, s1, s1.next;
      } else {
        t0, t1, t2 := s1, s2, s3;
      }
      t3 := s3;
      if s3 != null && s3.next != null {
        t3 := s3.next;
      }
    }

    /** One pass of the outer loop: the largest node of the unsettled part reaches its end. */
    method Pass(ghost nodes: set<Node>, i: nat)
      requires Chain() && Within(spine, nodes) && Terminated(spine) && 1 <= i < count && Settled(spine, count - i + 1)
      modifies `head, `spine, nodes
      ensures Chain() && Within(spine, nodes) && Terminated(spine) && Rearranged(old(spine), spine) &&
        Settled(spine, count - i)
    {
      hide Settled, Largest, Rearranged, Terminated, Stepped, Within;
      var s0, s1, s2, s3 := null, head, head.next, head.next.next;
      assert Window(0, s0, s1, s2, s3);
      hide Linked, Distinct;
      ghost var k := 0;
      ghost var from := count - i + 1;
      Start(spine);
      for j := 1 to count - i + 1
        invariant k == j - 1 && Chain() && Within(spine, nodes) && |spine| == count == old(count) && Terminated(spine)
        invariant Rearranged(old(spine), spine) && Settled(spine, from) && Largest(spine, k)
        invariant k + 1 < count ==> Window(k, s0, s1, s2, s3)
        modifies `head, `spine, nodes
      {
        ghost var before := spine;
        StepKeeps(before, k, from);
        StillWithin(before, Stepped(before, k), nodes);
        s0, s1, s2, s3 := Step(nodes, k, s0, s1, s2, s3);
        RearrangedTwice(old(spine), before, spine);
        k := k + 1;
      }
      PassSettles(spine, from);
    }

    lemma Start(s: seq<Node>)
      requires Distinct(s) && s != []
      ensures Rearranged(s, s) && Largest(s, 0) && Settled(s, |s|)
    {
    }

    /** `switch_console_sort_matches`. */
    method Sort()
      requires Valid()
      modifies this, spine
      ensures Valid() && count == old(count)
      ensures Rearranged(old(spine), spine) && Settled(spine, 0) && InOrder(spine)
    {
      hide Settled, Rearranged, Terminated, Linked, Distinct, Within, InOrder;
      if count < 2 {
        Short(spine);
        SettledInOrder(spine);
        return;
      }
      ghost var nodes := set x | x in spine;
      All(spine, nodes);
      Passes(nodes);
      CloseEnd(nodes);
      SettledInOrder(spine);
    }

    /** The two nested loops. */
    method Passes(ghost nodes: set<Node>)
      requires Chain() && Within(spine, nodes) && Terminated(spine) && count >= 2
      modifies `head, `spine, nodes
      ensures Chain() && Within(spine, nodes) && Terminated(spine) && Rearranged(old(spine), spine) && Settled(spine, 0)
    {
      hide Settled, Largest, Rearranged, Terminated, Linked, Within;
      Start(spine);
      for i := 1 to count
        invariant Chain() && Within(spine, nodes) && Terminated(spine)
        invariant Rearranged(old(spine), spine) && Settled(spine, count - i + 1)
        modifies `head, `spine, nodes
      {
        ghost var before := spine;
        Pass(nodes, i);
        RearrangedTwice(old(spine), before, spine);
      }
      FirstSettled(spine);
    }

    /** The final walk: the last node is found by counting, its link cleared and recorded as the end. */
    method CloseEnd(ghost nodes: set<Node>)
      requires Chain() && Within(spine, nodes) && count > 0
      modifies `end, nodes
      ensures Chain() && end == spine[count - 1] && end.next == null
    {
      var p := head;
      for i := 1 to count
        invariant p == spine[i - 1]
        modifies {}
      {
        p := p.next;
      }
      p.next := null;
      end := p;
    }

    lemma Short(s: seq<Node>)
      requires |s| < 2
      ensures Rearranged(s, s) && Settled(s, 0)
    {
    }

    lemma FirstSettled(s: seq<Node>)
      requires Settled(s, 1)
      ensures Settled(s, 0)
    {
    }

    /** The rest of `switch_console_push_match`, once there is a list. */
    method Append(v: string)
      requires Valid() && NulFree(v)
      modifies this, spine
      ensures Valid() && Values(spine) == Values(old(spine)) + [v]
    {
      var match_ := new Node(v);
      if head != null {
        end.next := match_;
      } else {
        head := match_;
      }
      count := count + 1;
      end := match_;
      spine := spine + [match_];
    }

    /** The search of `switch_console_push_match_unique`. */
    method Contains(v: string) returns (found: bool)
      requires Valid() && NulFree(v)
      ensures found <==> exists x :: x in spine && CaseCmp(x.val, v) == 0
    {
      var node := head;
      ghost var k := 0;
      while node != null
        invariant k <= |spine| && node == (if k < |spine| then spine[k] else null)
        invariant forall i :: 0 <= i < k ==> CaseCmp(spine[i].val, v) != 0
        decreases |spine| - k
      {
        var diff := StrCaseCmp(node.val, v);
        if diff == 0 {
          assert node in spine;
          return true;
        }
        node := node.next;
        k := k + 1;
      }
      return false;
    }
  }

  // ---- adding completions

  /** The values in list order. */
  ghost function Values(spine: seq<Node>): (r: seq<string>)
    ensures |r| == |spine| && forall i :: 0 <= i < |r| ==> r[i] == spine[i].val
  {
    seq(|spine|, i requires 0 <= i < |spine| => spine[i].val)
  }

  /** `switch_console_push_match`. */
  method PushMatch(matches: List?, v: string) returns (list: List)
    requires NulFree(v) && (matches != null ==> matches.Valid())
    modifies matches, if matches != null then matches.spine else []
    ensures list.Valid() && (if matches == null then fresh(list) else list == matches)
    ensures Values(list.spine) == (if matches == null then [] else old(Values(matches.spine))) + [v]
  {
    hide Values;
    if matches == null {
      list := new List();
    } else {
      list := matches;
    }
    list.Append(v);
  }

  /** `switch_console_push_match_unique`: nothing is added that is there in any case, and no repeat ever appears. */
  method PushMatchUnique(matches: List?, v: string) returns (list: List?)
    requires NulFree(v) && (matches != null ==> matches.Valid())
    modifies matches, if matches != null then matches.spine else []
    ensures list != null && list.Valid() && (if matches == null then fresh(list) else list == matches)
    ensures Values(list.spine) == Added(if matches == null then [] else old(Values(matches.spine)), v)
  {
    if matches != null {
      var found := matches.Contains(v);
      if found {
        return matches;
      }
    }
    list := PushMatch(matches, v);
  }

  ghost predicate Listed(values: seq<string>, v: string) {
    exists i :: 0 <= i < |values| && CaseCmp(values[i], v) == 0
  }

  ghost function Added(values: seq<string>, v: string): (r: seq<string>) {
    if Listed(values, v) then values else values + [v]
  }

  /** What a run of unique pushes collects. */
  ghost function Collected(pushed: seq<string>): (r: seq<string>) {
    if pushed == [] then [] else Added(Collected(pushed[..|pushed| - 1]), pushed[|pushed| - 1])
  }

  /** No two completions are the same up to case. */
  ghost predicate Unique(values: seq<string>) {
    forall i, j :: 0 <= i < j < |values| ==> CaseCmp(values[i], values[j]) != 0
  }

  /** After any run of unique pushes there are no repeats, everything pushed is listed and nothing else is. */
  lemma {:induction false} CollectedUnique(pushed: seq<string>)
    requires forall i :: 0 <= i < |pushed| ==> NulFree(pushed[i])
    ensures Unique(Collected(pushed))
    ensures forall i :: 0 <= i < |pushed| ==> Listed(Collected(pushed), pushed[i])
    ensures forall v :: v in Collected(pushed) ==> v in pushed
  {
    hide CaseCmp;
    if pushed != [] {
      var front, last := pushed[..|pushed| - 1], pushed[|pushed| - 1];
      CollectedUnique(front);
      var all := Collected(pushed);
      CaseCmpZero(last, last);
      forall i | 0 <= i < |pushed|
        ensures Listed(all, pushed[i])
      {
        if i < |front| {
          var k :| 0 <= k < |Collected(front)| && CaseCmp(Collected(front)[k], front[i]) == 0;
          assert CaseCmp(all[k], pushed[i]) == 0;
        } else if !Listed(Collected(front), last) {
          assert CaseCmp(all[|all| - 1], last) == 0;
        }
      }
    }
  }
}
