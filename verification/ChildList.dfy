/** The doubly linked child list of a cJSON container: its mergesort and its edits, relinked in place. */
module ChildList {
  import opened CStrings
  import opened JsonValue

  /** One child: a node of the `next`/`prev` chain. */
  class Item {
    var key: string
    var value: Json
    var next: Item?
    var prev: Item?

    constructor (key: string, value: Json)
      ensures this.key == key && this.value == value && next == null && prev == null
    {
      this.key, this.value, this.next, this.prev := key, value, null, null;
    }
  }

  predicate Distinct<T(==)>(s: seq<T>) {
    forall i, j :: 0 <= i < j < |s| ==> s[i] != s[j]
  }

  /** `next` runs through the nodes of `spine` in order and stops after the last. */
  ghost predicate Chained(spine: seq<Item>)
    reads spine
  {
    && (forall k {:trigger spine[k].next} :: 0 <= k < |spine| - 1 ==> spine[k].next == spine[k + 1])
    && (|spine| > 0 ==> spine[|spine| - 1].next == null)
  }

  /** Every node but the first points back at its predecessor. */
  ghost predicate BackChained(spine: seq<Item>)
    reads spine
  {
    forall k {:trigger spine[k].prev} :: 1 <= k < |spine| ==> spine[k].prev == spine[k - 1]
  }

  ghost predicate IsList(list: Item?, spine: seq<Item>)
    reads spine
  {
    && list == (if spine == [] then null else spine[0])
    && Distinct(spine)
    && Chained(spine)
    && BackChained(spine)
  }

  ghost predicate CKeys(spine: seq<Item>)
    reads spine`key
  {
    forall k :: 0 <= k < |spine| ==> NulFree(spine[k].key)
  }

  /** The members a chain of nodes stands for. */
  ghost function Contents(spine: seq<Item>): (ms: seq<Member>)
    reads spine`key, spine`value
    ensures |ms| == |spine| && forall k :: 0 <= k < |spine| ==> ms[k] == Member(spine[k].key, spine[k].value)
  {
    if spine == [] then [] else [Member(spine[0].key, spine[0].value)] + Contents(spine[1..])
  }

  // ---- the sort on member lists

  predicate StrictlyAscending(ms: seq<Member>) {
    forall k {:trigger ms[k]} :: 0 <= k < |ms| - 1 ==> CaseCmp(ms[k].key, ms[k + 1].key) < 0
  }

  predicate Ascending(ms: seq<Member>) {
    forall i, j :: 0 <= i < j < |ms| ==> CaseCmp(ms[i].key, ms[j].key) <= 0
  }

  /** Between equal keys the second list goes first, as in the source. */
  function Merge(a: seq<Member>, b: seq<Member>): (r: seq<Member>)
    ensures multiset(r) == multiset(a) + multiset(b)
    ensures |r| == |a| + |b|
  {
    if a == [] then b
    else if b == [] then a
    else if CaseCmp(a[0].key, b[0].key) < 0 then
      assert a == [a[0]] + a[1..];
      [a[0]] + Merge(a[1..], b)
    else
      assert b == [b[0]] + b[1..];
      [b[0]] + Merge(a, b[1..])
  }

  /** `cJSONUtils_SortList`: a strictly ascending list is left alone, any other is halved, sorted and merged. */
  function Sorted(ms: seq<Member>): (r: seq<Member>)
    ensures multiset(r) == multiset(ms)
    ensures |r| == |ms|
    decreases |ms|
  {
    if StrictlyAscending(ms) then ms
    else
      var h := (|ms| + 1) / 2;
      assert ms == ms[..h] + ms[h..];
      Merge(Sorted(ms[..h]), Sorted(ms[h..]))
  }

  /** The members whose key is `k` up to case, in their order. */
  function WithKey(ms: seq<Member>, k: string): (r: seq<Member>) {
    if ms == [] then [] else (if Fold(ms[0].key) == k then [ms[0]] else []) + WithKey(ms[1..], k)
  }

  function Reversed(ms: seq<Member>): (r: seq<Member>) {
    if ms == [] then [] else Reversed(ms[1..]) + [ms[0]]
  }

  /** Dictionary order of the folded keys. */
  ghost predicate InOrder(ms: seq<Member>) {
    forall i, j :: 0 <= i < j < |ms| ==>
      Fold(ms[i].key) == Fold(ms[j].key) || Precedes(Fold(ms[i].key), Fold(ms[j].key))
  }

  predicate NulFreeKeys(ms: seq<Member>) {
    forall k :: 0 <= k < |ms| ==> NulFree(ms[k].key)
  }

  lemma {:induction false} StrictPair(ms: seq<Member>, i: nat, j: nat)
    requires NulFreeKeys(ms) && StrictlyAscending(ms) && i < j < |ms|
    ensures CaseCmp(ms[i].key, ms[j].key) < 0
    decreases j
  {
    assert CaseCmp(ms[j - 1].key, ms[j - 1 + 1].key) < 0;
    if i < j - 1 {
      StrictPair(ms, i, j - 1);
      CaseCmpTransitive(ms[i].key, ms[j - 1].key, ms[j].key);
    }
  }

  lemma StrictIsAscending(ms: seq<Member>)
    requires NulFreeKeys(ms) && StrictlyAscending(ms)
    ensures Ascending(ms)
  {
    forall i, j | 0 <= i < j < |ms|
      ensures CaseCmp(ms[i].key, ms[j].key) <= 0
    {
      StrictPair(ms, i, j);
    }
  }

  lemma MemberOfMerge(a: seq<Member>, b: seq<Member>, m: Member)
    requires m in Merge(a, b)
    ensures m in a || m in b
  {
    assert m in multiset(Merge(a, b));
  }

  lemma {:induction false} MergeAscending(a: seq<Member>, b: seq<Member>)
    requires NulFreeKeys(a) && NulFreeKeys(b) && Ascending(a) && Ascending(b)
    ensures NulFreeKeys(Merge(a, b)) && Ascending(Merge(a, b))
  {
    if a != [] && b != [] {
      CaseCmpZero(a[0].key, b[0].key);
      if CaseCmp(a[0].key, b[0].key) < 0 {
        MergeAscending(a[1..], b);
        HeadBounds(a[0], a[1..], b);
      } else {
        MergeAscending(a, b[1..]);
        HeadBounds(b[0], a, b[1..]);
      }
    }
  }

  /** A key no larger than the heads of two ascending lists is no larger than anything in their merge. */
  lemma HeadBounds(x: Member, a: seq<Member>, b: seq<Member>)
    requires NulFree(x.key) && NulFreeKeys(a) && NulFreeKeys(b) && Ascending(a) && Ascending(b)
    requires (a != [] ==> CaseCmp(x.key, a[0].key) <= 0) && (b != [] ==> CaseCmp(x.key, b[0].key) <= 0)
    ensures forall m :: m in Merge(a, b) ==> CaseCmp(x.key, m.key) <= 0
  {
    forall m | m in Merge(a, b)
      ensures CaseCmp(x.key, m.key) <= 0
    {
      MemberOfMerge(a, b, m);
      if m in a {
        var k :| 0 <= k < |a| && a[k] == m;
        if k > 0 {
          CaseCmpTransitive(x.key, a[0].key, m.key);
        }
      } else {
        var k :| 0 <= k < |b| && b[k] == m;
        if k > 0 {
          CaseCmpTransitive(x.key, b[0].key, m.key);
        }
      }
    }
  }

  lemma AscendingInOrder(ms: seq<Member>)
    requires NulFreeKeys(ms) && Ascending(ms)
    ensures InOrder(ms)
  {
    hide CaseCmp, Precedes, Fold;
    forall i, j | 0 <= i < j < |ms|
      ensures Fold(ms[i].key) == Fold(ms[j].key) || Precedes(Fold(ms[i].key), Fold(ms[j].key))
    {
      CaseCmpOrder(ms[i].key, ms[j].key);
    }
  }

  /** The sort's promise: a permutation in the dictionary order of the folded keys. */
  lemma SortedInOrder(ms: seq<Member>)
    requires NulFreeKeys(ms)
    ensures multiset(Sorted(ms)) == multiset(ms) && InOrder(Sorted(ms))
  {
    hide Sorted, Ascending, InOrder;
    SortedAscending(ms);
    AscendingInOrder(Sorted(ms));
  }

  lemma {:induction false} SortedAscending(ms: seq<Member>)
    requires NulFreeKeys(ms)
    ensures multiset(Sorted(ms)) == multiset(ms)
    ensures NulFreeKeys(Sorted(ms)) && Ascending(Sorted(ms))
    decreases |ms|
  {
    if StrictlyAscending(ms) {
      StrictIsAscending(ms);
    } else {
      var h := (|ms| + 1) / 2;
      SortedAscending(ms[..h]);
      SortedAscending(ms[h..]);
      MergeAscending(Sorted(ms[..h]), Sorted(ms[h..]));
    }
  }

  // ---- equal keys

  lemma {:induction false} WithKeyAppend(a: seq<Member>, b: seq<Member>, k: string)
    ensures WithKey(a + b, k) == WithKey(a, k) + WithKey(b, k)
  {
    hide WithKey;
    if a == [] {
      assert a + b == b;
      WithKeyNone(k);
    } else {
      WithKeyAppend(a[1..], b, k);
      WithKeyCons(a[0], a[1..], k);
      WithKeyCons(a[0], a[1..] + b, k);
      assert a == [a[0]] + a[1..] && a + b == [a[0]] + (a[1..] + b);
    }
  }

  lemma {:induction false} ReversedAppend(a: seq<Member>, b: seq<Member>)
    ensures Reversed(a + b) == Reversed(b) + Reversed(a)
  {
    if a == [] {
      assert a + b == b;
    } else {
      assert (a + b)[0] == a[0] && (a + b)[1..] == a[1..] + b;
      ReversedAppend(a[1..], b);
    }
  }

  /** No member has the key. */
  predicate Lacks(ms: seq<Member>, k: string) {
    forall i :: 0 <= i < |ms| ==> Fold(ms[i].key) != k
  }

  lemma {:induction false} WithKeyLacks(ms: seq<Member>, k: string)
    requires Lacks(ms, k)
    ensures WithKey(ms, k) == []
  {
    if ms != [] {
      WithKeyLacks(ms[1..], k);
    }
  }

  /** In a merge the members of the second list that have the key all come first. */
  lemma {:induction false} MergeTies(a: seq<Member>, b: seq<Member>, k: string)
    requires NulFreeKeys(a) && NulFreeKeys(b) && Ascending(a) && Ascending(b)
    ensures WithKey(Merge(a, b), k) == WithKey(b, k) + WithKey(a, k)
  {
    hide CaseCmp, Fold, WithKey, Merge, Precedes, Ascending, NulFreeKeys, Lacks, NulFree;
    MergeUnfold(a, b);
    if a == [] || b == [] {
      WithKeyNone(k);
      return;
    }
    TailAscending(a);
    TailAscending(b);
    if CaseCmp(a[0].key, b[0].key) < 0 {
      MergeTies(a[1..], b, k);
      WithKeyCons(a[0], Merge(a[1..], b), k);
      WithKeyCons(a[0], a[1..], k);
      assert a == [a[0]] + a[1..];
      if Fold(a[0].key) == k {
        LacksSmaller(a[0].key, b);
        WithKeyLacks(b, k);
      }
    } else {
      MergeTies(a, b[1..], k);
      WithKeyCons(b[0], Merge(a, b[1..]), k);
      WithKeyCons(b[0], b[1..], k);
      assert b == [b[0]] + b[1..];
    }
  }

  lemma TailAscending(ms: seq<Member>)
    requires NulFreeKeys(ms) && Ascending(ms) && ms != []
    ensures NulFreeKeys(ms[1..]) && Ascending(ms[1..]) && NulFree(ms[0].key)
  {
    hide CaseCmp;
  }

  lemma WithKeyNone(k: string)
    ensures WithKey([], k) == []
  {
  }

  lemma WithKeyCons(m: Member, ms: seq<Member>, k: string)
    ensures WithKey([m] + ms, k) == (if Fold(m.key) == k then [m] else []) + WithKey(ms, k)
  {
    assert ([m] + ms)[1..] == ms;
  }

  lemma MergeUnfold(a: seq<Member>, b: seq<Member>)
    ensures Merge(a, b) ==
      if a == [] then b
      else if b == [] then a
      else if CaseCmp(a[0].key, b[0].key) < 0 then [a[0]] + Merge(a[1..], b)
      else [b[0]] + Merge(a, b[1..])
  {
  }

  lemma LacksSmaller(key: string, ms: seq<Member>)
    requires NulFree(key) && NulFreeKeys(ms) && Ascending(ms) && ms != [] && CaseCmp(key, ms[0].key) < 0
    ensures Lacks(ms, Fold(key))
  {
    hide CaseCmp;
    forall i | 0 <= i < |ms|
      ensures Fold(ms[i].key) != Fold(key)
    {
      CaseCmpZero(key, ms[i].key);
      if i > 0 {
        CaseCmpTransitive(key, ms[0].key, ms[i].key);
      }
    }
  }

  /** A strictly ascending list has every key at most once. */
  lemma {:induction false} StrictOnce(ms: seq<Member>, k: string)
    requires NulFreeKeys(ms) && StrictlyAscending(ms)
    ensures |WithKey(ms, k)| <= 1
  {
    hide CaseCmp;
    if ms != [] {
      var t := ms[1..];
      assert StrictlyAscending(t) by { assert forall i :: 0 <= i < |t| ==> t[i] == ms[i + 1]; }
      StrictOnce(t, k);
      if Fold(ms[0].key) == k && t != [] {
        StrictIsAscending(t);
        assert CaseCmp(ms[0].key, ms[0 + 1].key) < 0;
        LacksSmaller(ms[0].key, t);
        WithKeyLacks(t, k);
      }
    }
  }

  lemma ReversedShort(ms: seq<Member>)
    requires |ms| <= 1
    ensures Reversed(ms) == ms
  {
    if ms != [] {
      assert ms[1..] == [] && [] + [ms[0]] == ms;
    }
  }

  /** Members with the same key up to case come out in reverse order: with the order of keys this fixes the result. */
  lemma {:induction false} SortedTies(ms: seq<Member>, k: string)
    requires NulFreeKeys(ms)
    ensures WithKey(Sorted(ms), k) == Reversed(WithKey(ms, k))
    decreases |ms|
  {
    hide CaseCmp, WithKey, Reversed, Merge, Sorted, Ascending, StrictlyAscending, Fold, NulFreeKeys;
    SortedUnfold(ms);
    if StrictlyAscending(ms) {
      StrictOnce(ms, k);
      ReversedShort(WithKey(ms, k));
    } else {
      var h := (|ms| + 1) / 2;
      var a, b := ms[..h], ms[h..];
      KeysOf(ms, a, b);
      SortedTies(a, k);
      SortedTies(b, k);
      SortedAscending(a);
      SortedAscending(b);
      MergeTies(Sorted(a), Sorted(b), k);
      HalvesReversed(a, b, k);
    }
  }

  lemma KeysOf(ms: seq<Member>, a: seq<Member>, b: seq<Member>)
    requires NulFreeKeys(ms) && |a| <= |ms| && a == ms[..|a|] && b == ms[|a|..]
    ensures NulFreeKeys(a) && NulFreeKeys(b) && a + b == ms
  {
  }

  lemma HalvesReversed(a: seq<Member>, b: seq<Member>, k: string)
    ensures Reversed(WithKey(a + b, k)) == Reversed(WithKey(b, k)) + Reversed(WithKey(a, k))
  {
    hide WithKey, Reversed;
    WithKeyAppend(a, b, k);
    ReversedAppend(WithKey(a, k), WithKey(b, k));
  }

  // ---- the sort on the heap

  /** Whether the walk of adjacent pairs reaches the end without meeting a pair that does not ascend. */
  method AlreadySorted(list: Item, ghost spine: seq<Item>) returns (yes: bool)
    requires IsList(list, spine) && CKeys(spine)
    ensures yes == StrictlyAscending(Contents(spine))
  {
    var ptr: Item := list;
    ghost var k := 0;
    while ptr.next != null
      invariant 0 <= k < |spine| && ptr == spine[k]
      invariant forall i {:trigger spine[i]} :: 0 <= i < k ==> CaseCmp(spine[i].key, spine[i + 1].key) < 0
      decreases |spine| - k
    {
      assert ptr.next == spine[k + 1];
      var diff := StrCaseCmp(ptr.key, ptr.next.key);
      if diff >= 0 {
        assert Contents(spine)[k].key == spine[k].key;
        return false;
      }
      ptr, k := ptr.next, k + 1;
    }
    assert k == |spine| - 1;
    return true;
  }

  /** The two-speed walk: while one pointer takes two steps the other takes one, so it ends in the middle. */
  method Middle(list: Item, ghost spine: seq<Item>) returns (second: Item?)
    requires IsList(list, spine) && |spine| >= 2
    ensures second == spine[(|spine| + 1) / 2]
  {
    second := list;
    var ptr: Item? := list;
    ghost var k, p := 0, 0;
    while ptr != null
      invariant 0 <= k <= (|spine| + 1) / 2 && 0 <= p <= |spine|
      invariant p == 2 * k || (p == |spine| && 2 * k == p + 1)
      invariant second == spine[k]
      invariant if p < |spine| then ptr == spine[p] else ptr == null
      decreases |spine| - p
    {
      assert second.next == spine[k + 1] by { assert k + 1 < |spine|; }
      second := second.next;
      ptr := ptr.next;
      k, p := k + 1, p + 1;
      if ptr != null {
        ptr := ptr.next;
        p := p + 1;
      }
    }
  }

  ghost predicate Apart(a: seq<Item>, b: seq<Item>) {
    forall i, j :: 0 <= i < |a| && 0 <= j < |b| ==> a[i] != b[j]
  }

  ghost predicate Ends(list: Item?, ptr: Item?, done: seq<Item>) {
    if done == [] then list == null && ptr == null else list == done[0] && ptr == done[|done| - 1]
  }

  ghost function Head(spine: seq<Item>): (h: Item?) {
    if spine == [] then null else spine[0]
  }

  /** The merged part: linked both ways, but the `next` of its last node is whatever it was before. */
  ghost predicate Linking(list: Item?, ptr: Item?, done: seq<Item>)
    reads done
  {
    && Ends(list, ptr, done)
    && Distinct(done)
    && (forall k {:trigger done[k].next} :: 0 <= k < |done| - 1 ==> done[k].next == done[k + 1])
    && BackChained(done)
  }

  ghost predicate AllIn(a: seq<Item>, nodes: set<Item>) {
    forall i :: 0 <= i < |a| ==> a[i] in nodes
  }

  /** Between two steps: the merged part and the two rests are well linked and share no node. */
  ghost predicate MergeState(list: Item?, ptr: Item?, done: seq<Item>, x: seq<Item>, y: seq<Item>)
    reads done, x, y
  {
    && Linking(list, ptr, done)
    && IsList(Head(x), x) && IsList(Head(y), y)
    && Apart(done, x) && Apart(done, y) && Apart(x, y)
  }

  /** Move the head of `x` to the end of the merged list; the other list `y` is not touched. */
  method Attach(list: Item?, ptr: Item?, node: Item, ghost done: seq<Item>, ghost x: seq<Item>, ghost y: seq<Item>)
    returns (list': Item, ptr': Item, rest: Item?)
    requires MergeState(list, ptr, done, x, y) && node == Head(x)
    modifies if ptr == null then {} else {ptr}`next, node`prev
    ensures MergeState(list', ptr', done + [node], x[1..], y) && rest == Head(x[1..])
    ensures list' == (if done == [] then node else list) && list'.prev == old(list'.prev)
  {
    rest := node.next;
    if list == null {
      list', ptr' := node, node;
    } else {
      ptr.next := node;
      node.prev := ptr;
      list', ptr' := list, node;
    }
  }

  /** Hang what is left of a list behind the merged part. */
  method AttachRest(list: Item?, ptr: Item?, node: Item?, ghost done: seq<Item>, ghost x: seq<Item>)
    returns (list': Item?)
    requires Linking(list, ptr, done) && IsList(node, x) && Apart(done, x)
    requires done != [] ==> x != []
    modifies if ptr == null then {} else {ptr}`next, if node == null then {} else {node}`prev
    ensures IsList(list', done + x)
    ensures list' != null ==> list' == (if done == [] then node else list) && list'.prev == old(list'.prev)
  {
    if node == null {
      return list;
    }
    if list == null {
      return node;
    }
    ptr.next := node;
    node.prev := ptr;
    list' := list;
  }

  /** The members merged so far, followed by the merge of the two rests, are the merge to be produced. */
  ghost predicate MergeGoal(done: seq<Item>, a: seq<Item>, b: seq<Item>, all: multiset<Item>, goal: seq<Member>)
    reads done`key, done`value, a`key, a`value, b`key, b`value
  {
    && CKeys(done) && CKeys(a) && CKeys(b)
    && multiset(done) + multiset(a) + multiset(b) == all
    && Contents(done) + Merge(Contents(a), Contents(b)) == goal
  }

  /** Taking the smaller head moves one member from the pending merge to the finished part. */
  lemma MergeStep(done: seq<Member>, a: seq<Member>, b: seq<Member>)
    requires a != [] && b != []
    ensures CaseCmp(a[0].key, b[0].key) < 0 ==> done + Merge(a, b) == done + [a[0]] + Merge(a[1..], b)
    ensures CaseCmp(a[0].key, b[0].key) >= 0 ==> done + Merge(a, b) == done + [b[0]] + Merge(a, b[1..])
  {
    hide CaseCmp;
  }

  lemma ContentsTake(done: seq<Item>, x: seq<Item>)
    requires x != [] && CKeys(done) && CKeys(x)
    ensures Contents(done + [x[0]]) == Contents(done) + [Contents(x)[0]]
    ensures Contents(x[1..]) == Contents(x)[1..]
    ensures multiset(done + [x[0]]) + multiset(x[1..]) == multiset(done) + multiset(x)
    ensures CKeys(done + [x[0]]) && CKeys(x[1..])
  {
    assert x == [x[0]] + x[1..];
  }

  lemma GoalFirst(done: seq<Item>, a: seq<Item>, b: seq<Item>, all: multiset<Item>, goal: seq<Member>)
    requires MergeGoal(done, a, b, all, goal) && a != [] && b != []
    requires CaseCmp(a[0].key, b[0].key) < 0
    ensures MergeGoal(done + [a[0]], a[1..], b, all, goal)
  {
    hide CaseCmp, Contents, Merge;
    MergeStep(Contents(done), Contents(a), Contents(b));
    ContentsTake(done, a);
  }

  lemma GoalSecond(done: seq<Item>, a: seq<Item>, b: seq<Item>, all: multiset<Item>, goal: seq<Member>)
    requires MergeGoal(done, a, b, all, goal) && a != [] && b != []
    requires CaseCmp(a[0].key, b[0].key) >= 0
    ensures MergeGoal(done + [b[0]], a, b[1..], all, goal)
  {
    hide CaseCmp, Contents, Merge;
    MergeStep(Contents(done), Contents(a), Contents(b));
    ContentsTake(done, b);
    Regroup(multiset(done + [b[0]]), multiset(a), multiset(b[1..]));
    Regroup(multiset(done), multiset(a), multiset(b));
  }

  lemma Regroup<T>(x: multiset<T>, y: multiset<T>, z: multiset<T>)
    ensures x + y + z == (x + z) + y
  {
  }

  lemma GoalStart(a: seq<Item>, b: seq<Item>)
    requires CKeys(a) && CKeys(b)
    ensures MergeGoal([], a, b, multiset(a) + multiset(b), Merge(Contents(a), Contents(b)))
  {
  }

  lemma GoalReached(done: seq<Item>, a: seq<Item>, b: seq<Item>, all: multiset<Item>, goal: seq<Member>)
    requires MergeGoal(done, a, b, all, goal) && (a == [] || b == [])
    ensures var rest := if a == [] then b else a;
            multiset(done + rest) == all && Contents(done + rest) == goal && CKeys(done + rest)
  {
    hide Contents, CaseCmp;
    assert a == [] ==> Contents(a) == [];
    assert b == [] ==> Contents(b) == [];
  }

  lemma MergeStateSwap(list: Item?, ptr: Item?, done: seq<Item>, x: seq<Item>, y: seq<Item>)
    requires MergeState(list, ptr, done, x, y)
    ensures MergeState(list, ptr, done, y, x)
  {
  }

  /** Everything the merge loop keeps. */
  ghost predicate Busy(list: Item?, ptr: Item?, first: Item?, second: Item?,
                       done: seq<Item>, a: seq<Item>, b: seq<Item>, nodes: set<Item>, all: multiset<Item>,
                         goal: seq<Member>)
    reads done, a, b
  {
    && MergeState(list, ptr, done, a, b) && first == Head(a) && second == Head(b)
    && AllIn(done, nodes) && AllIn(a, nodes) && AllIn(b, nodes)
    && CKeys(a) && CKeys(b) && MergeGoal(done, a, b, all, goal)
  }

  /** One turn of the merge loop: the smaller head, or the second one on a tie, joins the merged list. */
  method MergeOne(list: Item?, ptr: Item?, first: Item, second: Item, ghost done: seq<Item>, ghost a: seq<Item>,
                  ghost b: seq<Item>, ghost nodes: set<Item>, ghost all: multiset<Item>, ghost goal: seq<Member>)
    returns (list': Item, ptr': Item, first': Item?, second': Item?, ghost done': seq<Item>, ghost a': seq<Item>,
      ghost b': seq<Item>)
    requires Busy(list, ptr, first, second, done, a, b, nodes, all, goal)
    modifies nodes`next, nodes`prev
    ensures Busy(list', ptr', first', second', done', a', b', nodes, all, goal)
    ensures |a'| + |b'| == |a| + |b| - 1 && (a' == a || b' == b)
    ensures list' == (if list == null then (if done' == [first] then first else second) else list)
    ensures list'.prev == old(list'.prev)
  {
    hide CaseCmp, Contents, Merge, MergeGoal, IsList, Apart, Distinct, BackChained, Precedes, Fold;
    var diff := StrCaseCmp(first.key, second.key);
    if diff < 0 {
      GoalFirst(done, a, b, all, goal);
      done', a', b' := done + [first], a[1..], b;
      list', ptr', first' := Attach(list, ptr, first, done, a, b);
      second' := second;
    } else {
      GoalSecond(done, a, b, all, goal);
      MergeStateSwap(list, ptr, done, a, b);
      done', a', b' := done + [second], a, b[1..];
      list', ptr', second' := Attach(list, ptr, second, done, b, a);
      first' := first;
      MergeStateSwap(list', ptr', done', b', a');
    }
  }

  /** The merge loop of SortList: it stops when one of the lists runs out. */
  method MergeLoop(first0: Item, second0: Item, ghost f: seq<Item>, ghost s: seq<Item>, ghost nodes: set<Item>,
                   ghost all: multiset<Item>, ghost goal: seq<Member>)
    returns (list: Item?, ptr: Item?, first: Item?, second: Item?, ghost done: seq<Item>, ghost a: seq<Item>,
      ghost b: seq<Item>)
    requires Busy(null, null, first0, second0, [], f, s, nodes, all, goal)
    modifies nodes`next, nodes`prev
    ensures Busy(list, ptr, first, second, done, a, b, nodes, all, goal)
    ensures (first == null) != (second == null)
    ensures (list == first0 || list == second0) && list.prev == old(list.prev)
  {
    hide MergeState, MergeGoal, AllIn, CKeys;
    list, ptr, first, second := null, null, first0, second0;
    done, a, b := [], f, s;
    while first != null && second != null
      invariant Busy(list, ptr, first, second, done, a, b, nodes, all, goal)
      invariant first != null || second != null
      invariant list == null ==> first == first0 && second == second0 && unchanged(nodes)
      invariant list != null ==> (list == first0 || list == second0) && list.prev == old(list.prev)
      decreases |a| + |b|
    {
      list, ptr, first, second, done, a, b := MergeOne(list, ptr, first, second, done, a, b, nodes, all, goal);
    }
  }

  /** Merge two sorted halves into one list. */
  method MergeLists(first0: Item, second0: Item, ghost f: seq<Item>, ghost s: seq<Item>, ghost nodes: set<Item>,
                    ghost all: multiset<Item>, ghost goal: seq<Member>)
    returns (list: Item?, ghost out: seq<Item>)
    requires Busy(null, null, first0, second0, [], f, s, nodes, all, goal)
    modifies nodes`next, nodes`prev
    ensures IsList(list, out) && multiset(out) == all && Contents(out) == goal
    ensures (list == first0 || list == second0) && list.prev == old(list.prev)
  {
    hide CaseCmp, Contents, Merge, MergeGoal, Distinct, Chained, BackChained;
    var ptr, first, second;
    ghost var done, a, b;
    list, ptr, first, second, done, a, b := MergeLoop(first0, second0, f, s, nodes, all, goal);
    GoalReached(done, a, b, all, goal);
    if first != null {
      list := AttachRest(list, ptr, first, done, a);
      out := done + a;
    } else {
      list := AttachRest(list, ptr, second, done, b);
      out := done + b;
    }
  }

  /** The `prev` of this node points at some other node of the list. */
  ghost predicate Stale(node: Item, spine: seq<Item>)
    reads node
  {
    node.prev != null && node.prev != node && node.prev in spine
  }

  /** Cut the list in the middle, through the `prev` of the node found there. */
  method Halve(list: Item, ghost spine: seq<Item>) returns (second: Item)
    requires IsList(list, spine) && |spine| >= 2
    modifies spine`next
    ensures var h := (|spine| + 1) / 2; IsList(list, spine[..h]) && IsList(second, spine[h..])
    ensures Stale(second, spine) && Distinct(spine)
  {
    second := Middle(list, spine);
    if second.prev != null {
      second.prev.next := null;
    }
  }

  lemma InPermutation(a: seq<Item>, b: seq<Item>, i: nat)
    requires multiset(a) == multiset(b) && i < |a|
    ensures a[i] in b
  {
    assert a[i] in multiset(a);
  }

  lemma PermutedHalves(spine: seq<Item>, h: nat, f: seq<Item>, s: seq<Item>, nodes: set<Item>)
    requires Distinct(spine) && h <= |spine| && AllIn(spine, nodes)
    requires multiset(f) == multiset(spine[..h]) && multiset(s) == multiset(spine[h..])
    ensures Apart(f, s) && AllIn(f, nodes) && AllIn(s, nodes)
    ensures multiset(f) + multiset(s) == multiset(spine)
  {
    assert spine == spine[..h] + spine[h..];
    forall i | 0 <= i < |f|
      ensures f[i] in spine[..h]
    {
      InPermutation(f, spine[..h], i);
    }
    forall i | 0 <= i < |s|
      ensures s[i] in spine[h..]
    {
      InPermutation(s, spine[h..], i);
    }
  }

  lemma PermutedKeys(a: seq<Item>, b: seq<Item>)
    requires multiset(a) == multiset(b) && CKeys(b)
    ensures CKeys(a)
  {
    forall i | 0 <= i < |a|
      ensures NulFree(a[i].key)
    {
      InPermutation(a, b, i);
    }
  }

  lemma ContentsSplit(spine: seq<Item>, h: nat)
    requires h <= |spine|
    ensures Contents(spine[..h]) == Contents(spine)[..h] && Contents(spine[h..]) == Contents(spine)[h..]
  {
    hide Contents;
  }

  lemma ApartFromRest(spine: seq<Item>, h: nat, f: seq<Item>)
    requires Distinct(spine) && h <= |spine| && multiset(f) == multiset(spine[..h])
    ensures forall i :: 0 <= i < |f| ==> f[i] !in spine[h..]
  {
    forall i | 0 <= i < |f|
      ensures f[i] !in spine[h..]
    {
      InPermutation(f, spine[..h], i);
    }
  }

  lemma NotHead(spine: seq<Item>, h: nat, s: seq<Item>)
    requires Distinct(spine) && 0 < h < |spine| && multiset(s) == multiset(spine[h..])
    ensures s != [] && s[0] != spine[0]
  {
    assert |multiset(s)| == |multiset(spine[h..])|;
    InPermutation(s, spine[h..], 0);
  }

  /** Two sorted halves are ready to be merged. */
  lemma HalvesReady(first: Item?, second: Item?, spine: seq<Item>, h: nat, f: seq<Item>, s: seq<Item>,
                    mf: seq<Member>, ms: seq<Member>)
    requires 0 < h < |spine| && Distinct(spine) && CKeys(spine)
    requires IsList(first, f) && IsList(second, s)
    requires multiset(f) == multiset(spine[..h]) && multiset(s) == multiset(spine[h..])
    requires Contents(f) == mf && Contents(s) == ms
    ensures Busy(null, null, first, second, [], f, s, set x | x in spine, multiset(spine), Merge(mf, ms))
  {
    hide CaseCmp, Merge, Contents, MergeGoal;
    PermutedHalves(spine, h, f, s, set x | x in spine);
    PermutedKeys(f, spine[..h]);
    PermutedKeys(s, spine[h..]);
    GoalStart(f, s);
  }

  /** The two recursive calls: sorting one half does not disturb the other. */
  method SortHalves(list: Item, middle: Item, ghost spine: seq<Item>, ghost h: nat, ghost ms: seq<Member>)
    returns (first: Item?, second: Item?, ghost f: seq<Item>, ghost s: seq<Item>)
    requires 0 < h < |spine| && Distinct(spine) && CKeys(spine) && Contents(spine) == ms
    requires IsList(list, spine[..h]) && IsList(middle, spine[h..]) && Stale(middle, spine)
    modifies spine`next, spine`prev
    ensures IsList(first, f) && IsList(second, s)
    ensures multiset(f) == multiset(spine[..h]) && multiset(s) == multiset(spine[h..])
    ensures Contents(f) == Sorted(ms[..h]) && Contents(s) == Sorted(ms[h..])
    ensures first != null && if first == list then first.prev == old(list.prev) else Stale(first, spine)
    ensures second != null && second != list && Stale(second, spine)
    decreases |spine|, 0
  {
    hide CaseCmp, Merge, Contents, Sorted;
    ContentsSplit(spine, h);
    first, f := SortList(list, spine[..h], ms[..h]);
    ApartFromRest(spine, h, f);
    second, s := SortList(middle, spine[h..], ms[h..]);
    NotHead(spine, h, s);
  }

  lemma SortedUnfold(ms: seq<Member>)
    ensures |ms| < 2 ==> StrictlyAscending(ms)
    ensures StrictlyAscending(ms) ==> Sorted(ms) == ms
    ensures !StrictlyAscending(ms) ==>
      var h := (|ms| + 1) / 2; Sorted(ms) == Merge(Sorted(ms[..h]), Sorted(ms[h..]))
  {
  }

  /** Halve, sort the halves, merge. */
  method SortUnsorted(list: Item, ghost spine: seq<Item>, ghost ms: seq<Member>)
    returns (head: Item?, ghost out: seq<Item>)
    requires IsList(list, spine) && CKeys(spine) && Contents(spine) == ms && |spine| >= 2
    modifies spine`next, spine`prev
    ensures IsList(head, out) && multiset(out) == multiset(spine)
    ensures var h := (|ms| + 1) / 2; Contents(out) == Merge(Sorted(ms[..h]), Sorted(ms[h..]))
    ensures head != null && if head == list then head.prev == old(list.prev) else Stale(head, spine)
    decreases |spine|, 1
  {
    hide CaseCmp, Merge, Contents, Busy, Sorted, IsList, Distinct, CKeys;
    ghost var h := (|spine| + 1) / 2;
    ghost var nodes, mf, mb := (set x | x in spine), ms[..h], ms[h..];
    var middle := Halve(list, spine);
    ghost var f, s;
    var first, second;
    first, second, f, s := SortHalves(list, middle, spine, h, ms);
    HalvesReady(first, second, spine, h, f, s, Sorted(mf), Sorted(mb));
    head, out := MergeLists(first, second, f, s, nodes, multiset(spine), Merge(Sorted(mf), Sorted(mb)));
  }

  /** `cJSONUtils_SortList`; the `prev` of the new head is the old one if the head stayed, and stale otherwise. */
  method SortList(list: Item?, ghost spine: seq<Item>, ghost ms: seq<Member>)
    returns (head: Item?, ghost out: seq<Item>)
    requires IsList(list, spine) && CKeys(spine) && Contents(spine) == ms
    modifies spine`next, spine`prev
    ensures IsList(head, out) && multiset(out) == multiset(spine)
    ensures Contents(out) == Sorted(ms)
    ensures (list == null <==> head == null)
    ensures list != null ==> if head == list then head.prev == old(list.prev) else Stale(head, spine)
    decreases |spine|, 2
  {
    hide CaseCmp, Merge, Contents, Sorted;
    SortedUnfold(ms);
    if list == null || list.next == null {
      assert |spine| <= 1;
      return list, spine;
    }
    var already := AlreadySorted(list, spine);
    if already {
      return list, spine;
    }
    head, out := SortUnsorted(list, spine, ms);
  }

  // ---- the edits

  /** Link `item` in front of `c`, the node at index `i`, and say which node is now first. */
  method LinkBefore(head: Item, c: Item, item: Item, ghost spine: seq<Item>, ghost i: nat) returns (head': Item)
    requires IsList(head, spine) && i < |spine| && c == spine[i] && item !in spine
    modifies item`next, item`prev, c`prev, (if i > 0 then {spine[i - 1]} else {})`next
    ensures IsList(head', InsertAt(spine, i, item)) && head'.prev == old(head.prev)
  {
    hide Distinct;
    ghost var r := InsertAt(spine, i, item);
    InsertedDistinct(spine, i, item);
    NodesApart(spine, i);
    assert if i == 0 then c == head else c.prev == spine[i - 1] && c != head;
    item.next := c;
    item.prev := c.prev;
    c.prev := item;
    if c == head {
      head' := item;
    } else {
      item.prev.next := item;
      head' := head;
    }
    Spliced(spine, i, item);
  }

  /** The links of a list with one node put in. */
  lemma Spliced(spine: seq<Item>, i: nat, item: Item)
    requires i < |spine| && item.next == spine[i] && spine[i].prev == item && (i > 0 ==> item.prev == spine[i - 1])
    requires forall k {:trigger spine[k].next} :: 0 <= k < |spine| - 1 ==>
      spine[k].next == if k == i - 1 then item else spine[k + 1]
    requires spine[|spine| - 1].next == null
    requires forall k {:trigger spine[k].prev} :: 1 <= k < |spine| && k != i ==> spine[k].prev == spine[k - 1]
    ensures Chained(InsertAt(spine, i, item)) && BackChained(InsertAt(spine, i, item))
  {
    var r := InsertAt(spine, i, item);
    assert forall k :: 0 <= k < i ==> r[k] == spine[k];
    assert r[i] == item;
    assert forall k :: i < k < |r| ==> r[k] == spine[k - 1];
  }

  /** The link names a node behind the head. */
  ghost predicate NamesLater(p: Item?, spine: seq<Item>) {
    spine != [] && p in spine[1..]
  }

  ghost function Named(p: Item?): (nodes: set<Item>) {
    if p == null then {} else {p}
  }

  /**
   * The node whose `next` an unlinking at index `i` writes: the neighbour, or whatever the head's `prev` still names.
   */
  ghost function Before(spine: seq<Item>, i: nat): (nodes: set<Item>)
    requires i < |spine|
    reads spine
  {
    if i > 0 then {spine[i - 1]} else Named(spine[0].prev)
  }

  ghost function After(spine: seq<Item>, i: nat): (nodes: set<Item>)
    requires i < |spine|
  {
    if i < |spine| - 1 then {spine[i + 1]} else {}
  }

  /**
   * Unlink `c`, the node at index `i`, from both its neighbours. What is left is a list again exactly if `c` was not
   * the head, or the head's `prev` named no node behind it; otherwise that node is linked back to the new head.
   */
  method Unlink(head: Item, c: Item, ghost spine: seq<Item>, ghost i: nat) returns (head': Item?)
    requires IsList(head, spine) && i < |spine| && c == spine[i]
    modifies c`next, c`prev, Before(spine, i)`next, After(spine, i)`prev
    ensures IsList(head', RemoveAt(spine, i)) <==> i > 0 || !NamesLater(old(head.prev), spine)
    ensures head' == (if i > 0 then head else if |spine| > 1 then spine[1] else null)
    ensures head' != null ==> head'.prev == old(head.prev)
    ensures c.next == null && c.prev == null
    ensures i == 0 && old(head.prev) != null && old(head.prev) != head ==> old(head.prev).next == head'
  {
    hide Distinct;
    ghost var r, p := RemoveAt(spine, i), head.prev;
    StillDistinct(spine, i);
    NodesApart(spine, i);
    assert if i == 0 then c == head else c.prev == spine[i - 1] && c != head;
    assert if i == |spine| - 1 then c.next == null else c.next == spine[i + 1];
    if c.prev != null {
      c.prev.next := c.next;
    }
    if c.next != null {
      c.next.prev := c.prev;
    }
    head' := if c == head then c.next else head;
    c.prev, c.next := null, null;
    if i == 0 && p in spine[1..] {
      ghost var j :| 0 <= j < |spine| - 1 && spine[1..][j] == p;
      assert r[j] == p && p.next == r[0];
      assert !Chained(r);
    }
  }

  /** Put `item` in the place of `c`, the node at index `i`; it takes over both links, the head's `prev` included. */
  method Relink(head: Item, c: Item, item: Item, ghost spine: seq<Item>, ghost i: nat) returns (head': Item)
    requires IsList(head, spine) && i < |spine| && c == spine[i] && item !in spine
    modifies item`next, item`prev, c`next, c`prev, (if i > 0 then {spine[i - 1]} else {})`next, After(spine, i)`prev
    ensures IsList(head', spine[i := item]) && c.next == null && c.prev == null
    ensures head'.prev == old(head.prev)
  {
    NodesApart(spine, i);
    assert if i == 0 then c == head else c.prev == spine[i - 1] && c != head;
    assert if i == |spine| - 1 then c.next == null else c.next == spine[i + 1];
    item.next, item.prev := c.next, c.prev;
    if item.next != null {
      item.next.prev := item;
    }
    if c == head {
      head' := item;
    } else {
      item.prev.next := item;
      head' := head;
    }
    c.next, c.prev := null, null;
  }

  lemma InsertedDistinct(spine: seq<Item>, i: nat, item: Item)
    requires Distinct(spine) && i <= |spine| && item !in spine
    ensures var r := InsertAt(spine, i, item);
      && Distinct(r) && |r| == |spine| + 1 && r[i] == item
      && forall k {:trigger r[k]} :: 0 <= k < |r| && k != i ==> r[k] == spine[if k < i then k else k - 1]
  {
  }

  lemma StillDistinct(spine: seq<Item>, i: nat)
    requires Distinct(spine) && i < |spine|
    ensures Distinct(RemoveAt(spine, i)) && |RemoveAt(spine, i)| == |spine| - 1
    ensures forall k :: 0 <= k < |spine| - 1 ==> RemoveAt(spine, i)[k] == spine[if k < i then k else k + 1]
  {
  }

  lemma NodesApart(spine: seq<Item>, i: nat)
    requires Distinct(spine) && i < |spine|
    ensures forall k :: 0 <= k < |spine| && k != i ==> spine[k] != spine[i]
    ensures i > 0 ==> forall k :: 0 <= k < |spine| && k != i - 1 ==> spine[k] != spine[i - 1]
    ensures i + 1 < |spine| ==> forall k :: 0 <= k < |spine| && k != i + 1 ==> spine[k] != spine[i + 1]
  {
  }

  /** Append behind the last node. */
  method LinkLast(head: Item, item: Item, ghost spine: seq<Item>)
    requires IsList(head, spine) && item !in spine && item.next == null
    modifies item`prev, {spine[|spine| - 1]}`next
    ensures IsList(head, spine + [item])
  {
    var c, k := head, 0;
    while c.next != null
      invariant 0 <= k < |spine| && c == spine[k]
      decreases |spine| - k
    {
      c, k := c.next, k + 1;
    }
    c.next := item;
    item.prev := c;
  }

  /** A container and its children. */
  class Container {
    var child: Item?
    ghost var spine: seq<Item>

    ghost predicate Valid()
      reads this, spine
    {
      IsList(child, spine)
    }

    /** What the head's `prev` names: nothing in every tree that a parse or a duplicate built. */
    ghost function HeadPrev(): (p: Item?)
      reads this, child
    {
      if child == null then null else child.prev
    }

    constructor ()
      ensures Valid() && HeadPrev() == null && spine == []
    {
      child := null;
      spine := [];
    }

    /** Walk to the node at index `which`, or off the end. */
    method GetArrayItem(which: nat) returns (c: Item?)
      requires Valid()
      ensures c == if which < |spine| then spine[which] else null
    {
      c := child;
      var n := which;
      ghost var k := 0;
      while c != null && n > 0
        invariant 0 <= n && k == which - n
        invariant if k < |spine| then c == spine[k] else c == null
        decreases n
      {
        c, n, k := c.next, n - 1, k + 1;
      }
    }

    /** Append at the end of the list. */
    method AddItemToArray(item: Item)
      requires Valid() && item !in spine && item.next == null
      modifies this, item`prev, spine`next
      ensures Valid() && spine == old(spine) + [item]
      ensures HeadPrev() == if old(spine) == [] then old(item.prev) else old(HeadPrev())
    {
      if child == null {
        child := item;
      } else {
        LinkLast(child, item, spine);
      }
      spine := spine + [item];
    }

    /** Put `item` before index `which`; a negative index means the front, one past the end means append. */
    method InsertItemInArray(which: int, item: Item)
      requires Valid() && item !in spine && item.next == null
      modifies this, item`prev, item`next, spine`next, spine`prev
      ensures Valid()
      ensures var i := if which < 0 then 0 else if which < |old(spine)| then which else |old(spine)|;
        spine == InsertAt(old(spine), i, item)
      ensures HeadPrev() == if old(spine) == [] then old(item.prev) else old(HeadPrev())
    {
      var n := if which < 0 then 0 else which;
      var c := GetArrayItem(n);
      if c == null {
        AddItemToArray(item);
        assert spine == InsertAt(old(spine), |old(spine)|, item);
      } else {
        child := LinkBefore(child, c, item, spine, n);
        spine := InsertAt(spine, n, item);
      }
    }

    /**
     * Unlink the node at index `which`. The rest is a list again exactly if the node was not the head, or the head's
     * `prev` named none of the others.
     */
    method DetachItemFromArray(which: nat) returns (c: Item?)
      requires Valid()
      modifies this, spine`next, spine`prev, Named(HeadPrev())`next
      ensures Valid() <==> which > 0 || !NamesLater(old(HeadPrev()), old(spine))
      ensures which < |old(spine)| ==>
        c == old(spine)[which] && spine == RemoveAt(old(spine), which) && c.next == null && c.prev == null
      ensures which >= |old(spine)| ==> c == null && spine == old(spine)
      ensures child != null ==> HeadPrev() == old(HeadPrev())
    {
      c := GetArrayItem(which);
      if c != null {
        child := Unlink(child, c, spine, which);
        spine := RemoveAt(spine, which);
      }
    }

    /** Put `item` in the place of the node at index `which`; past the end nothing happens. */
    method ReplaceItemInArray(which: nat, item: Item)
      requires Valid() && item !in spine
      modifies this, item`next, item`prev, spine`next, spine`prev
      ensures Valid() && HeadPrev() == old(HeadPrev())
      ensures spine == if which < |old(spine)| then old(spine)[which := item] else old(spine)
    {
      var c := GetArrayItem(which);
      if c == null {
        return;
      }
      child := Relink(child, c, item, spine, which);
      spine := spine[which := item];
    }

    /** `cJSONUtils_SortObject`: sorted by folded key; a new head keeps the `prev` it had as an inner node. */
    method SortObject()
      requires Valid() && CKeys(spine)
      modifies this, spine`next, spine`prev
      ensures Valid() && multiset(spine) == multiset(old(spine))
      ensures Contents(spine) == Sorted(old(Contents(spine)))
      ensures if child == old(child) then HeadPrev() == old(HeadPrev()) else Stale(child, spine)
    {
      hide Contents, Sorted, IsList;
      ghost var nodes, ms := spine, Contents(spine);
      child, spine := SortList(child, nodes, ms);
      if child != old(child) {
        SameMembers(nodes, spine, child.prev);
      }
    }

    /** The search loop of `cJSON_DetachItemFromObject`. */
    method IndexOfKey(key: string) returns (p: Item?, i: nat)
      requires Valid() && CKeys(spine) && NulFree(key)
      ensures i == FindKey(Contents(spine), key) <= |spine|
      ensures p == if i < |spine| then spine[i] else null
    {
      hide Contents;
      p, i := child, 0;
      while p != null
        invariant 0 <= i <= |spine| && p == (if i < |spine| then spine[i] else null)
        invariant forall j :: 0 <= j < i ==> Fold(spine[j].key) != Fold(key)
        decreases |spine| - i
      {
        var diff := StrCaseCmp(p.key, key);
        CaseCmpZero(p.key, key);
        if diff == 0 {
          break;
        }
        p, i := p.next, i + 1;
      }
    }

    /** `cJSON_DetachItemFromObject`: find the first child with the key, then detach at its index. */
    method DetachItemFromObject(key: string) returns (c: Item?)
      requires Valid() && CKeys(spine) && NulFree(key)
      modifies this, spine`next, spine`prev, Named(HeadPrev())`next
      ensures var i := FindKey(old(Contents(spine)), key);
        && (Valid() <==> i > 0 || !NamesLater(old(HeadPrev()), old(spine)))
        && (if i < |old(spine)| then c == old(spine)[i] && spine == RemoveAt(old(spine), i)
            else c == null && spine == old(spine))
      ensures child != null ==> HeadPrev() == old(HeadPrev())
    {
      hide Contents, FindKey;
      var p, i := IndexOfKey(key);
      if p != null {
        c := DetachItemFromArray(i);
      } else {
        c := null;
      }
    }
  }

  lemma SameMembers(a: seq<Item>, b: seq<Item>, x: Item)
    requires multiset(a) == multiset(b) && x in a
    ensures x in b
  {
    assert x in multiset(b);
  }

  lemma SortedPair(x: Member, y: Member)
    requires CaseCmp(x.key, y.key) > 0
    ensures Sorted([x, y]) == [y, x]
  {
    hide CaseCmp, Sorted, Merge;
    var ms := [x, y];
    assert !StrictlyAscending(ms) by { assert ms[0] == x && ms[1] == y; }
    assert ms[..1] == [x] && ms[1..] == [y];
    SortedUnfold(ms);
    SortedUnfold([x]);
    SortedUnfold([y]);
    MergePair(x, y);
  }

  lemma MergePair(x: Member, y: Member)
    requires CaseCmp(x.key, y.key) > 0
    ensures Merge([x], [y]) == [y, x]
  {
    hide CaseCmp;
    assert [y][1..] == [];
    assert Merge([x], []) == [x];
  }

  lemma OtherOfTwo(a: Item, b: Item, out: seq<Item>)
    requires multiset(out) == multiset([b, a]) && |out| == 2 && out[0] == a
    ensures out == [a, b]
  {
    assert out == [out[0]] + [out[1]];
    assert out[1] in multiset{b} by {
      assert multiset(out) == multiset{a} + multiset{out[1]};
      assert multiset([b, a]) == multiset{a} + multiset{b};
    }
  }

  /** Two members out of order come back swapped, and the new head's `prev` is the old head. */
  method SortTwo(a: Item, b: Item) returns (child: Item)
    requires a != b && a.next == null && b.next == a && a.prev == b && b.prev == null
    requires NulFree(a.key) && NulFree(b.key) && CaseCmp(b.key, a.key) > 0
    modifies a, b
    ensures child == a && a.next == b && b.next == null && b.prev == a && a.prev == b
  {
    hide CaseCmp, Contents, Sorted;
    ghost var spine, x, y := [b, a], Member(b.key, b.value), Member(a.key, a.value);
    assert IsList(b, spine);
    assert Contents(spine) == [x, y];
    SortedPair(x, y);
    CaseCmpZero(a.key, a.key);
    ghost var out;
    var head;
    head, out := SortList(b, spine, [x, y]);
    assert |out| == 2 by { assert |multiset(out)| == |multiset(spine)|; }
    assert Contents(out)[0] == y;
    InPermutation(out, spine, 0);
    OtherOfTwo(a, b, out);
    child := head;
  }

  /**
   * The smallest case: two members that were out of order, sorted, and the new head detached. The other is tied to
   * itself.
   */
  method SortThenDetach(a: Item, b: Item) returns (child: Item?, d: Item)
    requires a != b && a.next == null && b.next == a && a.prev == b && b.prev == null
    requires NulFree(a.key) && NulFree(b.key) && CaseCmp(b.key, a.key) > 0
    modifies a, b
    ensures d == a && child == b && b.next == b && b.prev == b
  {
    d := SortTwo(a, b);
    assert IsList(a, [a, b]);
    child := Unlink(d, d, [a, b], 0);
  }
}
