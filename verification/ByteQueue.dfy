/** What the byte buffer does, on values: the stored bytes, how many of them were read, and the limits. */
module ByteQueue {
  import opened CStrings

  type byte = bv8

  datatype Kind = Fixed | Dynamic | Partition

  datatype Cells = Queue(stored: seq<byte>, head: nat, capacity: nat, maxLen: nat, blockSize: nat, loops: int,
    kind: Kind)

  /** The head stays inside the stored bytes and those inside the capacity. */
  type Queue = q: Cells | q.head <= |q.stored| <= q.capacity witness Queue([], 0, 0, 0, 0, 0, Fixed)

  /** The unread bytes: the byte queue every operation works on. */
  function Contents(q: Queue): (r: seq<byte>) {
    q.stored[q.head..]
  }

  // ---- operations

  /** `switch_buffer_toss`. */
  function Toss(q: Queue, n: nat): (r: Queue) {
    q.(head := q.head + Min(n, |q.stored| - q.head))
  }

  /** `switch_buffer_peek`; `switch_buffer_read` is this and `Toss`. */
  function Peek(q: Queue, n: nat): (r: seq<byte>) {
    q.stored[q.head..q.head + Min(n, |q.stored| - q.head)]
  }

  function Zero(q: Queue): (r: Queue) {
    q.(stored := [], head := 0)
  }

  /** Moving the unread bytes to the front when the new ones do not fit behind the stored ones. */
  function Compact(q: Queue, n: nat): (r: Queue) {
    if q.capacity - |q.stored| < n then q.(stored := Contents(q), head := 0) else q
  }

  /** Growing by the larger of the block and the new bytes, if the limit allows them. */
  function Grow(q: Queue, n: nat): (r: Queue) {
    var used := |Contents(q)|;
    if q.kind.Dynamic? && q.capacity - used < n && (q.maxLen == 0 || used + n <= q.maxLen)
    then q.(capacity := q.capacity + Max(n, q.blockSize))
    else q
  }

  /** `switch_buffer_write`: the new state and the returned count. */
  function Write(q: Queue, bytes: seq<byte>): (r: (Queue, nat)) {
    if q.kind.Partition? then (q, 0)
    else if bytes == [] then (q, |Contents(q)|)
    else
      var g := Grow(Compact(q, |bytes|), |bytes|);
      if g.capacity - |Contents(g)| < |bytes| then (g, 0)
      else (g.(stored := g.stored + bytes), |Contents(g)| + |bytes|)
  }

  /** `switch_buffer_zwrite`. */
  function ZWrite(q: Queue, bytes: seq<byte>): (r: (Queue, nat)) {
    var w := Write(q, bytes);
    if q.kind.Partition? || w.1 != 0 then w else Write(Zero(w.0), bytes)
  }

  /** `switch_buffer_slide_write`. */
  function SlideWrite(q: Queue, bytes: seq<byte>): (r: (Queue, nat)) {
    var w := Write(q, bytes);
    if q.kind.Partition? || w.1 != 0 then w else Write(Toss(w.0, |bytes|), bytes)
  }

  /** `switch_buffer_read_loop`. */
  function ReadLoop(q: Queue, n: nat): (r: (Queue, seq<byte>)) {
    if Peek(q, n) != [] then (Toss(q, n), Peek(q, n))
    else
      var loops := if q.loops > 0 then q.loops - 1 else q.loops;
      if loops == 0 then (q.(loops := 0), [])
      else
        var again := q.(loops := loops, head := 0);
        (Toss(again, n), Peek(again, n))
  }

  /** `switch_buffer_freespace`, in `size_t` arithmetic. */
  function Freespace(q: Queue): (n: int) {
    if q.kind.Dynamic? then
      if q.maxLen != 0 then (q.maxLen - |Contents(q)|) % SIZE_MODULUS else 1000000
    else q.capacity - |Contents(q)|
  }

  // ---- every operation as one on the byte queue

  /** When the bytes fit without dropping any: in the capacity, or below the limit of a buffer that can grow. */
  predicate Accepts(q: Queue, n: nat) {
    var used := |Contents(q)|;
    used + n <= q.capacity || (q.kind.Dynamic? && (q.maxLen == 0 || used + n <= q.maxLen))
  }

  /** When they fit into the emptied buffer. */
  predicate Fits(q: Queue, n: nat) {
    n <= q.capacity || (q.kind.Dynamic? && (q.maxLen == 0 || n <= q.maxLen))
  }

  /** A write appends everything or leaves the contents alone, and answers which; a partition takes nothing. */
  lemma WriteAllOrNothing(q: Queue, bytes: seq<byte>)
    ensures var r, fits := Write(q, bytes), !q.kind.Partition? && Accepts(q, |bytes|);
      && Contents(r.0) == Contents(q) + (if fits then bytes else [])
      && r.1 == (if fits then |Contents(r.0)| else 0)
  {
    var c := Compact(q, |bytes|);
    var g := Grow(c, |bytes|);
    assert Contents(c) == Contents(q) && Contents(g) == Contents(c);
    if g.capacity - |Contents(g)| >= |bytes| {
      assert (g.stored + bytes)[g.head..] == g.stored[g.head..] + bytes;
    }
    assert Contents(q) + [] == Contents(q);
  }

  /**
   * A write moves the bytes already read out of the way if and only if the new ones have no room behind the stored
   * ones; until then they are there to be replayed.
   */
  lemma WriteCompacts(q: Queue, bytes: seq<byte>)
    requires !q.kind.Partition? && bytes != []
    ensures var r, added := Write(q, bytes), if Accepts(q, |bytes|) then bytes else [];
      if |q.stored| + |bytes| <= q.capacity then r.0.head == q.head && r.0.stored == q.stored + added
      else r.0.head == 0 && r.0.stored == Contents(q) + added
  {
    assert q.stored + [] == q.stored && Contents(q) + [] == Contents(q);
  }

  /** Growth happens only after the unread bytes were moved to the front, so none is lost and none is left behind. */
  lemma CompactBeforeGrow(q: Queue, n: nat)
    requires Grow(Compact(q, n), n).capacity != q.capacity
    ensures var g := Grow(Compact(q, n), n);
      g.head == 0 && g.stored == Contents(q) && |g.stored| + n <= g.capacity
  {
  }

  /** The last resort empties the buffer first. */
  lemma ZWriteMeaning(q: Queue, bytes: seq<byte>)
    ensures q.kind.Partition? ==> ZWrite(q, bytes) == (q, 0)
    ensures var r := ZWrite(q, bytes);
      !q.kind.Partition? ==>
        && r.1 == (if Fits(q, |bytes|) || Accepts(q, |bytes|) then |Contents(r.0)| else 0)
        && Contents(r.0) ==
           if Accepts(q, |bytes|) then Contents(q) + bytes else if Fits(q, |bytes|) then bytes else []
  {
    hide Write;
    WriteAllOrNothing(q, bytes);
    var w := Write(q, bytes).0;
    WriteKeeps(q, bytes);
    WriteAllOrNothing(Zero(w), bytes);
    assert [] + bytes == bytes;
    WritePartition(q, bytes);
  }

  lemma WritePartition(q: Queue, bytes: seq<byte>)
    ensures q.kind.Partition? ==> Write(q, bytes) == (q, 0)
  {
  }

  /**
   * A sliding write drops the oldest bytes only, as many as it brings; it succeeds exactly when the block fits alone.
   */
  lemma SlideWriteMeaning(q: Queue, bytes: seq<byte>)
    ensures q.kind.Partition? ==> SlideWrite(q, bytes) == (q, 0)
    ensures var r := SlideWrite(q, bytes);
      !q.kind.Partition? ==>
        && r.1 == (if Fits(q, |bytes|) then |Contents(r.0)| else 0)
        && Contents(r.0) ==
           (if Accepts(q, |bytes|) then Contents(q) else Contents(q)[Min(|bytes|, |Contents(q)|)..]) +
           (if Fits(q, |bytes|) then bytes else [])
  {
    hide Write, Toss, Contents;
    WriteAllOrNothing(q, bytes);
    var w := Write(q, bytes).0;
    WriteKeeps(q, bytes);
    WritePartition(q, bytes);
    TossKeeps(q, |bytes|);
    TossKeeps(w, |bytes|);
    assert Contents(q) + [] == Contents(q) && Contents(w)[0..] == Contents(w);
    TossContents(w, |bytes|);
    WriteAllOrNothing(Toss(w, |bytes|), bytes);
  }

  lemma TossKeeps(q: Queue, n: nat)
    ensures var r := Toss(q, n); r.kind == q.kind && r.maxLen == q.maxLen && r.capacity == q.capacity
    ensures |Contents(q)| <= q.capacity
  {
  }

  /** Tossing drops the oldest bytes, as many as asked for and there are. */
  lemma TossContents(q: Queue, n: nat)
    ensures Contents(Toss(q, n)) == Contents(q)[Min(n, |Contents(q)|)..]
    ensures Peek(q, n) + Contents(Toss(q, n)) == Contents(q)
  {
  }

  /** A write changes no limit, and the capacity only when it succeeds. */
  lemma WriteKeeps(q: Queue, bytes: seq<byte>)
    ensures var r := Write(q, bytes).0;
      && r.kind == q.kind && r.maxLen == q.maxLen && r.blockSize == q.blockSize && r.loops == q.loops
      && q.capacity <= r.capacity
      && (r.capacity != q.capacity ==> q.kind.Dynamic? && Write(q, bytes).1 != 0)
  {
  }

  // ---- whole runs

  datatype Op =
    | OpWrite(bytes: seq<byte>)
    | OpZWrite(bytes: seq<byte>)
    | OpSlideWrite(bytes: seq<byte>)
    | OpToss(n: nat)
    | OpRead(n: nat)
    | OpReadLoop(n: nat)
    | OpZero
    | OpSetLoops(count: int)
    | OpSetPartition(bytes: seq<byte>)

  /** `switch_buffer_set_partition_data`; a reset is the same with the bytes the block already holds. */
  function SetPartition(q: Queue, bytes: seq<byte>): (r: Queue) {
    if q.kind.Partition? then q.(stored := bytes, head := 0, capacity := |bytes|) else q
  }

  function Apply(q: Queue, op: Op): (r: Queue) {
    match op
    case OpWrite(bytes) => Write(q, bytes).0
    case OpZWrite(bytes) => ZWrite(q, bytes).0
    case OpSlideWrite(bytes) => SlideWrite(q, bytes).0
    case OpToss(n) => Toss(q, n)
    case OpRead(n) => Toss(q, n)
    case OpReadLoop(n) => ReadLoop(q, n).0
    case OpZero => Zero(q)
    case OpSetLoops(count) => q.(loops := count)
    case OpSetPartition(bytes) => SetPartition(q, bytes)
  }

  function Run(q: Queue, ops: seq<Op>): (r: Queue)
    decreases |ops|
  {
    if ops == [] then q else Run(Apply(q, ops[0]), ops[1..])
  }

  function CapacityBound(start: nat, maxLen: nat, blockSize: nat): (n: nat)
    requires maxLen > 0
  {
    Max(start, maxLen - 1 + Max(maxLen, blockSize))
  }

  predicate Bounded(q: Queue, start: nat) {
    q.kind.Dynamic? && q.maxLen > 0 && start <= q.capacity <= CapacityBound(start, q.maxLen, q.blockSize)
  }

  predicate SameLimits(q: Queue, r: Queue) {
    q.kind == r.kind && q.maxLen == r.maxLen && q.blockSize == r.blockSize
  }

  lemma WriteBounded(q: Queue, bytes: seq<byte>, start: nat)
    requires Bounded(q, start)
    ensures Bounded(Write(q, bytes).0, start) && SameLimits(q, Write(q, bytes).0)
  {
  }

  lemma ApplyBounded(q: Queue, op: Op, start: nat)
    requires Bounded(q, start)
    ensures Bounded(Apply(q, op), start) && SameLimits(q, Apply(q, op))
  {
    hide Write;
    match op
    case OpWrite(bytes) => WriteBounded(q, bytes, start);
    case OpZWrite(bytes) =>
      WriteBounded(q, bytes, start);
      WriteBounded(Zero(Write(q, bytes).0), bytes, start);
    case OpSlideWrite(bytes) =>
      WriteBounded(q, bytes, start);
      WriteBounded(Toss(Write(q, bytes).0, |bytes|), bytes, start);
    case _ =>
  }

  /** No run makes a growing buffer with a limit larger than the bound. */
  lemma {:induction false} RunBounded(q: Queue, ops: seq<Op>, start: nat)
    requires Bounded(q, start)
    ensures Bounded(Run(q, ops), start) && SameLimits(q, Run(q, ops))
    decreases |ops|
  {
    hide Apply, Bounded;
    if ops != [] {
      ApplyBounded(q, ops[0], start);
      RunBounded(Apply(q, ops[0]), ops[1..], start);
    }
  }

  function NewDynamic(blockSize: nat, start: nat, maxLen: nat): (q: Queue) {
    Queue([], 0, start, maxLen, blockSize, 0, Dynamic)
  }

  /** From creation on: the capacity is at least what it started with and never above the bound. */
  lemma CapacityOfRuns(blockSize: nat, start: nat, maxLen: nat, ops: seq<Op>)
    requires maxLen > 0
    ensures start <= Run(NewDynamic(blockSize, start, maxLen), ops).capacity <= CapacityBound(start, maxLen, blockSize)
  {
    RunBounded(NewDynamic(blockSize, start, maxLen), ops, start);
  }

  /** The bound is reached, whatever the limit and the block: one write of `maxLen` bytes into `maxLen - 1`. */
  lemma BoundReached(blockSize: nat, maxLen: nat, bytes: seq<byte>)
    requires maxLen > 1 && |bytes| == maxLen
    ensures Run(NewDynamic(blockSize, maxLen - 1, maxLen), [OpWrite(bytes)]).capacity ==
      CapacityBound(maxLen - 1, maxLen, blockSize)
  {
    var q := NewDynamic(blockSize, maxLen - 1, maxLen);
    assert Compact(q, maxLen) == q;
    assert Grow(q, maxLen).capacity == maxLen - 1 + Max(maxLen, blockSize);
  }

  /** The limit does not limit the contents: after growing by a block, writes fill the block. */
  lemma UsedPassesLimit(a: seq<byte>, b: seq<byte>)
    requires |a| == 4 && |b| == 5
    ensures var q := Run(NewDynamic(8, 1, 4), [OpWrite(a), OpWrite(b)]);
      Contents(q) == a + b && |Contents(q)| > q.maxLen && Freespace(q) == SIZE_MODULUS - 5
  {
    hide Write;
    var q := NewDynamic(8, 1, 4);
    FirstGrows(q, a);
    var w := Write(q, a).0;
    StillFits(w, b);
    assert [OpWrite(a), OpWrite(b)][1..] == [OpWrite(b)];
    assert Run(q, [OpWrite(a), OpWrite(b)]) == Run(w, [OpWrite(b)]);
  }

  lemma FirstGrows(q: Queue, a: seq<byte>)
    requires q == NewDynamic(8, 1, 4) && |a| == 4
    ensures Write(q, a).0 == Queue(a, 0, 9, 4, 8, 0, Dynamic)
  {
    assert [] + a == a;
  }

  lemma StillFits(w: Queue, b: seq<byte>)
    requires |w.stored| == 4 && w == Queue(w.stored, 0, 9, 4, 8, 0, Dynamic) && |b| == 5
    ensures Write(w, b).0 == Queue(w.stored + b, 0, 9, 4, 8, 0, Dynamic)
  {
  }

  /** A write that takes the contents past the limit needed no growth: the capacity was past it before. */
  lemma LimitPassed(q: Queue, bytes: seq<byte>)
    requires q.kind.Dynamic? && q.maxLen > 0 && bytes != [] && Accepts(q, |bytes|)
    ensures |Contents(q)| + |bytes| > q.maxLen ==> q.capacity > q.maxLen && Write(q, bytes).0.capacity == q.capacity
  {
  }

  /** The reported free space can always be written exactly as long as the contents are within the limit. */
  lemma FreespaceWritable(q: Queue)
    requires q.kind.Dynamic? && 0 < q.maxLen < SIZE_MODULUS && q.capacity < SIZE_MODULUS
    ensures (forall n: nat :: n <= Freespace(q) ==> Accepts(q, n)) <==> |Contents(q)| <= q.maxLen
  {
    if |Contents(q)| > q.maxLen {
      var n: nat := Freespace(q);
      assert n == SIZE_MODULUS + q.maxLen - |Contents(q)|;
      assert !Accepts(q, n);
    }
  }

  /** Of a buffer that cannot grow it is always exactly what can be written. */
  lemma FreespaceFixed(q: Queue, n: nat)
    requires q.kind.Fixed?
    ensures n <= Freespace(q) <==> Accepts(q, n)
  {
  }

  /** And it is all that can be written exactly as long as the capacity is within the limit too. */
  lemma FreespaceExact(q: Queue)
    requires q.kind.Dynamic? && 0 < q.maxLen < SIZE_MODULUS && q.capacity < SIZE_MODULUS
    ensures (forall n: nat :: n <= Freespace(q) <==> Accepts(q, n)) <==> q.capacity <= q.maxLen
  {
    if q.capacity > q.maxLen {
      FreespaceWritable(q);
      if |Contents(q)| <= q.maxLen {
        var n := q.capacity - |Contents(q)|;
        assert Accepts(q, n) && n > Freespace(q);
      } else {
        var n: nat := Freespace(q);
        assert !Accepts(q, n);
      }
    }
  }

  // ---- replay

  function Repeat(s: seq<byte>, n: nat): (r: seq<byte>) {
    if n == 0 then [] else s + Repeat(s, n - 1)
  }

  /** What is still to be delivered: the unread bytes and the remaining rounds over all stored ones. */
  function Remaining(q: Queue): (r: seq<byte>)
    requires q.loops >= 0
  {
    Contents(q) + Repeat(q.stored, if q.loops > 0 then q.loops - 1 else 0)
  }

  lemma {:induction false} RepeatEmpty(s: seq<byte>, n: nat)
    ensures Repeat(s, n) == [] <==> s == [] || n == 0
  {
    if n > 0 {
      RepeatEmpty(s, n - 1);
    }
  }

  /** One call takes its answer off the front of what remains, and answers nothing only if nothing remains. */
  lemma ReadLoopStep(q: Queue, n: nat)
    requires q.loops >= 0 && n > 0
    ensures var r := ReadLoop(q, n);
      && r.0.loops >= 0
      && r.1 + Remaining(r.0) == Remaining(q)
      && (r.1 == [] <==> Remaining(q) == [])
      && |r.1| <= n
  {
    hide Contents, Peek, Toss, Repeat;
    var rounds := if q.loops > 0 then q.loops - 1 else 0;
    RepeatEmpty(q.stored, rounds);
    PeekToss(q, n, Repeat(q.stored, rounds));
    if Contents(q) == [] && q.loops > 1 {
      var again := q.(loops := q.loops - 1, head := 0);
      RepeatUnfold(q.stored, rounds);
      Rewound(again);
      PeekToss(again, n, Repeat(q.stored, rounds - 1));
    } else {
      LoopsApart(q, 0);
    }
  }

  lemma LoopsApart(q: Queue, count: int)
    ensures Contents(q.(loops := count)) == Contents(q)
  {
  }

  lemma Rewound(q: Queue)
    requires q.head == 0
    ensures Contents(q) == q.stored
  {
  }

  lemma RepeatUnfold(s: seq<byte>, n: nat)
    requires n > 0
    ensures [] + Repeat(s, n) == s + Repeat(s, n - 1)
  {
  }

  /** Reading takes a prefix of the contents. */
  lemma PeekToss(q: Queue, n: nat, rest: seq<byte>)
    ensures Peek(q, n) + (Contents(Toss(q, n)) + rest) == Contents(q) + rest
    ensures Toss(q, n).loops == q.loops && Toss(q, n).stored == q.stored && |Peek(q, n)| <= n
    ensures n > 0 ==> (Peek(q, n) == [] <==> Contents(q) == [])
  {
  }

  /** The bytes a run of replaying reads delivers. */
  function Delivered(q: Queue, sizes: seq<nat>): (r: seq<byte>)
    decreases |sizes|
  {
    if sizes == [] then [] else ReadLoop(q, sizes[0]).1 + Delivered(ReadLoop(q, sizes[0]).0, sizes[1..])
  }

  /** Whatever the chunk sizes, the run delivers what remains in order, and all of it once there were enough calls. */
  lemma {:induction false} DeliveredInOrder(q: Queue, sizes: seq<nat>)
    requires q.loops >= 0 && (forall i :: 0 <= i < |sizes| ==> sizes[i] > 0)
    ensures Delivered(q, sizes) <= Remaining(q)
    ensures |sizes| >= |Remaining(q)| ==> Delivered(q, sizes) == Remaining(q)
    decreases |sizes|
  {
    hide ReadLoop, Remaining;
    if sizes != [] {
      ReadLoopStep(q, sizes[0]);
      var r := ReadLoop(q, sizes[0]);
      DeliveredInOrder(r.0, sizes[1..]);
    }
  }

  /** With `loops` set to `n` and nothing read yet, exactly `n` copies are delivered and nothing after them. */
  lemma ReplayExactly(q: Queue, n: nat, sizes: seq<nat>, later: nat)
    requires q.head == 0 && q.loops == n > 0 && later > 0
    requires (forall i :: 0 <= i < |sizes| ==> sizes[i] > 0) && |sizes| >= n * |q.stored|
    ensures Delivered(q, sizes) == Repeat(q.stored, n)
    ensures Delivered(q, sizes + [later]) == Repeat(q.stored, n)
  {
    assert Contents(q) == q.stored && Remaining(q) == Repeat(q.stored, n);
    RepeatLength(q.stored, n);
    DeliveredInOrder(q, sizes);
    DeliveredInOrder(q, sizes + [later]);
  }

  lemma {:induction false} RepeatLength(s: seq<byte>, n: nat)
    ensures |Repeat(s, n)| == n * |s|
  {
    if n > 0 {
      RepeatLength(s, n - 1);
      assert n * |s| == |s| + (n - 1) * |s|;
    }
  }

  /** A negative count replays for ever: every call delivers something. */
  lemma ReplayForever(q: Queue, n: nat)
    requires q.loops < 0 && q.stored != [] && n > 0
    ensures var r := ReadLoop(q, n);
      && r.1 != [] && r.0.loops < 0 && r.0.stored == q.stored
      && r.1 <= (if Contents(q) != [] then Contents(q) else q.stored)
  {
  }
}
