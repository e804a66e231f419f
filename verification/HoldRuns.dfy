/** Hold accounting and deferred flags over whole runs of a channel. */
module HoldRuns {
  import opened CStrings
  import opened ChannelModel
  import opened ChannelRuns

  // ---- the records

  /** Ended holds, newest first, none reaching into the next and none past `bound`. */
  predicate Closed(holds: seq<Hold>, bound: nat) {
    holds == [] || (0 < holds[0].on <= holds[0].off <= bound && Closed(holds[1..], holds[0].on))
  }

  /** Only the newest may still be open. */
  predicate Ordered(holds: seq<Hold>, open: bool, clock: nat) {
    if open then holds != [] && holds[0].off == 0 && 0 < holds[0].on <= clock && Closed(holds[1..], holds[0].on)
    else Closed(holds, clock)
  }

  /** Summed length of the ended holds. */
  function Total(holds: seq<Hold>): (n: int) {
    if holds == [] then 0
    else (if holds[0].off != 0 then holds[0].off - holds[0].on else 0) + Total(holds[1..])
  }

  lemma {:induction false} ClosedLater(holds: seq<Hold>, a: nat, b: nat)
    requires Closed(holds, a) && a <= b
    ensures Closed(holds, b)
  {
  }

  /** The recursive order spelled out: ended intervals inside the clock, disjoint, newest first. */
  lemma {:induction false} ClosedMeans(holds: seq<Hold>, bound: nat, i: nat, j: nat)
    requires Closed(holds, bound) && i <= j < |holds|
    ensures 0 < holds[j].on <= holds[j].off <= bound
    ensures i < j ==> holds[j].off <= holds[i].on
    decreases |holds|
  {
    if i > 0 {
      ClosedMeans(holds[1..], holds[0].on, i - 1, j - 1);
    } else if j > 0 {
      ClosedMeans(holds[1..], holds[0].on, 0, j - 1);
    }
  }

  // ---- one step

  /**
   * The books are right: records in order, the newest open exactly while a hold begun after answering lasts,
   * the accumulated time the sum of the ended records.
   */
  predicate Books(c: Chan, late: bool, clock: nat) {
    && Ordered(c.holds, late, clock)
    && c.holdAccum == Total(c.holds)
    && c.lastHold == (if c.holds == [] then 0 else c.holds[0].on)
    && (late ==> Set(c, LEG_HOLDING))
    && (c.holds != [] ==> Set(c, ANSWERED))
    && (Set(c, LEG_HOLDING) && !late ==> c.holds == [])
  }

  /**
   * What a caller must see to before a step: no answer is taken back once there is a record, the hold flag is not set
   * to zero where clearing it would write a record, and no deferred hold begins on an answered channel.
   */
  predicate KeepsBooks(c: Chan, late: bool, op: Op) {
    match op
    case OpSetFlag(f, v) =>
      v != 0 ||
      (if f == ANSWERED then c.holds == []
       else f == LEG_HOLDING ==> !late && (Set(c, LEG_HOLDING) || !Set(c, ANSWERED)))
    case OpClearFlag(f) => f == ANSWERED ==> c.holds == []
    case OpRun(_) => Raises(c, LEG_HOLDING) && !Set(c, LEG_HOLDING) ==> !Set(c, ANSWERED)
    case _ => true
  }

  /** Whether the hold that lasts after a step was begun after answering. */
  predicate LateAfter(c: Chan, late: bool, d: Chan) {
    Set(d, LEG_HOLDING) && if Set(c, LEG_HOLDING) then late else Set(c, ANSWERED)
  }

  /** Nothing about holding changes but perhaps that the channel is answered now. */
  predicate Neutral(c: Chan, d: Chan) {
    && c.holds == d.holds && c.lastHold == d.lastHold && c.holdAccum == d.holdAccum
    && Set(c, LEG_HOLDING) == Set(d, LEG_HOLDING) && (Set(c, ANSWERED) ==> Set(d, ANSWERED))
  }

  lemma NeutralKeeps(c: Chan, late: bool, clock: nat, d: Chan, now: nat)
    requires Books(c, late, clock) && Neutral(c, d) && clock <= now
    ensures Books(d, LateAfter(c, late, d), now)
  {
    hide Closed, Total;
    OrderedLater(c.holds, late, clock, now);
  }

  lemma OrderedLater(holds: seq<Hold>, open: bool, a: nat, b: nat)
    requires Ordered(holds, open, a) && a <= b
    ensures Ordered(holds, open, b)
  {
    hide Closed;
    if !open {
      ClosedLater(holds, a, b);
    }
  }

  /** Setting the hold flag. */
  lemma StartKeeps(c: Chan, late: bool, clock: nat, v: nat, now: nat)
    requires Books(c, late, clock) && clock <= now && 0 < now && v != 0
    ensures var d := SetFlag(c, LEG_HOLDING, v, now);
      Books(d, LateAfter(c, late, d), now)
  {
    hide Closed, Total;
    var d := SetFlag(c, LEG_HOLDING, v, now);
    if !Set(c, LEG_HOLDING) && Set(c, ANSWERED) {
      assert !late;
      ClosedLater(c.holds, clock, now);
      assert d.holds[1..] == c.holds;
      TotalOpen(d.holds);
    } else {
      OrderedLater(c.holds, late, clock, now);
    }
  }

  lemma TotalOpen(holds: seq<Hold>)
    requires holds != [] && holds[0].off == 0
    ensures Total(holds) == Total(holds[1..])
  {
  }

  /** Clearing it. */
  lemma EndKeeps(c: Chan, late: bool, clock: nat, now: nat)
    requires Books(c, late, clock) && clock <= now && 0 < now
    ensures var d := ClearFlag(c, LEG_HOLDING, now);
      Books(d, false, now) && !Set(d, LEG_HOLDING) && d.pending == c.pending && d.flags == c.flags[LEG_HOLDING := 0]
  {
    hide Closed, Total;
    if late {
      EndRecorded(c, clock, now);
    } else {
      OrderedLater(c.holds, false, clock, now);
    }
  }

  /** The end of a recorded hold closes and accounts its record. */
  lemma EndRecorded(c: Chan, clock: nat, now: nat)
    requires Books(c, true, clock) && clock <= now && 0 < now
    ensures var d := ClearFlag(c, LEG_HOLDING, now);
      Books(d, false, now) && !Set(d, LEG_HOLDING) && d.pending == c.pending && d.flags == c.flags[LEG_HOLDING := 0]
  {
    hide Closed, Total;
    var d := ClearFlag(c, LEG_HOLDING, now);
    assert Set(c, ANSWERED) && c.lastHold != 0;
    EndTotals(c.holds, now);
    assert d.holds == [c.holds[0].(off := now)] + c.holds[1..];
    assert d.holds[1..] == c.holds[1..];
    ClosedCons(d.holds, now);
  }

  lemma ClosedCons(holds: seq<Hold>, bound: nat)
    requires holds != [] && 0 < holds[0].on <= holds[0].off <= bound && Closed(holds[1..], holds[0].on)
    ensures Closed(holds, bound)
  {
  }

  lemma EndTotals(holds: seq<Hold>, now: nat)
    requires holds != [] && holds[0].off == 0 && now > 0
    ensures var ended := [holds[0].(off := now)] + holds[1..];
      ended == CloseHead(holds, now) && Total(ended) == Total(holds) + (now - holds[0].on)
  {
    var ended := [holds[0].(off := now)] + holds[1..];
    assert ended[1..] == holds[1..];
  }

  lemma OtherFlag(c: Chan, f: Flag, v: nat, now: nat)
    requires f != LEG_HOLDING
    ensures (f == ANSWERED ==> v != 0) ==> Neutral(c, SetFlag(c, f, v, now))
    ensures f != ANSWERED ==> Neutral(c, ClearFlag(c, f, now))
  {
  }

  /** Taking an answer back. */
  lemma UnanswerExactly(c: Chan, late: bool, clock: nat, d: Chan, now: nat)
    requires Books(c, late, clock) && clock <= now && !Set(d, ANSWERED)
    requires d.(flags := c.flags) == c && Set(c, LEG_HOLDING) == Set(d, LEG_HOLDING)
    ensures Books(d, LateAfter(c, late, d), now) <==> c.holds == []
  {
    hide Closed, Total;
    if c.holds == [] {
      OrderedLater(c.holds, late, clock, now);
    }
  }

  /** Setting the hold flag to zero. */
  lemma SetToZeroExactly(c: Chan, late: bool, clock: nat, now: nat)
    requires Books(c, late, clock) && clock <= now && 0 < now
    ensures var d := SetFlag(c, LEG_HOLDING, 0, now);
      Books(d, LateAfter(c, late, d), now) <==> !late && (Set(c, LEG_HOLDING) || !Set(c, ANSWERED))
  {
    hide Total;
    if !late {
      OrderedLater(c.holds, late, clock, now);
    }
  }

  /** A change of the running state, which raises the deferred flags. */
  lemma RunExactly(c: Chan, late: bool, clock: nat, s: State, now: nat)
    requires Books(c, late, clock) && clock <= now
    ensures var d := SetRunning(c, s, now);
      Books(d, LateAfter(c, late, d), now) <==> KeepsBooks(c, late, OpRun(s))
  {
    hide SetFlag, ClearFlag, RaiseDeferred, Total;
    RaiseStep(c, LEG_HOLDING);
    RaiseStep(c, ANSWERED);
    OtherFlag(RaiseDeferred(c), TAGGED, 0, now);
    OrderedLater(c.holds, late, clock, now);
  }

  /** A hangup ends the hold, and leaves nothing for its own last look at the records to do. */
  lemma HangupKeeps(c: Chan, late: bool, clock: nat, cause: nat, now: nat)
    requires Books(c, late, clock) && clock <= now && 0 < now
    ensures var d := PerformHangup(c, cause, now);
      Books(d, false, now) && !Set(d, LEG_HOLDING)
  {
    hide SetFlag, ClearFlag, Closed, Total;
    var h := c.(hungUp := true);
    var r := ReleaseHold(h, now);
    if Set(c, LEG_HOLDING) {
      EndKeeps(h, late, clock, now);
      var m := MarkHold(h, false, now);
      OtherFlag(m, HANGUP_HELD, 1, now);
      NeutralKeeps(m, false, now, r, now);
    } else {
      OrderedLater(c.holds, late, clock, now);
    }
    assert Books(r, false, now) && !Set(r, LEG_HOLDING);
    OtherFlag(r, BLOCK_STATE, 0, now);
    var b := ClearFlag(r, BLOCK_STATE, now);
    NeutralKeeps(r, false, now, b, now);
    HeadEnded(b.holds, now);
  }

  lemma HeadEnded(holds: seq<Hold>, clock: nat)
    requires Closed(holds, clock)
    ensures holds != [] ==> holds[0].off != 0
  {
  }

  /** One step keeps the books right exactly if the guard holds before it. */
  lemma BooksStep(c: Chan, late: bool, clock: nat, op: Op, now: nat)
    requires Books(c, late, clock) && clock <= now && 0 < now && Step(c, op, now).Some?
    ensures var d := Step(c, op, now).value;
      Books(d, LateAfter(c, late, d), now) <==> KeepsBooks(c, late, op)
  {
    hide SetFlag, ClearFlag, PerformHangup, SetRunning, Books, Neutral;
    var d := Step(c, op, now).value;
    match op
    case OpHangup(cause) => HangupKeeps(c, late, clock, cause, now);
    case OpHold(on) =>
      if on == Set(c, LEG_HOLDING) {
        OtherStep(c, op, now);
        NeutralKeeps(c, late, clock, d, now);
      } else if on {
        StartKeeps(c, late, clock, 1, now);
      } else {
        EndKeeps(c, late, clock, now);
      }
    case OpSetFlag(f, v) =>
      if f == LEG_HOLDING {
        if v == 0 {
          SetToZeroExactly(c, late, clock, now);
        } else {
          StartKeeps(c, late, clock, v, now);
        }
      } else if f == ANSWERED && v == 0 {
        PlainFlag(c, now);
        UnanswerExactly(c, late, clock, d, now);
      } else {
        OtherFlag(c, f, v, now);
        NeutralKeeps(c, late, clock, d, now);
      }
    case OpClearFlag(f) =>
      if f == LEG_HOLDING {
        EndKeeps(c, late, clock, now);
      } else if f == ANSWERED {
        PlainFlag(c, now);
        UnanswerExactly(c, late, clock, d, now);
      } else {
        OtherFlag(c, f, 0, now);
        NeutralKeeps(c, late, clock, d, now);
      }
    case OpRun(s) => RunExactly(c, late, clock, s, now);
    case _ =>
      OtherStep(c, op, now);
      NeutralKeeps(c, late, clock, d, now);
  }

  lemma PlainFlag(c: Chan, now: nat)
    ensures SetFlag(c, ANSWERED, 0, now) == c.(flags := c.flags[ANSWERED := 0])
    ensures ClearFlag(c, ANSWERED, now) == c.(flags := c.flags[ANSWERED := 0])
  {
  }

  /** Steps that have nothing to do with holding. */
  lemma OtherStep(c: Chan, op: Op, now: nat)
    requires Step(c, op, now).Some?
    requires match op
      case OpSetState(_) => true
      case OpAnswer => true
      case OpHold(on) => on == Set(c, LEG_HOLDING)
      case OpDefer(_) => true
      case OpUndefer(_) => true
      case OpCallstate(_) => true
      case _ => false
    ensures Neutral(c, Step(c, op, now).value)
  {
  }

  // ---- whole runs

  /** Whether the hold that lasts in the `i`-th state was begun after answering. */
  ghost predicate Late(states: seq<Chan>, i: nat)
    requires i < |states|
  {
    i > 0 && LateAfter(states[i - 1], Late(states, i - 1), states[i])
  }

  ghost predicate ClockedRun(states: seq<Chan>, events: seq<Event>) {
    && Trace(states, events)
    && (forall i :: 0 <= i < |events| ==> events[i].now > 0)
    && (forall i, j :: 0 <= i < j < |events| ==> events[i].now <= events[j].now)
  }

  function ClockAt(events: seq<Event>, i: nat): (n: nat)
    requires i <= |events|
  {
    if i == 0 then 0 else events[i - 1].now
  }

  ghost predicate BooksAt(states: seq<Chan>, events: seq<Event>, i: nat)
    requires i < |states| == |events| + 1
  {
    Books(states[i], Late(states, i), ClockAt(events, i))
  }

  /**
   * Over every run of a fresh channel: the books are right in all states up to the `i`-th exactly if every step before
   * it was guarded.
   */
  lemma {:induction false} BooksBalance(inbound: bool, states: seq<Chan>, events: seq<Event>, i: nat)
    requires ClockedRun(states, events) && states[0] == Fresh(inbound) && i < |states|
    ensures (forall k :: 0 <= k <= i ==> BooksAt(states, events, k)) <==>
      (forall k :: 0 <= k < i ==> KeepsBooks(states[k], Late(states, k), events[k].op))
  {
    hide Step, BooksAt, Late, KeepsBooks, Fresh;
    if i == 0 {
      FreshStart(inbound, states, events);
    } else {
      BooksBalance(inbound, states, events, i - 1);
      if BooksAt(states, events, i - 1) {
        NextBooks(states, events, i - 1);
      }
    }
  }

  lemma FreshStart(inbound: bool, states: seq<Chan>, events: seq<Event>)
    requires ClockedRun(states, events) && states[0] == Fresh(inbound)
    ensures BooksAt(states, events, 0)
  {
    hide Fresh, Books;
    FreshBooks(inbound);
  }

  lemma NextBooks(states: seq<Chan>, events: seq<Event>, i: nat)
    requires ClockedRun(states, events) && i < |events| && BooksAt(states, events, i)
    ensures BooksAt(states, events, i + 1) <==> KeepsBooks(states[i], Late(states, i), events[i].op)
  {
    hide Step, Books, LateAfter, KeepsBooks;
    var e := events[i];
    assert Step(states[i], e.op, e.now) == Some(states[i + 1]);
    assert ClockAt(events, i) <= e.now;
    BooksStep(states[i], Late(states, i), ClockAt(events, i), e.op, e.now);
  }

  lemma FreshBooks(inbound: bool)
    ensures Books(Fresh(inbound), false, 0)
  {
  }

  // ---- what unbalances the books

  /** A new channel answered at 1. */
  function Answered(): (c: Chan) {
    MarkAnswered(Fresh(true), 1)
  }

  /** The same, put on hold at 10. */
  function OnHold(): (c: Chan) {
    MarkHold(Answered(), true, 10)
  }

  lemma OnHoldIs()
    ensures var c := Answered();
      c.flags == Zeros(FLAG_MAX)[ANSWERED := 1] && c.holds == [] && c.lastHold == 0 && c.holdAccum == 0 && Live(c.state)
    ensures var c := OnHold();
      && c.flags == Zeros(FLAG_MAX)[ANSWERED := 1][LEG_HOLDING := 1] && c.pending == Zeros(FLAG_MAX)
      && c.holds == [Hold(10, 0)] && c.lastHold == 10 && c.holdAccum == 0
  {
  }

  /** Taking the answer back during a hold leaves the record open although the hold has ended. */
  lemma AnswerTakenBack()
    ensures var d := MarkHold(ClearFlag(OnHold(), ANSWERED, 11), false, 20);
      !Set(d, LEG_HOLDING) && d.holds == [Hold(10, 0)] && d.holdAccum == 0
  {
    hide OnHold;
    OnHoldIs();
  }

  /** Setting the hold flag to zero opens a record without a hold. */
  lemma SetToZero()
    ensures var d := SetFlag(Answered(), LEG_HOLDING, 0, 10);
      !Set(d, LEG_HOLDING) && d.holds == [Hold(10, 0)]
  {
    hide Answered;
    OnHoldIs();
  }

  /** A deferred hold is not recorded, and its end counts the time since the hold before once more. */
  lemma DeferredHold()
    ensures var c := OnHold();
      var d := MarkHold(SetRunning(Defer(MarkHold(c, false, 20), LEG_HOLDING), Park, 30), false, 40);
      |d.holds| == 1 && d.holdAccum == 40 && Total(d.holds) == 30
  {
    hide MarkHold, SetRunning, Defer, OnHold;
    FirstHoldEnded();
    var c1 := MarkHold(OnHold(), false, 20);
    HoldDeferred(c1);
    SecondHoldEnded(SetRunning(Defer(c1, LEG_HOLDING), Park, 30));
  }

  lemma FirstHoldEnded()
    ensures var c := MarkHold(OnHold(), false, 20);
      c.holds == [Hold(10, 20)] && c.holdAccum == 10 && c.lastHold == 10 && Set(c, ANSWERED)
  {
    hide OnHold;
    OnHoldIs();
  }

  lemma HoldDeferred(c: Chan)
    requires c.holds == [Hold(10, 20)] && c.holdAccum == 10 && c.lastHold == 10 && Set(c, ANSWERED)
    ensures var d := SetRunning(Defer(c, LEG_HOLDING), Park, 30);
      Set(d, LEG_HOLDING) && Set(d, ANSWERED) && d.holds == c.holds && d.holdAccum == 10 && d.lastHold == 10
  {
    hide RaiseDeferred;
    var c2 := Defer(c, LEG_HOLDING);
    RaiseStep(c2, LEG_HOLDING);
    RaiseStep(c2, ANSWERED);
  }

  lemma SecondHoldEnded(c: Chan)
    requires c.holds == [Hold(10, 20)] && c.holdAccum == 10 && c.lastHold == 10
    requires Set(c, LEG_HOLDING) && Set(c, ANSWERED)
    ensures var d := MarkHold(c, false, 40);
      |d.holds| == 1 && d.holdAccum == 40 && Total(d.holds) == 30
  {
    var d := MarkHold(c, false, 40);
    assert d.holds == [Hold(10, 40)];
    assert d.holds[1..] == [];
  }

  // ---- deferred flags

  /** Whenever a flag is deferred, the mark that says so is set. */
  predicate Marked(c: Chan) {
    forall f: Flag :: c.pending[f] != 0 ==> c.pending[0] != 0
  }

  lemma MarkedStep(c: Chan, op: Op, now: nat)
    requires Marked(c) && Step(c, op, now).Some?
    ensures Marked(Step(c, op, now).value)
  {
    hide SetFlag, ClearFlag, PerformHangup, RaiseDeferred;
    var d := Step(c, op, now).value;
    match op
    case OpHangup(cause) => HangupStep(c, cause, now);
    case OpAnswer => AnswerStep(c, now);
    case OpHold(on) => HoldStep(c, on, now);
    case OpSetFlag(f, v) => FlagSteps(c, f, v, now);
    case OpClearFlag(f) => FlagSteps(c, f, 0, now);
    case OpRun(s) =>
      FlagSteps(RaiseDeferred(c), TAGGED, 0, now);
      forall f: Flag
        ensures d.pending[f] != 0 ==> d.pending[0] != 0
      {
        RaiseStep(c, f);
      }
    case _ =>
  }

  /** A change of the running state sets every deferred flag, touches no other but the tag, and leaves none deferred. */
  lemma DeferredTakeEffect(c: Chan, s: State, now: nat, f: Flag)
    requires Marked(c)
    ensures var d := SetRunning(c, s, now);
      && d.pending[f] == 0 && d.pending[0] == 0
      && d.flags[f] == if f == TAGGED then 0 else if c.pending[f] != 0 then 1 else c.flags[f]
  {
    hide RaiseDeferred;
    RaiseStep(c, f);
  }
}
