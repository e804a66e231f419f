/** What every run of a channel keeps: the order of its states, one hangup, one cause, and the hold accounts. */
module ChannelRuns {
  import opened CStrings
  import opened ChannelModel

  // ---- one step

  /** What holds of every channel a run reaches. */
  predicate Sane(c: Chan) {
    c.cause != 0 ==> !Live(c.state)
  }

  /** Setting or clearing a flag leaves the course of the channel, and the answered flag unless it is that. */
  lemma FlagSteps(c: Chan, f: Flag, v: nat, now: nat)
    ensures SameCourse(c, SetFlag(c, f, v, now)) && SameCourse(c, ClearFlag(c, f, now))
    ensures SetFlag(c, f, v, now).flags[ANSWERED] == if f == ANSWERED then v else c.flags[ANSWERED]
    ensures ClearFlag(c, f, now).flags[ANSWERED] == if f == ANSWERED then 0 else c.flags[ANSWERED]
  {
    SetFlagStep(c, f, v, now);
  }

  lemma SetFlagStep(c: Chan, f: Flag, v: nat, now: nat)
    ensures SameCourse(c, SetFlag(c, f, v, now))
    ensures SetFlag(c, f, v, now).flags[ANSWERED] == if f == ANSWERED then v else c.flags[ANSWERED]
  {
  }

  /** State, cause, hangup mark and deferred flags are untouched. */
  predicate SameCourse(c: Chan, d: Chan) {
    c.state == d.state && c.cause == d.cause && c.hungUp == d.hungUp && c.pending == d.pending
  }

  lemma HangupStep(c: Chan, cause: nat, now: nat)
    ensures var d := PerformHangup(c, cause, now);
      && d.hungUp && d.pending == c.pending && d.flags[ANSWERED] == c.flags[ANSWERED]
      && (if HangsUp(c, OpHangup(cause)) then d.state == Hangup && d.cause == cause
          else d.state == c.state && d.cause == c.cause)
  {
    hide SetFlag, ClearFlag;
    var h := c.(hungUp := true);
    FlagSteps(h, LEG_HOLDING, 0, now);
    var m := MarkHold(h, false, now);
    FlagSteps(m, HANGUP_HELD, 1, now);
    var r := ReleaseHold(h, now);
    assert SameCourse(h, r) && r.flags[ANSWERED] == c.flags[ANSWERED];
    FlagSteps(r, BLOCK_STATE, 0, now);
  }

  lemma RaiseStep(c: Chan, f: Flag)
    ensures var d := RaiseDeferred(c);
      && c.(flags := d.flags, pending := d.pending) == d
      && d.flags[f] == (if c.pending[0] != 0 && c.pending[f] != 0 then 1 else c.flags[f])
      && d.pending[f] == (if c.pending[0] != 0 then 0 else c.pending[f]) && d.pending[0] == 0
  {
  }

  /** The flag is deferred, and the next change of the running state sets it. */
  predicate Raises(c: Chan, f: Flag) {
    c.pending[0] != 0 && c.pending[f] != 0
  }

  lemma RunStep(c: Chan, s: State, now: nat)
    ensures var d := SetRunning(c, s, now);
      && d.state == c.state && d.cause == c.cause && d.hungUp == c.hungUp
      && (Set(d, ANSWERED) <==> Set(c, ANSWERED) || Raises(c, ANSWERED))
  {
    hide ClearFlag, RaiseDeferred;
    RaiseStep(c, ANSWERED);
    FlagSteps(RaiseDeferred(c), TAGGED, 0, now);
  }

  /** Everything the theorems about runs need of one step. */
  ghost predicate Safe(c: Chan, op: Op, d: Chan) {
    && (c.hungUp ==> d.hungUp) && (op.OpHangup? ==> d.hungUp)
    && (!Live(c.state) ==> Rank(c.state) <= Rank(d.state))
    && (c.cause != 0 ==> d.cause == c.cause)
    && (Live(c.state) && !Live(d.state) ==> HangsUp(c, op) || (op.OpSetState? && (c.state == New || c.state == Reset)))
    && (!Live(c.state) && !Set(c, ANSWERED) ==> (Set(d, ANSWERED) <==> AnswersAnyway(c, op)))
  }

  /** What sets the answered flag without asking whether the channel is up. */
  predicate AnswersAnyway(c: Chan, op: Op) {
    match op
    case OpSetFlag(f, v) => f == ANSWERED && v != 0
    case OpRun(_) => Raises(c, ANSWERED)
    case _ => false
  }

  lemma StepSafe(c: Chan, op: Op, now: nat)
    requires Sane(c) && Step(c, op, now).Some?
    ensures Sane(Step(c, op, now).value) && Safe(c, op, Step(c, op, now).value)
  {
    hide SetFlag, ClearFlag, PerformHangup, SetRunning, MarkHold;
    match op
    case OpSetState(s) =>
    case OpHangup(cause) => HangupStep(c, cause, now);
    case OpAnswer => AnswerStep(c, now);
    case OpHold(on) => HoldStep(c, on, now);
    case OpSetFlag(f, v) => FlagSteps(c, f, v, now);
    case OpClearFlag(f) => FlagSteps(c, f, 0, now);
    case OpDefer(f) =>
    case OpUndefer(f) =>
    case OpRun(s) => RunStep(c, s, now);
    case OpCallstate(cs) =>
  }

  lemma AnswerStep(c: Chan, now: nat)
    ensures SameCourse(c, MarkAnswered(c, now))
    ensures !Live(c.state) || c.cause != 0 ==> MarkAnswered(c, now) == c
  {
  }

  lemma HoldStep(c: Chan, on: bool, now: nat)
    ensures SameCourse(c, MarkHold(c, on, now)) && MarkHold(c, on, now).flags[ANSWERED] == c.flags[ANSWERED]
  {
    hide SetFlag, ClearFlag;
    FlagSteps(c, LEG_HOLDING, 1, now);
  }

  // ---- whole runs

  ghost predicate ProperRun(states: seq<Chan>, events: seq<Event>) {
    Trace(states, events) && Sane(states[0])
  }

  lemma {:induction false} AllSane(states: seq<Chan>, events: seq<Event>, i: nat)
    requires ProperRun(states, events) && i < |states|
    ensures Sane(states[i])
  {
    hide Step, Sane;
    if i > 0 {
      AllSane(states, events, i - 1);
      assert Step(states[i - 1], events[i - 1].op, events[i - 1].now) == Some(states[i - 1 + 1]);
      StepSafe(states[i - 1], events[i - 1].op, events[i - 1].now);
    }
  }

  lemma SafeAt(states: seq<Chan>, events: seq<Event>, i: nat)
    requires ProperRun(states, events) && i < |events|
    ensures Safe(states[i], events[i].op, states[i + 1])
  {
    hide Step, Sane, Safe;
    AllSane(states, events, i);
    assert Step(states[i], events[i].op, events[i].now) == Some(states[i + 1]);
    StepSafe(states[i], events[i].op, events[i].now);
  }

  /** Once hung up, a channel only moves on, and a cause once given stays. */
  lemma {:induction false} HangupIsFinal(states: seq<Chan>, events: seq<Event>, i: nat, j: nat)
    requires ProperRun(states, events) && i <= j < |states|
    ensures !Live(states[i].state) ==> Rank(states[i].state) <= Rank(states[j].state)
    ensures states[i].cause != 0 ==> states[j].cause == states[i].cause
    ensures states[i].hungUp ==> states[j].hungUp
    decreases j - i
  {
    hide Step, Sane;
    if i < j {
      HangupIsFinal(states, events, i, j - 1);
      SafeAt(states, events, j - 1);
    }
  }

  /** The guarded part of a hangup runs at most once in a run. */
  lemma HangupOnce(states: seq<Chan>, events: seq<Event>, i: nat, j: nat)
    requires ProperRun(states, events) && i < j < |events|
    ensures !(HangsUp(states[i], events[i].op) && HangsUp(states[j], events[j].op))
  {
    hide Step, Sane;
    SafeAt(states, events, i);
    HangupIsFinal(states, events, i + 1, j);
  }

  /** Only a hangup, or a direct state change out of one of the two entry states, takes a live channel down. */
  lemma HowItEnds(states: seq<Chan>, events: seq<Event>, i: nat)
    requires ProperRun(states, events) && i < |events|
    requires Live(states[i].state) && !Live(states[i + 1].state)
    ensures HangsUp(states[i], events[i].op) ||
      (events[i].op.OpSetState? && (states[i].state == New || states[i].state == Reset))
    ensures forall j :: 0 <= j <= i ==> Live(states[j].state)
  {
    hide Step, Sane;
    SafeAt(states, events, i);
    forall j | 0 <= j <= i
      ensures Live(states[j].state)
    {
      HangupIsFinal(states, events, j, i);
    }
  }

  /**
   * A channel that was hung up unanswered stays unanswered exactly as long as nobody sets the flag directly and no
   * change of the running state raises it from among the deferred ones.
   */
  lemma {:induction false} StaysUnanswered(states: seq<Chan>, events: seq<Event>, i: nat, j: nat)
    requires ProperRun(states, events) && i <= j < |states|
    requires !Live(states[i].state) && !Set(states[i], ANSWERED)
    ensures (forall k :: i <= k <= j ==> !Set(states[k], ANSWERED)) <==>
      (forall k :: i <= k < j ==> !AnswersAnyway(states[k], events[k].op))
    decreases j - i
  {
    hide Step, Sane, Set, AnswersAnyway;
    if i < j {
      StaysUnanswered(states, events, i, j - 1);
      SafeAt(states, events, j - 1);
      HangupIsFinal(states, events, i, j - 1);
    }
  }

  lemma FreshIsSane(inbound: bool)
    ensures Sane(Fresh(inbound))
  {
  }

  /** A deferred answer is given after the hangup. */
  lemma DeferredAnswer()
    ensures var c := Fresh(true);
      var d := Step(Step(Step(c, OpDefer(ANSWERED), 1).value, OpHangup(16), 2).value, OpRun(Hangup), 3).value;
      d.state == Hangup && Set(d, ANSWERED)
  {
    hide ClearFlag;
    var c := Fresh(true);
    var c1 := Step(c, OpDefer(ANSWERED), 1).value;
    var c2 := Step(c1, OpHangup(16), 2).value;
    HangupStep(c1, 16, 2);
    assert c2.pending[0] == 1 && c2.pending[ANSWERED] == 1;
    RaiseStep(c2, ANSWERED);
    FlagSteps(RaiseDeferred(c2), TAGGED, 0, 3);
  }

  /** When the program stops itself: no state is given, or a live channel is sent where the table does not allow. */
  lemma StopsExactly(c: Chan, op: Op, now: nat)
    ensures Step(c, op, now).None? <==>
      op.OpSetState? &&
      (op.s == NoState || c.state == NoState || (Live(c.state) && c.state != op.s && !Allowed(c.state, op.s)))
  {
    hide SetFlag, ClearFlag, PerformHangup, SetRunning, MarkHold;
  }
}
