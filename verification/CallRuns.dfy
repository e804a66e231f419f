/**
 * What a channel shows to the outside over a run: its call state, its flags, its state and its hangup cause, each told
 * from the events and the flags before them.
 */
module CallRuns {
  import opened CStrings
  import opened ChannelModel
  import opened ChannelRuns

  // ---- what an event asks for

  /** The channel is answered and on hold, or answered and not. */
  predicate OnHold(c: Chan) {
    Set(c, LEG_HOLDING) && Set(c, ANSWERED)
  }

  predicate OffHold(c: Chan) {
    !Set(c, LEG_HOLDING) && Set(c, ANSWERED)
  }

  /** The call state shown at the end of a hold. */
  function AfterHold(c: Chan): (cs: CallState) {
    if Set(c, PROXY_MODE) && Set(c, BRIDGED) then Active else Unheld
  }

  /** The flag is set, or will be by the next change of the running state. */
  predicate Due(c: Chan, f: Flag) {
    Set(c, f) || Raises(c, f)
  }

  /** The call state an event asks for; most ask for none. */
  function Asks(c: Chan, op: Op): (r: Option<CallState>) {
    match op
    case OpCallstate(cs) => Some(cs)
    case OpAnswer => if c.cause == 0 && Live(c.state) && !Set(c, ANSWERED) then Some(Active) else None
    case OpHold(on) =>
      if on && OffHold(c) then Some(Held) else if !on && OnHold(c) then Some(AfterHold(c)) else None
    case OpHangup(_) => if OnHold(c) then Some(AfterHold(c)) else None
    case OpSetFlag(f, _) =>
      if f == LEG_HOLDING && OffHold(c) then Some(Held)
      else if f == ORIGINATOR && Set(c, ANSWERED) && Live(c.state) then Some(RingWait)
      else None
    case OpClearFlag(f) =>
      if f == LEG_HOLDING && OnHold(c) then Some(AfterHold(c))
      else if f == ORIGINATOR && Set(c, ANSWERED) && Live(c.state) then Some(Active)
      else None
    case OpRun(s) =>
      if !c.inbound || !Live(s) then None
      else if s == Routing then Some(Ringing)
      else if Due(c, ANSWERED) then Some(Active)
      else if Due(c, EARLY_MEDIA) then Some(Early)
      else None
    case _ => None
  }

  /** The value an event gives a flag; most leave it alone. */
  function Puts(c: Chan, op: Op, f: Flag): (r: Option<nat>) {
    match op
    case OpSetFlag(g, v) => if f == g then Some(v) else None
    case OpClearFlag(g) =>
      if f == g then Some(0) else if f == VIDEO_READY && g == VIDEO_PASSIVE && Set(c, VIDEO) then Some(1) else None
    case OpAnswer =>
      if f == ANSWERED && c.cause == 0 && Live(c.state) && !Set(c, ANSWERED) then Some(1) else None
    case OpHold(on) => if f == LEG_HOLDING && on != Set(c, LEG_HOLDING) then Some(if on then 1 else 0) else None
    case OpHangup(_) =>
      if f == LEG_HOLDING && Set(c, LEG_HOLDING) then Some(0)
      else if f == HANGUP_HELD && Set(c, LEG_HOLDING) then Some(1)
      else if f == BLOCK_STATE && !c.hungUp then Some(0)
      else None
    case OpRun(_) => if f == TAGGED then Some(0) else if Raises(c, f) then Some(1) else None
    case _ => None
  }

  /** Where an event takes a channel whose program does not stop: down, forward only, and a hangup once. */
  function Goes(c: Chan, op: Op): (s: State) {
    match op
    case OpSetState(s) => if Live(c.state) || Rank(s) > Rank(c.state) then s else c.state
    case OpHangup(_) => if HangsUp(c, op) then Hangup else c.state
    case _ => c.state
  }

  function Gives(c: Chan, op: Op): (cause: nat) {
    match op
    case OpSetState(s) => if s == Hangup && Live(c.state) && c.cause == 0 then NORMAL_CLEARING else c.cause
    case OpHangup(cause) => if HangsUp(c, op) then cause else c.cause
    case _ => c.cause
  }

  // ---- one step

  /** The step does what was asked, and no more, to everything a caller can see. */
  ghost predicate Lawful(c: Chan, op: Op, d: Chan) {
    Shown(c, op, d) && Flagged(c, op, d) && Coursed(c, op, d)
  }

  predicate Shown(c: Chan, op: Op, d: Chan) {
    d.callstate == if c.callstate != HungUp && Asks(c, op).Some? then Asks(c, op).value else c.callstate
  }

  ghost predicate Flagged(c: Chan, op: Op, d: Chan) {
    forall f: Flag :: d.flags[f] == if Puts(c, op, f).Some? then Puts(c, op, f).value else c.flags[f]
  }

  predicate Coursed(c: Chan, op: Op, d: Chan) {
    && d.state == Goes(c, op) && d.cause == Gives(c, op)
    && d.running == (if op.OpRun? then op.s else c.running) && d.hungUp == (c.hungUp || op.OpHangup?)
    && d.inbound == c.inbound
  }

  lemma SetLawful(c: Chan, f: Flag, v: nat, now: nat)
    ensures Lawful(c, OpSetFlag(f, v), SetFlag(c, f, v, now))
  {
  }

  lemma ClearLawful(c: Chan, f: Flag, now: nat)
    ensures Lawful(c, OpClearFlag(f), ClearFlag(c, f, now))
  {
    hide Shown, Flagged, Coursed;
    ClearShown(c, f, now);
    ClearFlagged(c, f, now);
    ClearCoursed(c, f, now);
  }

  lemma ClearShown(c: Chan, f: Flag, now: nat)
    ensures Shown(c, OpClearFlag(f), ClearFlag(c, f, now))
  {
  }

  lemma ClearFlagged(c: Chan, f: Flag, now: nat)
    ensures Flagged(c, OpClearFlag(f), ClearFlag(c, f, now))
  {
  }

  lemma ClearCoursed(c: Chan, f: Flag, now: nat)
    ensures Coursed(c, OpClearFlag(f), ClearFlag(c, f, now))
  {
  }

  lemma AnswerLawful(c: Chan, now: nat)
    ensures Lawful(c, OpAnswer, MarkAnswered(c, now))
  {
  }

  lemma HoldLawful(c: Chan, on: bool, now: nat)
    ensures Lawful(c, OpHold(on), MarkHold(c, on, now))
  {
    hide SetFlag, ClearFlag;
    SetLawful(c, LEG_HOLDING, 1, now);
    ClearLawful(c, LEG_HOLDING, now);
  }

  /** The end of a hold at a hangup. */
  lemma ReleaseLawful(c: Chan, now: nat)
    ensures var d := ReleaseHold(c, now);
      && Shown(c, OpHangup(0), d)
      && (forall f: Flag :: f != BLOCK_STATE ==>
            d.flags[f] == if Puts(c, OpHangup(0), f).Some? then Puts(c, OpHangup(0), f).value else c.flags[f])
      && d.flags[BLOCK_STATE] == c.flags[BLOCK_STATE]
      && d.state == c.state && d.cause == c.cause && d.running == c.running && d.hungUp == c.hungUp
      && d.inbound == c.inbound
  {
    hide SetFlag, ClearFlag;
    ClearLawful(c, LEG_HOLDING, now);
    SetLawful(ClearFlag(c, LEG_HOLDING, now), HANGUP_HELD, 1, now);
  }

  lemma HangupLawful(c: Chan, cause: nat, now: nat)
    ensures Lawful(c, OpHangup(cause), PerformHangup(c, cause, now))
  {
    hide ReleaseHold, ClearFlag;
    var h := c.(hungUp := true);
    ReleaseLawful(h, now);
    ClearLawful(ReleaseHold(h, now), BLOCK_STATE, now);
  }

  lemma RaiseLawful(c: Chan)
    ensures var r := RaiseDeferred(c);
      && c.(flags := r.flags, pending := r.pending) == r
      && forall f: Flag :: r.flags[f] == if Raises(c, f) then 1 else c.flags[f]
  {
  }

  lemma RunLawful(c: Chan, s: State, now: nat)
    ensures Lawful(c, OpRun(s), SetRunning(c, s, now))
  {
    hide ClearFlag, RaiseDeferred;
    RaiseLawful(c);
    ClearLawful(RaiseDeferred(c), TAGGED, now);
  }

  lemma StepLawful(c: Chan, op: Op, now: nat)
    requires Step(c, op, now).Some?
    ensures Lawful(c, op, Step(c, op, now).value)
  {
    hide SetFlag, ClearFlag, PerformHangup, SetRunning, MarkHold, MarkAnswered, Lawful, SetState;
    match op
    case OpHangup(cause) => HangupLawful(c, cause, now);
    case OpAnswer => AnswerLawful(c, now);
    case OpHold(on) => HoldLawful(c, on, now);
    case OpSetFlag(f, v) => SetLawful(c, f, v, now);
    case OpClearFlag(f) => ClearLawful(c, f, now);
    case OpRun(s) => RunLawful(c, s, now);
    case _ => OtherLawful(c, op, now);
  }

  lemma OtherLawful(c: Chan, op: Op, now: nat)
    requires op.OpSetState? || op.OpDefer? || op.OpUndefer? || op.OpCallstate?
    requires Step(c, op, now).Some?
    ensures Lawful(c, op, Step(c, op, now).value)
  {
  }

  // ---- whole runs

  /** The flags waiting for the next change of the running state, flag 0 telling whether there are any. */
  function Waits(c: Chan, op: Op, f: nat): (v: nat)
    requires f < FLAG_MAX
  {
    match op
    case OpDefer(g) => if f == g || f == 0 then 1 else c.pending[f]
    case OpUndefer(g) => if f == g then 0 else c.pending[f]
    case OpRun(_) => if c.pending[0] != 0 then 0 else c.pending[f]
    case _ => c.pending[f]
  }

  ghost predicate Queued(c: Chan, op: Op, d: Chan) {
    forall f: nat :: f < FLAG_MAX ==> d.pending[f] == Waits(c, op, f)
  }

  /** Deferring a flag, taking that back and a change of the running state touch the waiting flags, and nothing else. */
  lemma StepQueued(c: Chan, op: Op, now: nat)
    requires Step(c, op, now).Some?
    ensures Queued(c, op, Step(c, op, now).value)
  {
    hide SetFlag, ClearFlag, PerformHangup, MarkHold;
    match op
    case OpHangup(cause) => HangupKeepsQueue(c, cause, now);
    case OpHold(on) => HoldKeepsQueue(c, on, now);
    case OpSetFlag(f, v) => FlagKeepsQueue(c, f, v, now);
    case OpClearFlag(f) => FlagKeepsQueue(c, f, 0, now);
    case OpAnswer => FlagKeepsQueue(c, ANSWERED, 1, now);
    case OpRun(s) => FlagKeepsQueue(RaiseDeferred(c), TAGGED, 0, now);
    case _ =>
  }

  lemma FlagKeepsQueue(c: Chan, f: Flag, v: nat, now: nat)
    ensures SetFlag(c, f, v, now).pending == c.pending && ClearFlag(c, f, now).pending == c.pending
  {
  }

  lemma HoldKeepsQueue(c: Chan, on: bool, now: nat)
    ensures MarkHold(c, on, now).pending == c.pending && ReleaseHold(c, now).pending == c.pending
  {
    hide SetFlag, ClearFlag;
    FlagKeepsQueue(c, LEG_HOLDING, 1, now);
    FlagKeepsQueue(ClearFlag(c, LEG_HOLDING, now), HANGUP_HELD, 1, now);
  }

  lemma HangupKeepsQueue(c: Chan, cause: nat, now: nat)
    ensures PerformHangup(c, cause, now).pending == c.pending
  {
    hide SetFlag, ClearFlag, ReleaseHold;
    var d := ReleaseHold(c.(hungUp := true), now);
    HoldKeepsQueue(c.(hungUp := true), false, now);
    FlagKeepsQueue(d, BLOCK_STATE, 0, now);
  }

  lemma LawfulAt(states: seq<Chan>, events: seq<Event>, i: nat)
    requires Trace(states, events) && i < |events|
    ensures Lawful(states[i], events[i].op, states[i + 1])
  {
    hide Step, Lawful;
    assert Step(states[i], events[i].op, events[i].now) == Some(states[i + 1]);
    StepLawful(states[i], events[i].op, events[i].now);
  }

  /** No event from `i` to before `j` asks for a call state. */
  ghost predicate Silent(states: seq<Chan>, events: seq<Event>, i: nat, j: nat)
    requires |states| == |events| + 1
  {
    forall k :: i <= k < j && k < |events| ==> Asks(states[k], events[k].op).None?
  }

  /** Without such an event the call state stays; and hung up it stays in any case. */
  lemma {:induction false} CallStateStays(states: seq<Chan>, events: seq<Event>, i: nat, j: nat)
    requires Trace(states, events) && i <= j < |states|
    requires Silent(states, events, i, j) || states[i].callstate == HungUp
    ensures states[j].callstate == states[i].callstate
    decreases j - i
  {
    hide Step, Asks;
    if i < j {
      CallStateStays(states, events, i, j - 1);
      LawfulAt(states, events, j - 1);
    }
  }

  /**
   * Over every run: a channel whose call state was not hung up shows what the last event asked for that asked for one.
   */
  lemma LastAsked(states: seq<Chan>, events: seq<Event>, k: nat, j: nat)
    requires Trace(states, events) && k < j < |states|
    requires Asks(states[k], events[k].op).Some? && Silent(states, events, k + 1, j) && states[k].callstate != HungUp
    ensures states[j].callstate == Asks(states[k], events[k].op).value
  {
    hide Step, Asks;
    LawfulAt(states, events, k);
    CallStateStays(states, events, k + 1, j);
  }

  /** No event from `i` to before `j` touches the flag. */
  ghost predicate Untouched(states: seq<Chan>, events: seq<Event>, f: Flag, i: nat, j: nat)
    requires |states| == |events| + 1
  {
    forall k :: i <= k < j && k < |events| ==> Puts(states[k], events[k].op, f).None?
  }

  lemma {:induction false} FlagStays(states: seq<Chan>, events: seq<Event>, f: Flag, i: nat, j: nat)
    requires Trace(states, events) && i <= j < |states| && Untouched(states, events, f, i, j)
    ensures states[j].flags[f] == states[i].flags[f]
    decreases j - i
  {
    hide Step, Puts;
    if i < j {
      FlagStays(states, events, f, i, j - 1);
      LawfulAt(states, events, j - 1);
    }
  }

  /** Over every run: a flag has the value the last event gave it that touched it. */
  lemma LastPut(states: seq<Chan>, events: seq<Event>, f: Flag, k: nat, j: nat)
    requires Trace(states, events) && k < j < |states|
    requires Puts(states[k], events[k].op, f).Some? && Untouched(states, events, f, k + 1, j)
    ensures states[j].flags[f] == Puts(states[k], events[k].op, f).value
  {
    hide Step, Puts;
    LawfulAt(states, events, k);
    FlagStays(states, events, f, k + 1, j);
  }
}
