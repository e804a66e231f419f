/** The call channel as a state machine: each call of its interface is one step. */
module ChannelModel {
  import opened CStrings

  datatype State =
    | New | Init | Routing | SoftExecute | Execute | ExchangeMedia | Park | ConsumeMedia | Hibernate | Reset
    | Hangup | Reporting | Destroy | NoState

  function Rank(s: State): (n: nat) {
    match s
    case New => 0
    case Init => 1
    case Routing => 2
    case SoftExecute => 3
    case Execute => 4
    case ExchangeMedia => 5
    case Park => 6
    case ConsumeMedia => 7
    case Hibernate => 8
    case Reset => 9
    case Hangup => 10
    case Reporting => 11
    case Destroy => 12
    case NoState => 13
  }

  predicate Live(s: State) {
    Rank(s) < Rank(Hangup)
  }

  datatype CallState = Down | Dialing | Ringing | Early | Active | Held | RingWait | HungUp | Unheld

  type Flag = f: int | 1 <= f < 167 witness 1

  const FLAG_MAX: nat := 167

  /** One count for every flag; the first place is not a flag's. */
  type Flags = s: seq<nat> | |s| == FLAG_MAX witness seq(FLAG_MAX, i => 0)

  const ANSWERED: Flag := 1
  const EARLY_MEDIA: Flag := 3
  const BRIDGED: Flag := 9
  const TAGGED: Flag := 13
  const PROXY_MODE: Flag := 16
  const VIDEO: Flag := 25
  const BLOCK_STATE: Flag := 37
  const ORIGINATOR: Flag := 42
  const LEG_HOLDING: Flag := 51
  const VIDEO_PASSIVE: Flag := 116
  const HANGUP_HELD: Flag := 129
  const VIDEO_READY: Flag := 135

  const NORMAL_CLEARING: nat := 16

  /** A hold interval; `off` is zero while it lasts. */
  datatype Hold = Hold(on: nat, off: nat)

  datatype Chan = Chan(
    state: State,
    running: State,
    cause: nat,
    hungUp: bool,
    flags: Flags,
    pending: Flags,
    callstate: CallState,
    inbound: bool,
    holds: seq<Hold>,
    lastHold: nat,
    holdAccum: int)

  predicate Set(c: Chan, f: Flag) {
    c.flags[f] != 0
  }

  // ---- the steps

  /** `switch_channel_perform_set_callstate`. */
  function SetCallstate(c: Chan, cs: CallState): (d: Chan) {
    if c.callstate == HungUp then c else c.(callstate := cs)
  }

  /**
   * Where a channel may go: anywhere from the two entry states, to `New` from nowhere else, to `Init` only out of
   * hibernation.
   */
  predicate Allowed(a: State, b: State) {
    match a
    case New => true
    case Reset => true
    case Hangup => b == Reporting || b == Destroy
    case Reporting => b == Destroy
    case Destroy => false
    case NoState => false
    case _ => Live(b) && b != New && (b == Init ==> a == Hibernate)
  }

  /** `switch_channel_perform_set_state`; no result where the program stops itself. */
  function SetState(c: Chan, s: State): (r: Option<Chan>) {
    if s == NoState || c.state == NoState then None
    else if c.state == s || (!Live(c.state) && Rank(s) < Rank(c.state)) then Some(c)
    else if Allowed(c.state, s) then
      Some(c.(state := s, cause := if s == Hangup && c.cause == 0 then NORMAL_CLEARING else c.cause))
    else if Live(c.state) then None
    else Some(c)
  }

  /** `switch_channel_set_flag_value`. */
  function SetFlag(c: Chan, f: Flag, v: nat, now: nat): (d: Chan) {
    var held := f == LEG_HOLDING && !Set(c, f) && Set(c, ANSWERED);
    var c1 := c.(flags := c.flags[f := v]);
    var c2 := if f == ORIGINATOR && Set(c1, ANSWERED) && Live(c.state) then SetCallstate(c1, RingWait) else c1;
    if held then SetCallstate(c2, Held).(lastHold := now, holds := [Hold(now, 0)] + c.holds) else c2
  }

  /** The newest hold ends. */
  function CloseHead(holds: seq<Hold>, now: nat): (r: seq<Hold>)
    ensures |r| == |holds|
  {
    if holds == [] then [] else holds[0 := holds[0].(off := now)]
  }

  /** `switch_channel_clear_flag`. */
  function ClearFlag(c: Chan, f: Flag, now: nat): (d: Chan) {
    var active := f == LEG_HOLDING && Set(c, f) && Set(c, ANSWERED);
    var flags := if f == VIDEO_PASSIVE && Set(c, VIDEO) then c.flags[VIDEO_READY := 1] else c.flags;
    var c1 := c.(flags := flags[f := 0]);
    var c2 := if active then Unhold(c1, now) else c1;
    if f == ORIGINATOR && Set(c2, ANSWERED) && Live(c.state) then SetCallstate(c2, Active) else c2
  }

  /** The end of a hold that counts. */
  function Unhold(c: Chan, now: nat): (d: Chan) {
    var c1 := SetCallstate(c, Unheld).(
      holdAccum := if c.lastHold != 0 then c.holdAccum + (now - c.lastHold) else c.holdAccum,
      holds := CloseHead(c.holds, now));
    if Set(c, PROXY_MODE) && Set(c, BRIDGED) then SetCallstate(c1, Active) else c1
  }

  /** `switch_channel_mark_hold`. */
  function MarkHold(c: Chan, on: bool, now: nat): (d: Chan) {
    if on == Set(c, LEG_HOLDING) then c
    else if on then SetFlag(c, LEG_HOLDING, 1, now)
    else ClearFlag(c, LEG_HOLDING, now)
  }

  /** What a hangup does about a hold, every time it is called. */
  function ReleaseHold(c: Chan, now: nat): (d: Chan) {
    if Set(c, LEG_HOLDING) then SetFlag(MarkHold(c, false, now), HANGUP_HELD, 1, now) else c
  }

  /** `switch_channel_perform_hangup`. */
  function PerformHangup(c: Chan, cause: nat, now: nat): (d: Chan) {
    var c1 := ReleaseHold(c.(hungUp := true), now);
    if c.hungUp then c1
    else
      var c2 := ClearFlag(c1, BLOCK_STATE, now);
      if Live(c2.state) then
        var holds := if c2.holds != [] && c2.holds[0].off == 0 then CloseHead(c2.holds, now) else c2.holds;
        c2.(holds := holds, state := Hangup, cause := cause)
      else c2
  }

  /** The guarded part of a hangup runs at this step. */
  predicate HangsUp(c: Chan, op: Op) {
    op.OpHangup? && !c.hungUp && Live(c.state)
  }

  /** `switch_channel_perform_mark_answered`. */
  function MarkAnswered(c: Chan, now: nat): (d: Chan) {
    if c.cause != 0 || !Live(c.state) || Set(c, ANSWERED) then c
    else SetCallstate(SetFlag(c, ANSWERED, 1, now), Active)
  }

  /** `switch_channel_set_state_flag`: the flag is set at the next change of the running state. */
  function Defer(c: Chan, f: Flag): (d: Chan) {
    c.(pending := c.pending[0 := 1][f := 1])
  }

  /** `switch_channel_clear_state_flag`. */
  function Undefer(c: Chan, f: Flag): (d: Chan) {
    c.(pending := c.pending[f := 0])
  }

  /** All deferred flags at once. */
  function Raised(flags: seq<nat>, pending: seq<nat>): (r: seq<nat>)
    requires |flags| == |pending|
    ensures |r| == |flags|
  {
    seq(|flags|, i requires 0 <= i < |flags| => if i > 0 && pending[i] != 0 then 1 else flags[i])
  }

  function Zeros(n: nat): (r: seq<nat>)
    ensures |r| == n && forall i :: 0 <= i < n ==> r[i] == 0
  {
    seq(n, i => 0)
  }

  function RaiseDeferred(c: Chan): (d: Chan) {
    if c.pending[0] != 0 then c.(flags := Raised(c.flags, c.pending), pending := Zeros(FLAG_MAX)) else c
  }

  /** `switch_channel_perform_set_running_state`. */
  function SetRunning(c: Chan, s: State, now: nat): (d: Chan) {
    var c2 := ClearFlag(RaiseDeferred(c), TAGGED, now).(running := s);
    if c2.inbound && Live(s) then
      if s == Routing then SetCallstate(c2, Ringing)
      else if Set(c2, ANSWERED) then SetCallstate(c2, Active)
      else if Set(c2, EARLY_MEDIA) then SetCallstate(c2, Early)
      else c2
    else c2
  }

  datatype Op =
    | OpSetState(s: State)
    | OpHangup(cause: nat)
    | OpAnswer
    | OpHold(on: bool)
    | OpSetFlag(f: Flag, v: nat)
    | OpClearFlag(f: Flag)
    | OpDefer(f: Flag)
    | OpUndefer(f: Flag)
    | OpRun(s: State)
    | OpCallstate(cs: CallState)

  function Step(c: Chan, op: Op, now: nat): (r: Option<Chan>) {
    match op
    case OpSetState(s) => SetState(c, s)
    case OpHangup(cause) => Some(PerformHangup(c, cause, now))
    case OpAnswer => Some(MarkAnswered(c, now))
    case OpHold(on) => Some(MarkHold(c, on, now))
    case OpSetFlag(f, v) => Some(SetFlag(c, f, v, now))
    case OpClearFlag(f) => Some(ClearFlag(c, f, now))
    case OpDefer(f) => Some(Defer(c, f))
    case OpUndefer(f) => Some(Undefer(c, f))
    case OpRun(s) => Some(SetRunning(c, s, now))
    case OpCallstate(cs) => Some(SetCallstate(c, cs))
  }

  /** `switch_channel_alloc` and `switch_channel_init`. */
  function Fresh(inbound: bool): (c: Chan) {
    Chan(New, NoState, 0, false, Zeros(FLAG_MAX), Zeros(FLAG_MAX), Down, inbound, [], 0, 0)
  }

  // ---- runs

  /** A step with its clock reading. */
  datatype Event = Event(op: Op, now: nat)

  /** States a run goes through without the program stopping itself. */
  ghost predicate Trace(states: seq<Chan>, events: seq<Event>) {
    && |states| == |events| + 1
    && (forall i :: 0 <= i < |events| ==> Step(states[i], events[i].op, events[i].now) == Some(states[i + 1]))
  }
}
