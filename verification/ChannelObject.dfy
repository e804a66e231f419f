/** The channel object: its calls change its fields in place and do what the state machine says. */
module ChannelObject {
  import opened CStrings
  import opened ChannelModel

  class Channel {
    var state: State
    var runningState: State
    var hangupCause: nat
    var opaqueHangup: bool
    const flags: array<nat>
    const stateFlags: array<nat>
    var callstate: CallState
    const inbound: bool
    var holds: seq<Hold>
    var lastHold: nat
    var holdAccum: int

    ghost predicate Valid()
      reads this
    {
      flags.Length == stateFlags.Length == FLAG_MAX && flags != stateFlags
    }

    ghost function View(): (c: Chan)
      requires Valid()
      reads this, flags, stateFlags
    {
      Chan(state, runningState, hangupCause, opaqueHangup, flags[..], stateFlags[..], callstate, inbound, holds,
        lastHold, holdAccum)
    }

    /** `switch_channel_alloc` and `switch_channel_init`. */
    constructor (isInbound: bool)
      ensures Valid() && View() == Fresh(isInbound) && fresh(flags) && fresh(stateFlags)
    {
      state, runningState, hangupCause, opaqueHangup := New, NoState, 0, false;
      callstate, inbound, holds, lastHold, holdAccum := Down, isInbound, [], 0, 0;
      flags := new nat[FLAG_MAX](_ => 0);
      stateFlags := new nat[FLAG_MAX](_ => 0);
      new;
      assert flags[..] == ChannelModel.Zeros(FLAG_MAX) && stateFlags[..] == ChannelModel.Zeros(FLAG_MAX);
    }

    /** `switch_channel_perform_set_callstate`. */
    method SetCallstate(cs: CallState)
      requires Valid()
      modifies `callstate
      ensures Valid() && View() == ChannelModel.SetCallstate(old(View()), cs)
    {
      if callstate == cs || callstate == HungUp {
        return;
      }
      callstate := cs;
    }

    /** The transition table of `switch_channel_perform_set_state`, case by case. */
    method Transition(last: State, s: State) returns (ok: bool)
      requires last != s && s != NoState && last != NoState && !(!Live(last) && Rank(s) < Rank(last))
      ensures ok <==> Allowed(last, s)
    {
      match last {
        case New => ok := true;
        case Reset => ok := true;
        case Init =>
          ok := s in {ExchangeMedia, SoftExecute, Routing, Execute, Park, ConsumeMedia, Hibernate, Reset};
        case ExchangeMedia =>
          ok := s in {SoftExecute, Routing, Execute, Park, ConsumeMedia, Hibernate, Reset};
        case SoftExecute =>
          ok := s in {ExchangeMedia, Routing, Execute, Park, ConsumeMedia, Hibernate, Reset};
        case Park =>
          ok := s in {ExchangeMedia, Routing, Execute, SoftExecute, Hibernate, Reset, ConsumeMedia};
        case ConsumeMedia =>
          ok := s in {ExchangeMedia, Routing, Execute, SoftExecute, Hibernate, Reset, Park};
        case Hibernate =>
          ok := s in {ExchangeMedia, Init, Routing, Execute, SoftExecute, Park, ConsumeMedia, Reset};
        case Routing =>
          ok := s in {ExchangeMedia, Execute, SoftExecute, Park, ConsumeMedia, Hibernate, Reset};
        case Execute =>
          ok := s in {ExchangeMedia, SoftExecute, Routing, Park, ConsumeMedia, Hibernate, Reset};
        case Hangup => ok := s in {Reporting, Destroy};
        case Reporting => ok := s == Destroy;
        case Destroy => ok := false;
      }
    }

    /** `switch_channel_perform_set_state`: a call that would stop the program is reported instead. */
    method SetState(s: State) returns (stopped: bool)
      requires Valid()
      modifies `state, `hangupCause
      ensures Valid() && stopped == ChannelModel.SetState(old(View()), s).None?
      ensures if stopped then View() == old(View()) else Some(View()) == ChannelModel.SetState(old(View()), s)
    {
      hide Allowed;
      var last := state;
      if Rank(s) > Rank(Destroy) || Rank(last) > Rank(Destroy) {
        return true;
      }
      if last == s {
        return false;
      }
      if Rank(last) >= Rank(Hangup) && Rank(s) < Rank(last) {
        return false;
      }
      var ok := Transition(last, s);
      if ok {
        state := s;
        if s == Hangup && hangupCause == 0 {
          hangupCause := NORMAL_CLEARING;
        }
        return false;
      }
      return Rank(state) < Rank(Hangup);
    }

    /** `switch_channel_set_flag_value`. */
    method SetFlag(f: Flag, value: nat, now: nat)
      requires Valid()
      modifies this, flags
      ensures Valid() && View() == ChannelModel.SetFlag(old(View()), f, value, now)
    {
      var held := f == LEG_HOLDING && flags[f] == 0 && flags[ANSWERED] != 0;
      if flags[f] != value {
        flags[f] := value;
      }
      assert flags[..] == old(flags[..])[f := value];
      if f == ORIGINATOR && flags[ANSWERED] != 0 && Rank(state) < Rank(Hangup) {
        SetCallstate(RingWait);
      }
      if held {
        SetCallstate(Held);
        lastHold := now;
        holds := [Hold(now, 0)] + holds;
      }
    }

    /** `switch_channel_clear_flag`. */
    method ClearFlag(f: Flag, now: nat)
      requires Valid()
      modifies this, flags
      ensures Valid() && View() == ChannelModel.ClearFlag(old(View()), f, now)
    {
      hide ChannelModel.Unhold;
      var active := f == LEG_HOLDING && flags[f] != 0 && flags[ANSWERED] != 0;
      if f == VIDEO_PASSIVE && flags[VIDEO] != 0 {
        flags[VIDEO_READY] := 1;
        assert flags[..] == old(flags[..])[VIDEO_READY := 1];
      }
      ghost var before := flags[..];
      flags[f] := 0;
      assert flags[..] == before[f := 0];
      if active {
        Unhold(now);
      }
      if f == ORIGINATOR && flags[ANSWERED] != 0 && Rank(state) < Rank(Hangup) {
        SetCallstate(Active);
      }
    }

    /** The end of a hold in `switch_channel_clear_flag`. */
    method Unhold(now: nat)
      requires Valid()
      modifies `callstate, `holds, `holdAccum
      ensures Valid() && View() == ChannelModel.Unhold(old(View()), now)
    {
      SetCallstate(Unheld);
      if lastHold != 0 {
        holdAccum := holdAccum + (now - lastHold);
      }
      if holds != [] {
        holds := holds[0 := holds[0].(off := now)];
      }
      if flags[PROXY_MODE] != 0 && flags[BRIDGED] != 0 {
        SetCallstate(Active);
      }
    }

    /** `switch_channel_mark_hold`. */
    method MarkHold(on: bool, now: nat)
      requires Valid()
      modifies this, flags
      ensures Valid() && View() == ChannelModel.MarkHold(old(View()), on, now)
    {
      hide ChannelModel.SetFlag, ChannelModel.ClearFlag;
      if on == (flags[LEG_HOLDING] != 0) {
        return;
      }
      if on {
        SetFlag(LEG_HOLDING, 1, now);
      } else {
        ClearFlag(LEG_HOLDING, now);
      }
    }

    /** `switch_channel_perform_hangup`. */
    method PerformHangup(cause: nat, now: nat)
      requires Valid()
      modifies this, flags
      ensures Valid() && View() == ChannelModel.PerformHangup(old(View()), cause, now)
    {
      hide ChannelModel.SetFlag, ChannelModel.ClearFlag, ChannelModel.MarkHold;
      var ok := false;
      if !opaqueHangup {
        opaqueHangup := true;
        ok := true;
      }
      if flags[LEG_HOLDING] != 0 {
        MarkHold(false, now);
        SetFlag(HANGUP_HELD, 1, now);
      }
      if !ok {
        return;
      }
      ClearFlag(BLOCK_STATE, now);
      if Rank(state) < Rank(Hangup) {
        if holds != [] && holds[0].off == 0 {
          holds := holds[0 := holds[0].(off := now)];
        }
        state := Hangup;
        hangupCause := cause;
      }
    }

    /** `switch_channel_perform_mark_answered`. */
    method MarkAnswered(now: nat) returns (answered: bool)
      requires Valid()
      modifies this, flags
      ensures Valid() && View() == ChannelModel.MarkAnswered(old(View()), now)
      ensures answered <==> old(hangupCause) == 0 && Live(old(state))
    {
      hide ChannelModel.SetFlag;
      if hangupCause != 0 || Rank(state) >= Rank(Hangup) {
        return false;
      }
      if flags[ANSWERED] != 0 {
        return true;
      }
      SetFlag(ANSWERED, 1, now);
      SetCallstate(Active);
      return true;
    }

    /** `switch_channel_set_state_flag`. */
    method SetStateFlag(f: Flag)
      requires Valid()
      modifies stateFlags
      ensures Valid() && View() == Defer(old(View()), f)
    {
      stateFlags[0] := 1;
      stateFlags[f] := 1;
      assert stateFlags[..] == old(stateFlags[..])[0 := 1][f := 1];
    }

    /** `switch_channel_clear_state_flag`. */
    method ClearStateFlag(f: Flag)
      requires Valid()
      modifies stateFlags
      ensures Valid() && View() == Undefer(old(View()), f)
    {
      stateFlags[f] := 0;
      assert stateFlags[..] == old(stateFlags[..])[f := 0];
    }

    /** The loop that raises the deferred flags. */
    method RaiseStateFlags()
      requires Valid()
      modifies flags, stateFlags
      ensures Valid() && View() == RaiseDeferred(old(View()))
    {
      if stateFlags[0] != 0 {
        for x := 1 to FLAG_MAX
          invariant forall i :: 0 <= i < FLAG_MAX ==>
            flags[i] == if 0 < i < x && old(stateFlags[i]) != 0 then 1 else old(flags[i])
          invariant forall i :: 0 <= i < FLAG_MAX ==> stateFlags[i] == if 0 < i < x then 0 else old(stateFlags[i])
        {
          if stateFlags[x] != 0 {
            flags[x] := 1;
            stateFlags[x] := 0;
          }
        }
        stateFlags[0] := 0;
        assert flags[..] == Raised(old(flags[..]), old(stateFlags[..]));
        assert stateFlags[..] == ChannelModel.Zeros(FLAG_MAX);
      }
    }

    /** `switch_channel_perform_set_running_state`. */
    method SetRunningState(s: State, now: nat)
      requires Valid()
      modifies this, flags, stateFlags
      ensures Valid() && View() == SetRunning(old(View()), s, now)
    {
      hide ChannelModel.ClearFlag, RaiseDeferred;
      RaiseStateFlags();
      ClearFlag(TAGGED, now);
      runningState := s;
      if Rank(s) <= Rank(Destroy) && inbound && Rank(s) < Rank(Hangup) {
        if s == Routing {
          SetCallstate(Ringing);
        } else if flags[ANSWERED] != 0 {
          SetCallstate(Active);
        } else if flags[EARLY_MEDIA] != 0 {
          SetCallstate(Early);
        }
      }
    }
  }
}
