/** The device table itself, changed in place by the calls of the channels. */
module DeviceTable {
  import opened ChannelModel
  import opened DeviceModel

  /** `fetch_device_stats`: one walk along the legs. */
  method FetchStats(legs: seq<Leg>) returns (s: Stats)
    ensures s == Tally(legs)
  {
    s := NO_STATS;
    for i := 0 to |legs|
      invariant s == Tally(legs[..i])
    {
      var l := legs[i];
      assert legs[..i + 1][..i] == legs[..i];
      s := s.(total := Inc(s.total, l.inbound));
      if !l.hup {
        s := s.(offhook := Inc(s.offhook, l.inbound));
        if l.callstate == Held {
          s := s.(held := Inc(s.held, l.inbound));
        } else if l.callstate == Unheld {
          s := s.(unheld := Inc(s.unheld, l.inbound));
        } else if l.callstate == Early {
          s := s.(early := Inc(s.early, l.inbound));
        } else if l.callstate == Ringing {
          s := s.(ringing := Inc(s.ringing, l.inbound));
        } else if l.callstate == RingWait {
          s := s.(ringWait := s.ringWait + 1);
        } else if l.callstate == HungUp {
          s := s.(hup := Inc(s.hup, l.inbound));
        } else if l.callstate != Down {
          s := s.(active := Inc(s.active, l.inbound));
        }
      } else {
        s := s.(hup := Inc(s.hup, l.inbound));
      }
    }
    assert legs[..|legs|] == legs;
  }

  /** The new state of a device from its counters. */
  method Decide(state: DeviceState, s: Stats) returns (d: DeviceState)
    ensures d == NextState(state, s)
  {
    d := state;
    if d != DevHangup {
      if s.offhook.all == 0 || s.hup.all == s.total.all {
        d := DevHangup;
      } else {
        if s.active.all == 0 {
          if s.ringing.outgoing + s.early.outgoing > 0 || s.ringWait > 0 {
            d := DevRinging;
          } else {
            if s.held.all > 0 {
              d := DevHeld;
            } else if s.unheld.all > 0 {
              d := DevUnheld;
            } else {
              d := DevDown;
            }
          }
        } else if s.active.all == 1 {
          d := DevActive;
        } else {
          d := DevActiveMulti;
        }
      }
    }
  }

  /** The clocks in `switch_channel_check_device_state`. */
  method RunClocks(rec: Record, cs: CallState, now: nat) returns (r: Record)
    ensures r == Cleared(Stopped(Started(rec, now), cs, now), now)
  {
    r := StartClocks(rec, now);
    r := StopClocks(r, cs, now);
    r := ResetClocks(r, now);
  }

  method StartClocks(rec: Record, now: nat) returns (r: Record)
    ensures r == Started(rec, now)
  {
    r := rec;
    if r.callStart == 0 {
      r := r.(callStart := now);
    }
    match r.state {
      case DevRinging =>
        if r.ringStart == 0 {
          r := r.(ringStart := now, ringStop := 0);
        }
      case DevActive | DevActiveMulti =>
        if r.activeStart == 0 {
          r := r.(activeStart := now, activeStop := 0);
        }
      case DevHeld =>
        if r.holdStart == 0 {
          r := r.(holdStart := now, holdStop := 0);
        }
      case _ =>
    }
  }

  method StopClocks(rec: Record, cs: CallState, now: nat) returns (r: Record)
    ensures r == Stopped(rec, cs, now)
  {
    r := rec;
    if cs != Unheld && r.activeStart != 0 && r.state != DevActive && r.state != DevActiveMulti {
      r := r.(activeStop := now);
    }
    if r.ringStart != 0 && r.ringStop == 0 && r.state != DevRinging {
      r := r.(ringStop := now);
    }
    if r.holdStart != 0 && r.holdStop == 0 && r.state != DevHeld {
      r := r.(holdStop := now);
    }
  }

  method ResetClocks(rec: Record, now: nat) returns (r: Record)
    ensures r == Cleared(rec, now)
  {
    r := rec;
    if r.activeStop != 0 {
      r := r.(activeStart := 0, activeStop := 0);
      if r.state == DevActive || r.state == DevActiveMulti {
        r := r.(activeStart := now);
      }
    }
    if r.holdStop != 0 {
      r := r.(holdStart := 0, holdStop := 0);
      if r.state == DevHeld {
        r := r.(holdStart := now);
      }
    }
    if r.ringStop != 0 {
      r := r.(ringStart := 0, ringStop := 0);
      if r.state == DevRinging {
        r := r.(ringStart := now);
      }
    }
  }

  /** `switch_channel_check_device_state`. */
  method CheckDeviceState(rec: Record, cs: CallState, now: nat) returns (r: Record)
    ensures r == Check(rec, cs, now)
  {
    hide Started, Stopped, Cleared, NextState, Tally;
    var stats := FetchStats(rec.legs);
    var state := Decide(rec.state, stats);
    r := rec.(state := state);
    if (r.state == DevDown && r.lastState == DevDown) || (r.state == DevHangup && r.lastState == DevHangup) {
      return;
    }
    r := RunClocks(r, cs, now);
    r := r.(lastState := r.state);
  }

  class Table {
    var hash: map<string, nat>
    var records: seq<Record>
    var node: map<ChannelId, (nat, nat)>
    var last: set<ChannelId>

    ghost function View(): (g: Registry)
      reads this
    {
      Registry(hash, records, node, last)
    }

    /** `switch_channel_global_init`. */
    constructor ()
      ensures View() == Registry(map[], [], map[], {})
    {
      hash, records, node, last := map[], [], map[], {};
    }

    /** `switch_channel_set_device_id`. */
    method SetDeviceId(ch: ChannelId, id: string, inbound: bool, cs: CallState, now: nat) returns (ok: bool)
      requires DeviceModel.Linked(View())
      modifies this
      ensures ok <==> ch !in old(node)
      ensures View() == DeviceModel.SetDeviceId(old(View()), ch, id, Leg(inbound, cs, false), now)
    {
      hide Check;
      if ch in node {
        return false;
      }
      if id !in hash {
        records := records + [NewRecord(id)];
        hash := hash[id := |records| - 1];
      }
      var r := hash[id];
      var rec := records[r];
      node := node[ch := (r, |rec.legs|)];
      rec := rec.(legs := rec.legs + [Leg(inbound, cs, false)], refs := rec.refs + 1);
      rec := CheckDeviceState(rec, cs, now);
      records := records[r := rec];
      assert hash == old(hash)[id := r];
      return true;
    }

    /** The device's part of `switch_channel_perform_set_callstate`. */
    method SetCallstate(ch: ChannelId, cs: CallState, now: nat)
      requires DeviceModel.Linked(View()) && (ch in node ==> Attached(View(), ch))
      modifies `records
      ensures View() == SetLegState(old(View()), ch, cs, now)
    {
      hide Check;
      if ch !in node {
        return;
      }
      var (r, k) := node[ch];
      var rec := records[r];
      var before := rec.legs[k].callstate;
      if before == cs || before == HungUp {
        return;
      }
      rec := rec.(legs := rec.legs[k := rec.legs[k].(callstate := cs)]);
      rec := CheckDeviceState(rec, cs, now);
      records := records[r := rec];
    }

    /** `switch_channel_process_device_hangup`. */
    method ProcessDeviceHangup(ch: ChannelId, cs: CallState, now: nat)
      requires DeviceModel.Linked(View()) && (ch in node ==> Attached(View(), ch))
      modifies this
      ensures View() == ProcessHangup(old(View()), ch, cs, now)
    {
      hide Check, Tally;
      if ch !in node {
        return;
      }
      var (r, k) := node[ch];
      var rec := CheckDeviceState(records[r], cs, now);
      rec := rec.(legs := rec.legs[k := rec.legs[k].(hup := true)]);
      var stats := FetchStats(rec.legs);
      if stats.offhook.all == 0 {
        hash := hash - {rec.id};
        last := last + {ch};
      } else {
        node := node - {ch};
      }
      rec := rec.(refs := rec.refs - 1);
      records := records[r := rec];
    }
  }
}
