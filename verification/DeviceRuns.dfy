/** What every run of the device registry keeps. */
module DeviceRuns {
  import opened ChannelModel
  import opened DeviceModel

  lemma OffhookSnoc(legs: seq<Leg>, l: Leg)
    ensures Offhook(legs + [l]) == Offhook(legs) + if l.hup then 0 else 1
  {
    assert (legs + [l])[..|legs|] == legs;
  }

  lemma {:induction false} OffhookUpdate(legs: seq<Leg>, k: nat, l: Leg)
    requires k < |legs|
    ensures Offhook(legs[k := l]) == Offhook(legs) - (if legs[k].hup then 0 else 1) + (if l.hup then 0 else 1)
  {
    var n := |legs| - 1;
    if k == n {
      assert legs[k := l][..n] == legs[..n];
    } else {
      OffhookUpdate(legs[..n], k, l);
      assert legs[k := l][..n] == legs[..n][k := l];
    }
  }

  lemma OffhookPositive(legs: seq<Leg>, k: nat)
    requires k < |legs| && !legs[k].hup
    ensures Offhook(legs) > 0
  {
    OffhookUpdate(legs, k, legs[k].(hup := true));
    assert legs[k := legs[k].(hup := true)][k := legs[k]] == legs;
  }

  lemma CheckGood(r: Record, cs: CallState, now: nat)
    requires r.refs == Offhook(r.legs) && Clocks(r) && now > 0
    ensures Good(Check(r, cs, now))
  {
    hide Check, Clocks;
    CheckClocks(r, cs, now);
  }

  /** The parts of the invariant that speak of one channel or one record. */
  ghost predicate RecordOk(g: Registry, r: nat)
    requires r < |g.records|
  {
    Good(g.records[r]) && (InHash(g, r) <==> Offhook(g.records[r].legs) > 0)
  }

  ghost predicate ChannelOk(g: Registry, ch: ChannelId)
    requires Attached(g, ch)
  {
    g.records[g.node[ch].0].legs[g.node[ch].1].hup <==> ch in g.last
  }

  lemma InvParts(g: Registry)
    requires Linked(g)
    requires forall r :: 0 <= r < |g.records| ==> RecordOk(g, r)
    requires forall ch :: ch in g.node ==> ChannelOk(g, ch)
    ensures Inv(g)
  {
    hide Good, Offhook;
    forall r | 0 <= r < |g.records|
      ensures Good(g.records[r]) && (InHash(g, r) <==> Offhook(g.records[r].legs) > 0)
    {
      assert RecordOk(g, r);
    }
    forall ch | ch in g.node
      ensures g.records[g.node[ch].0].legs[g.node[ch].1].hup <==> ch in g.last
    {
      assert ChannelOk(g, ch);
    }
  }

  /** Attaching a channel to a device. */
  lemma AttachKeeps(g: Registry, ch: ChannelId, id: string, l: Leg, now: nat)
    requires Inv(g) && !l.hup && now > 0
    ensures Inv(SetDeviceId(g, ch, id, l, now))
  {
    if ch !in g.node {
      AttachRecords(g, ch, id, l, now);
      AttachLinks(g, ch, id, l, now);
      AttachChannels(g, ch, id, l, now);
      InvParts(SetDeviceId(g, ch, id, l, now));
    }
  }

  lemma AttachRecords(g: Registry, ch: ChannelId, id: string, l: Leg, now: nat)
    requires Inv(g) && !l.hup && now > 0 && ch !in g.node
    ensures var h := SetDeviceId(g, ch, id, l, now);
      forall i :: 0 <= i < |h.records| ==> RecordOk(h, i)
  {
    hide Check, Good, Clocks, Offhook;
    var h := SetDeviceId(g, ch, id, l, now);
    var r := if id in g.hash then g.hash[id] else |g.records|;
    var rec := if id in g.hash then g.records[r] else NewRecord(id);
    AttachedGood(rec, l, now);
    OffhookSnoc(rec.legs, l);
    assert h.records[r].legs == rec.legs + [l] && h.records[r].id == id;
    assert forall i :: 0 <= i < |g.records| && i != r ==> h.records[i] == g.records[i];
    forall i | 0 <= i < |h.records|
      ensures RecordOk(h, i)
    {
      if i != r {
        assert RecordOk(g, i);
      }
    }
  }

  /** What attaching a channel changes. */
  lemma AttachShape(g: Registry, ch: ChannelId, id: string, l: Leg, now: nat)
    requires Linked(g) && ch !in g.node
    ensures var h := SetDeviceId(g, ch, id, l, now);
      var r := if id in g.hash then g.hash[id] else |g.records|;
      && r < |h.records| && |g.records| <= |h.records| && h.records[r].id == id
      && (forall i :: 0 <= i < |g.records| ==>
            h.records[i].id == g.records[i].id && g.records[i].legs <= h.records[i].legs)
      && h.node.Keys == g.node.Keys + {ch} && (forall c :: c in g.node ==> h.node[c] == g.node[c])
      && h.node[ch].0 == r && h.node[ch].1 < |h.records[r].legs| && h.records[r].legs[h.node[ch].1] == l
      && (r < |g.records| ==> h.node[ch].1 == |g.records[r].legs|)
      && h.hash == g.hash[id := r] && h.last == g.last
  {
    hide Check;
  }

  lemma AttachLinks(g: Registry, ch: ChannelId, id: string, l: Leg, now: nat)
    requires Linked(g) && ch !in g.node
    ensures Linked(SetDeviceId(g, ch, id, l, now))
  {
    hide SetDeviceId;
    var h := SetDeviceId(g, ch, id, l, now);
    AttachShape(g, ch, id, l, now);
    forall c | c in h.node
      ensures Attached(h, c)
    {
      assert c != ch ==> Attached(g, c);
    }
    forall a, b | a in h.node && b in h.node && a != b
      ensures h.node[a] != h.node[b]
    {
      assert a != ch ==> Attached(g, a);
      assert b != ch ==> Attached(g, b);
    }
  }

  lemma AttachChannels(g: Registry, ch: ChannelId, id: string, l: Leg, now: nat)
    requires Inv(g) && !l.hup && ch !in g.node
    ensures var h := SetDeviceId(g, ch, id, l, now);
      Linked(h) && forall c :: c in h.node ==> ChannelOk(h, c)
  {
    hide SetDeviceId, Good, Offhook;
    var h := SetDeviceId(g, ch, id, l, now);
    AttachShape(g, ch, id, l, now);
    AttachLinks(g, ch, id, l, now);
    forall c | c in h.node
      ensures ChannelOk(h, c)
    {
      if c != ch {
        assert Attached(g, c) && ChannelOk(g, c);
      }
    }
  }

  lemma AttachedGood(r: Record, l: Leg, now: nat)
    requires (Good(r) || r == NewRecord(r.id)) && !l.hup && now > 0
    ensures Good(Check(AddLeg(r, l), l.callstate, now))
  {
    hide Check;
    OffhookSnoc(r.legs, l);
    CheckGood(AddLeg(r, l), l.callstate, now);
  }

  /** A change of call state. */
  lemma LegStateKeeps(g: Registry, ch: ChannelId, cs: CallState, now: nat)
    requires Inv(g) && now > 0 && (ch in g.node ==> Attached(g, ch))
    ensures Inv(SetLegState(g, ch, cs, now))
  {
    hide Check, Good, Clocks, Offhook;
    var h := SetLegState(g, ch, cs, now);
    if h != g {
      var (r, k) := g.node[ch];
      LegStateGood(g.records[r], k, cs, now);
      forall i | 0 <= i < |h.records|
        ensures RecordOk(h, i)
      {
        assert RecordOk(g, i);
      }
      forall c | c in h.node
        ensures Attached(h, c) && ChannelOk(h, c)
      {
        assert Attached(g, c) && ChannelOk(g, c);
      }
      InvParts(h);
    }
  }

  lemma LegStateGood(r: Record, k: nat, cs: CallState, now: nat)
    requires Good(r) && k < |r.legs| && now > 0
    ensures var s := r.(legs := r.legs[k := r.legs[k].(callstate := cs)]);
      Good(Check(s, cs, now)) && Offhook(s.legs) == Offhook(r.legs)
  {
    hide Check;
    var s := r.(legs := r.legs[k := r.legs[k].(callstate := cs)]);
    OffhookUpdate(r.legs, k, r.legs[k].(callstate := cs));
    CheckGood(s, cs, now);
  }

  /** A hangup of a channel that was not already its device's last. */
  lemma HangupKeeps(g: Registry, ch: ChannelId, cs: CallState, now: nat)
    requires Inv(g) && now > 0 && (ch in g.node ==> Attached(g, ch) && ch !in g.last)
    ensures Inv(ProcessHangup(g, ch, cs, now))
  {
    if ch in g.node {
      var h := ProcessHangup(g, ch, cs, now);
      HangupRecords(g, ch, cs, now);
      HangupChannels(g, ch, cs, now);
      InvParts(h);
    }
  }

  lemma HangupRecords(g: Registry, ch: ChannelId, cs: CallState, now: nat)
    requires Inv(g) && now > 0 && Attached(g, ch) && ch !in g.last
    ensures var h := ProcessHangup(g, ch, cs, now);
      forall i :: 0 <= i < |h.records| ==> RecordOk(h, i)
  {
    hide Check, Good, Clocks, Offhook, Tally;
    var h := ProcessHangup(g, ch, cs, now);
    var (r, k) := g.node[ch];
    assert ChannelOk(g, ch) && RecordOk(g, r);
    HangupGood(g.records[r], k, cs, now);
    assert forall i :: 0 <= i < |g.records| && i != r ==> h.records[i] == g.records[i];
    forall i | 0 <= i < |h.records|
      ensures RecordOk(h, i)
    {
      assert RecordOk(g, i);
    }
  }

  /** What a hangup of an attached channel changes. */
  lemma HangupShape(g: Registry, ch: ChannelId, cs: CallState, now: nat)
    requires Attached(g, ch)
    ensures var h := ProcessHangup(g, ch, cs, now);
      var (r, k) := g.node[ch];
      && |h.records| == |g.records|
      && (forall i :: 0 <= i < |g.records| ==>
            h.records[i].id == g.records[i].id && |h.records[i].legs| == |g.records[i].legs|)
      && (forall i, j :: 0 <= i < |g.records| && 0 <= j < |g.records[i].legs| ==>
            (h.records[i].legs[j].hup <==> (i, j) == (r, k) || g.records[i].legs[j].hup))
      && (if h.node == g.node then h.last == g.last + {ch} && h.hash == g.hash - {g.records[r].id}
          else h.node == g.node - {ch} && h.last == g.last && h.hash == g.hash)
  {
    hide Check, Tally;
  }

  lemma HangupChannels(g: Registry, ch: ChannelId, cs: CallState, now: nat)
    requires Inv(g) && now > 0 && Attached(g, ch) && ch !in g.last
    ensures var h := ProcessHangup(g, ch, cs, now);
      Linked(h) && forall c :: c in h.node ==> ChannelOk(h, c)
  {
    hide ProcessHangup, Good, Offhook;
    var h := ProcessHangup(g, ch, cs, now);
    HangupShape(g, ch, cs, now);
    forall c | c in h.node
      ensures Attached(h, c) && ChannelOk(h, c)
    {
      assert Attached(g, c) && ChannelOk(g, c);
    }
  }

  lemma HangupGood(r: Record, k: nat, cs: CallState, now: nat)
    requires Good(r) && k < |r.legs| && !r.legs[k].hup && now > 0
    ensures var c := Check(r, cs, now);
      var d := c.(legs := c.legs[k := c.legs[k].(hup := true)], refs := c.refs - 1);
      Good(d) && Offhook(d.legs) == Offhook(r.legs) - 1 && Tally(d.legs).offhook.all == Offhook(d.legs) &&
        Offhook(r.legs) > 0
  {
    hide Check;
    CheckGood(r, cs, now);
    var c := Check(r, cs, now);
    OffhookUpdate(r.legs, k, r.legs[k].(hup := true));
    OffhookPositive(r.legs, k);
    TallyPartition(c.legs[k := c.legs[k].(hup := true)]);
  }

  /** A second hangup of a device's last channel always spoils the registry: the references no longer match. */
  lemma SecondHangupBreaks(g: Registry, ch: ChannelId, cs: CallState, now: nat)
    requires Inv(g) && now > 0 && ch in g.node && Attached(g, ch) && ch in g.last
    ensures !Inv(ProcessHangup(g, ch, cs, now))
  {
    hide Check, Clocks;
    var h := ProcessHangup(g, ch, cs, now);
    var (r, k) := g.node[ch];
    assert ChannelOk(g, ch);
    OffhookUpdate(g.records[r].legs, k, g.records[r].legs[k].(hup := true));
    assert h.records[r].refs == Offhook(h.records[r].legs) - 1;
    assert !Good(h.records[r]);
  }

  /**
   * So a hangup keeps the registry right exactly when the channel is not attached, or was not already its device's
   * last.
   */
  lemma HangupExactly(g: Registry, ch: ChannelId, cs: CallState, now: nat)
    requires Inv(g) && now > 0 && (ch in g.node ==> Attached(g, ch))
    ensures Inv(ProcessHangup(g, ch, cs, now)) <==> !(ch in g.node && ch in g.last)
  {
    hide Inv, ProcessHangup;
    if ch in g.node && ch in g.last {
      SecondHangupBreaks(g, ch, cs, now);
    } else {
      HangupKeeps(g, ch, cs, now);
    }
  }

  // ---- whole runs

  datatype DeviceOp =
    | OpAttach(ch: ChannelId, id: string, inbound: bool, cs: CallState)
    | OpLegState(ch: ChannelId, cs: CallState)
    | OpDeviceHangup(ch: ChannelId, cs: CallState)

  datatype DeviceEvent = DeviceEvent(op: DeviceOp, now: nat)

  ghost function DeviceStep(g: Registry, e: DeviceEvent): (h: Registry)
    requires Linked(g)
  {
    match e.op
    case OpAttach(ch, id, inbound, cs) => SetDeviceId(g, ch, id, Leg(inbound, cs, false), e.now)
    case OpLegState(ch, cs) =>
      assert ch in g.node ==> Attached(g, ch);
      SetLegState(g, ch, cs, e.now)
    case OpDeviceHangup(ch, cs) =>
      assert ch in g.node ==> Attached(g, ch);
      ProcessHangup(g, ch, cs, e.now)
  }

  /** No channel that was its device's last hangs up again. */
  ghost predicate Once(g: Registry, e: DeviceEvent) {
    e.now > 0 && (e.op.OpDeviceHangup? && e.op.ch in g.node ==> e.op.ch !in g.last)
  }

  ghost predicate DeviceTrace(states: seq<Registry>, events: seq<DeviceEvent>) {
    && |states| == |events| + 1
    && states[0] == Registry(map[], [], map[], {})
    && (forall i :: 0 <= i < |events| ==> Once(states[i], events[i]))
    && (forall i :: 0 <= i < |events| && Linked(states[i]) ==> states[i + 1] == DeviceStep(states[i], events[i]))
  }

  lemma DeviceStepKeeps(g: Registry, e: DeviceEvent)
    requires Inv(g) && Once(g, e)
    ensures Inv(DeviceStep(g, e))
  {
    hide SetDeviceId, SetLegState, ProcessHangup;
    match e.op
    case OpAttach(ch, id, inbound, cs) => AttachKeeps(g, ch, id, Leg(inbound, cs, false), e.now);
    case OpLegState(ch, cs) =>
      assert ch in g.node ==> Attached(g, ch);
      LegStateKeeps(g, ch, cs, e.now);
    case OpDeviceHangup(ch, cs) =>
      assert ch in g.node ==> Attached(g, ch);
      HangupKeeps(g, ch, cs, e.now);
  }

  /** From the empty registry on, every state of every such run is right. */
  lemma {:induction false} RegistryRuns(states: seq<Registry>, events: seq<DeviceEvent>, i: nat)
    requires DeviceTrace(states, events) && i < |states|
    ensures Inv(states[i])
  {
    hide DeviceStep;
    if i > 0 {
      RegistryRuns(states, events, i - 1);
      DeviceStepKeeps(states[i - 1], events[i - 1]);
      assert states[i - 1 + 1] == DeviceStep(states[i - 1], events[i - 1]);
    }
  }
}
