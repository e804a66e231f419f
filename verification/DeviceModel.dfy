/** The registry of devices and the call legs on each of them. */
module DeviceModel {
  import opened ChannelModel

  // ---- legs and their counters

  /** One call leg of a device; `hup` once its channel has hung up. */
  datatype Leg = Leg(inbound: bool, callstate: CallState, hup: bool)

  datatype Count = Count(all: nat, incoming: nat, outgoing: nat)

  datatype Stats = Stats(
    total: Count, offhook: Count, held: Count, unheld: Count, early: Count, ringing: Count,
    ringWait: nat, active: Count, hup: Count)

  const NONE: Count := Count(0, 0, 0)
  const NO_STATS: Stats := Stats(NONE, NONE, NONE, NONE, NONE, NONE, 0, NONE, NONE)

  function Inc(c: Count, inbound: bool): (d: Count) {
    if inbound then Count(c.all + 1, c.incoming + 1, c.outgoing) else Count(c.all + 1, c.incoming, c.outgoing + 1)
  }

  /** One turn of the counting loop. */
  function Counted(s: Stats, l: Leg): (t: Stats) {
    var s1 := s.(total := Inc(s.total, l.inbound));
    if l.hup then s1.(hup := Inc(s1.hup, l.inbound))
    else
      var s2 := s1.(offhook := Inc(s1.offhook, l.inbound));
      match l.callstate
      case Held => s2.(held := Inc(s2.held, l.inbound))
      case Unheld => s2.(unheld := Inc(s2.unheld, l.inbound))
      case Early => s2.(early := Inc(s2.early, l.inbound))
      case Ringing => s2.(ringing := Inc(s2.ringing, l.inbound))
      case RingWait => s2.(ringWait := s2.ringWait + 1)
      case HungUp => s2.(hup := Inc(s2.hup, l.inbound))
      case Down => s2
      case _ => s2.(active := Inc(s2.active, l.inbound))
  }

  /** `fetch_device_stats`. */
  function Tally(legs: seq<Leg>): (s: Stats) {
    if legs == [] then NO_STATS else Counted(Tally(legs[..|legs| - 1]), legs[|legs| - 1])
  }

  /** What a leg counts as; a leg that is down counts as nothing but off the hook. */
  datatype Sort = IsHeld | IsUnheld | IsEarly | IsRinging | IsRingWait | IsActive | IsHup | IsIdle

  function SortOf(l: Leg): (k: Sort) {
    if l.hup then IsHup
    else match l.callstate
      case Held => IsHeld
      case Unheld => IsUnheld
      case Early => IsEarly
      case Ringing => IsRinging
      case RingWait => IsRingWait
      case HungUp => IsHup
      case Down => IsIdle
      case _ => IsActive
  }

  function Number(legs: seq<Leg>, k: Sort): (n: nat) {
    if legs == [] then 0 else Number(legs[..|legs| - 1], k) + if SortOf(legs[|legs| - 1]) == k then 1 else 0
  }

  function Offhook(legs: seq<Leg>): (n: nat)
    ensures n <= |legs|
  {
    if legs == [] then 0 else Offhook(legs[..|legs| - 1]) + if legs[|legs| - 1].hup then 0 else 1
  }

  predicate Even(c: Count) {
    c.all == c.incoming + c.outgoing
  }

  predicate AllEven(s: Stats) {
    && Even(s.total) && Even(s.offhook) && Even(s.held) && Even(s.unheld)
    && Even(s.early) && Even(s.ringing) && Even(s.active) && Even(s.hup)
  }

  /** The counter of a sort; idle legs have none. */
  function Counter(s: Stats, k: Sort): (n: nat) {
    match k
    case IsHeld => s.held.all
    case IsUnheld => s.unheld.all
    case IsEarly => s.early.all
    case IsRinging => s.ringing.all
    case IsRingWait => s.ringWait
    case IsActive => s.active.all
    case IsHup => s.hup.all
    case IsIdle => 0
  }

  function CounterSum(s: Stats): (n: nat) {
    s.held.all + s.unheld.all + s.early.all + s.ringing.all + s.ringWait + s.active.all + s.hup.all
  }

  /** One leg raises exactly the counter of its sort. */
  lemma CountedSort(s: Stats, l: Leg, k: Sort)
    ensures k != IsIdle ==> Counter(Counted(s, l), k) == Counter(s, k) + if SortOf(l) == k then 1 else 0
  {
  }

  lemma CountedStep(s: Stats, l: Leg)
    ensures var t := Counted(s, l);
      && t.total.all == s.total.all + 1 && t.offhook.all == s.offhook.all + (if l.hup then 0 else 1)
      && CounterSum(t) == CounterSum(s) + (if SortOf(l) == IsIdle then 0 else 1)
  {
  }

  lemma CountedEven(s: Stats, l: Leg)
    requires AllEven(s)
    ensures AllEven(Counted(s, l))
  {
  }

  /** Every counter counts its sort. */
  lemma {:induction false} TallyCounts(legs: seq<Leg>, k: Sort)
    requires k != IsIdle
    ensures Counter(Tally(legs), k) == Number(legs, k)
  {
    hide Counted, SortOf;
    if legs != [] {
      TallyCounts(legs[..|legs| - 1], k);
      CountedSort(Tally(legs[..|legs| - 1]), legs[|legs| - 1], k);
    }
  }

  /** The counters part the list, idle legs apart, and each is the sum of its two directions. */
  lemma {:induction false} TallyPartition(legs: seq<Leg>)
    ensures var s := Tally(legs);
      && s.total.all == |legs| && s.offhook.all == Offhook(legs)
      && |legs| == CounterSum(s) + Number(legs, IsIdle)
      && AllEven(s)
  {
    hide Counted, SortOf;
    if legs != [] {
      TallyPartition(legs[..|legs| - 1]);
      CountedStep(Tally(legs[..|legs| - 1]), legs[|legs| - 1]);
      CountedEven(Tally(legs[..|legs| - 1]), legs[|legs| - 1]);
    }
  }

  // ---- one device

  datatype DeviceState = DevDown | DevRinging | DevActive | DevActiveMulti | DevHeld | DevUnheld | DevHangup

  datatype Record = Record(
    id: string, legs: seq<Leg>, refs: int, state: DeviceState, lastState: DeviceState, callStart: nat,
    ringStart: nat, ringStop: nat, activeStart: nat, activeStop: nat, holdStart: nat, holdStop: nat)

  function NewRecord(id: string): (r: Record) {
    Record(id, [], 0, DevDown, DevDown, 0, 0, 0, 0, 0, 0, 0)
  }

  function NextState(old_: DeviceState, s: Stats): (d: DeviceState) {
    if old_ == DevHangup || s.offhook.all == 0 || s.hup.all == s.total.all then DevHangup
    else if s.active.all == 0 then
      if s.ringing.outgoing + s.early.outgoing > 0 || s.ringWait > 0 then DevRinging
      else if s.held.all > 0 then DevHeld
      else if s.unheld.all > 0 then DevUnheld
      else DevDown
    else if s.active.all == 1 then DevActive
    else DevActiveMulti
  }

  /** Some leg is of that sort. */
  predicate Any(legs: seq<Leg>, k: Sort) {
    exists i :: 0 <= i < |legs| && SortOf(legs[i]) == k
  }

  /** Some leg the device was called on is ringing or early, or some leg waits for one that rings. */
  predicate AnyRinging(legs: seq<Leg>) {
    exists i :: 0 <= i < |legs| && RingsDevice(legs[i])
  }

  predicate RingsDevice(l: Leg) {
    SortOf(l) == IsRingWait || (!l.inbound && (SortOf(l) == IsRinging || SortOf(l) == IsEarly))
  }

  lemma {:induction false} AnyCounts(legs: seq<Leg>, k: Sort)
    ensures Any(legs, k) <==> Number(legs, k) > 0
  {
    hide SortOf;
    if legs != [] {
      var t, l := legs[..|legs| - 1], legs[|legs| - 1];
      AnyCounts(t, k);
      assert forall i :: 0 <= i < |t| ==> t[i] == legs[i];
    }
  }

  lemma {:induction false} RingingCounts(legs: seq<Leg>)
    ensures var s := Tally(legs);
      AnyRinging(legs) <==> s.ringing.outgoing + s.early.outgoing > 0 || s.ringWait > 0
  {
    if legs != [] {
      var t, l := legs[..|legs| - 1], legs[|legs| - 1];
      RingingCounts(t);
      assert forall i :: 0 <= i < |t| ==> t[i] == legs[i];
      assert AnyRinging(legs) <==> AnyRinging(t) || RingsDevice(l);
      CountedRinging(Tally(t), l);
    }
  }

  lemma CountedRinging(s: Stats, l: Leg)
    ensures var t := Counted(s, l);
      t.ringing.outgoing + t.early.outgoing + t.ringWait ==
        s.ringing.outgoing + s.early.outgoing + s.ringWait + if RingsDevice(l) then 1 else 0
  {
  }

  lemma {:induction false} AllHupCounts(legs: seq<Leg>)
    ensures Number(legs, IsHup) <= |legs|
    ensures Number(legs, IsHup) == |legs| <==> forall i :: 0 <= i < |legs| ==> SortOf(legs[i]) == IsHup
  {
    hide SortOf;
    if legs != [] {
      var t := legs[..|legs| - 1];
      AllHupCounts(t);
      assert forall i :: 0 <= i < |t| ==> t[i] == legs[i];
    }
  }

  lemma {:induction false} NoneOffhook(legs: seq<Leg>)
    ensures Offhook(legs) == 0 <==> forall i :: 0 <= i < |legs| ==> legs[i].hup
  {
    if legs != [] {
      var t := legs[..|legs| - 1];
      NoneOffhook(t);
      assert forall i :: 0 <= i < |t| ==> t[i] == legs[i];
    }
  }

  /**
   * The state of a device, read off its legs: hung up for good once every leg has hung up or none is off the hook,
   * else active by the number of active legs, else ringing, held, not held any more, or down.
   */
  lemma DeviceStateIs(old_: DeviceState, legs: seq<Leg>)
    ensures var d, n := NextState(old_, Tally(legs)), Number(legs, IsActive);
      var over := old_ == DevHangup || forall i :: 0 <= i < |legs| ==> SortOf(legs[i]) == IsHup;
      && (d == DevHangup <==> over)
      && (d == DevActive <==> !over && n == 1)
      && (d == DevActiveMulti <==> !over && n > 1)
      && (d == DevRinging <==> !over && n == 0 && AnyRinging(legs))
      && (d == DevHeld <==> !over && n == 0 && !AnyRinging(legs) && Any(legs, IsHeld))
      && (d == DevUnheld <==> !over && n == 0 && !AnyRinging(legs) && !Any(legs, IsHeld) && Any(legs, IsUnheld))
  {
    hide Tally, Number, AnyRinging, Any;
    TallyPartition(legs);
    TallyCounts(legs, IsActive);
    TallyCounts(legs, IsHeld);
    TallyCounts(legs, IsUnheld);
    TallyCounts(legs, IsHup);
    AnyCounts(legs, IsHeld);
    AnyCounts(legs, IsUnheld);
    RingingCounts(legs);
    AllHupCounts(legs);
    NoneOffhook(legs);
  }

  predicate IsActiveState(d: DeviceState) {
    d == DevActive || d == DevActiveMulti
  }

  predicate SameDevice(r: Record, d: Record) {
    d.id == r.id && d.legs == r.legs && d.refs == r.refs && d.state == r.state && d.lastState == r.lastState
  }

  /** Starting the clock of the new state. */
  function Started(r: Record, now: nat): (d: Record)
    ensures SameDevice(r, d)
  {
    var r1 := if r.callStart == 0 then r.(callStart := now) else r;
    if r1.state == DevRinging && r1.ringStart == 0 then r1.(ringStart := now, ringStop := 0)
    else if IsActiveState(r1.state) && r1.activeStart == 0 then r1.(activeStart := now, activeStop := 0)
    else if r1.state == DevHeld && r1.holdStart == 0 then r1.(holdStart := now, holdStop := 0)
    else r1
  }

  /** Stopping the clocks of the states that are over. */
  function Stopped(r: Record, cs: CallState, now: nat): (d: Record)
    ensures SameDevice(r, d)
  {
    var r1 := if cs != Unheld && r.activeStart != 0 && !IsActiveState(r.state) then r.(activeStop := now) else r;
    var r2 := if r1.ringStart != 0 && r1.ringStop == 0 && r1.state != DevRinging then r1.(ringStop := now) else r1;
    if r2.holdStart != 0 && r2.holdStop == 0 && r2.state != DevHeld then r2.(holdStop := now) else r2
  }

  /** Resetting the stopped clocks after they were reported. */
  function Cleared(r: Record, now: nat): (d: Record)
    ensures SameDevice(r, d)
  {
    var r1 := if r.activeStop != 0
      then r.(activeStop := 0, activeStart := if IsActiveState(r.state) then now else 0) else r;
    var r2 := if r1.holdStop != 0
      then r1.(holdStop := 0, holdStart := if r1.state == DevHeld then now else 0) else r1;
    if r2.ringStop != 0
    then r2.(ringStop := 0, ringStart := if r2.state == DevRinging then now else 0) else r2
  }

  /** `switch_channel_check_device_state`. */
  function Check(r: Record, cs: CallState, now: nat): (d: Record)
    ensures d.id == r.id && d.legs == r.legs && d.refs == r.refs
  {
    var r1 := r.(state := NextState(r.state, Tally(r.legs)));
    if r1.state == r1.lastState && (r1.state == DevDown || r1.state == DevHangup) then r1
    else
      var r2 := Cleared(Stopped(Started(r1, now), cs, now), now);
      r2.(lastState := r2.state)
  }

  /** The clocks tell what the device was last seen doing. */
  predicate Clocks(r: Record) {
    && r.ringStop == 0 && r.holdStop == 0 && r.activeStop == 0
    && (r.ringStart != 0 <==> r.lastState == DevRinging)
    && (r.holdStart != 0 <==> r.lastState == DevHeld)
    && (IsActiveState(r.lastState) ==> r.activeStart != 0)
  }

  /** While a check runs: the clock of the new state goes, no other one but those of the last state does. */
  predicate ClocksStarted(r: Record, active: bool) {
    && r.ringStop == 0 && r.holdStop == 0 && r.activeStop == 0
    && (r.state == DevRinging ==> r.ringStart != 0) && (r.state == DevHeld ==> r.holdStart != 0)
    && (r.activeStart != 0 <==> active || IsActiveState(r.state))
  }

  lemma StartClocks(r: Record, now: nat)
    requires r.ringStop == 0 && r.holdStop == 0 && r.activeStop == 0 && now > 0
    ensures ClocksStarted(Started(r, now), r.activeStart != 0)
  {
  }

  lemma StopClocks(r: Record, cs: CallState, now: nat)
    requires ClocksStarted(r, r.activeStart != 0) && now > 0
    ensures var d := Stopped(r, cs, now);
      && d.ringStart == r.ringStart && d.holdStart == r.holdStart && d.activeStart == r.activeStart
      && (d.ringStop != 0 <==> r.ringStart != 0 && r.state != DevRinging)
      && (d.holdStop != 0 <==> r.holdStart != 0 && r.state != DevHeld)
      && (d.activeStop != 0 <==> r.activeStart != 0 && !IsActiveState(r.state) && cs != Unheld)
  {
  }

  lemma ClearClocks(r: Record, now: nat)
    requires (r.ringStop != 0 ==> r.state != DevRinging) && (r.holdStop != 0 ==> r.state != DevHeld) &&
      (r.activeStop != 0 ==> !IsActiveState(r.state))
    ensures var d := Cleared(r, now);
      && d.ringStop == 0 && d.holdStop == 0 && d.activeStop == 0
      && d.ringStart == (if r.ringStop != 0 then 0 else r.ringStart)
      && d.holdStart == (if r.holdStop != 0 then 0 else r.holdStart)
      && d.activeStart == (if r.activeStop != 0 then 0 else r.activeStart)
  {
  }

  /** Every check leaves the clocks right; the talk clock alone may run on, through a hold that was just ended. */
  lemma CheckClocks(r: Record, cs: CallState, now: nat)
    requires Clocks(r) && now > 0
    ensures var d := Check(r, cs, now);
      && Clocks(d) && d.lastState == d.state == NextState(r.state, Tally(r.legs))
      && (d.lastState != r.lastState || !(d.lastState == DevDown || d.lastState == DevHangup) ==>
          (d.activeStart != 0 <==> IsActiveState(d.lastState) || (cs == Unheld && r.activeStart != 0)))
  {
    hide Started, Stopped, Cleared, NextState;
    var r1 := r.(state := NextState(r.state, Tally(r.legs)));
    var r2 := Started(r1, now);
    StartClocks(r1, now);
    StopClocks(r2, cs, now);
    ClearClocks(Stopped(r2, cs, now), now);
  }

  // ---- the registry

  type ChannelId = nat

  /**
   * Records by device, all records ever made, the leg of each attached channel, and the channels that were a device's
   * last.
   */
  datatype Registry = Registry(hash: map<string, nat>, records: seq<Record>, node: map<ChannelId, (nat, nat)>,
    last: set<ChannelId>)

  predicate InHash(g: Registry, r: nat)
    requires r < |g.records|
  {
    g.records[r].id in g.hash && g.hash[g.records[r].id] == r
  }

  /** Where the parts of the registry point. */
  ghost predicate Linked(g: Registry) {
    && (forall id :: id in g.hash ==> g.hash[id] < |g.records| && g.records[g.hash[id]].id == id)
    && (forall ch :: ch in g.node ==> Attached(g, ch))
    && (forall ch :: ch in g.last ==> ch in g.node)
    && (forall a, b :: a in g.node && b in g.node && a != b ==> g.node[a] != g.node[b])
  }

  ghost predicate Attached(g: Registry, ch: ChannelId) {
    ch in g.node && g.node[ch].0 < |g.records| && g.node[ch].1 < |g.records[g.node[ch].0].legs|
  }

  ghost predicate Good(r: Record) {
    r.refs == Offhook(r.legs) && Clocks(r)
  }

  /**
   * A device is registered exactly while it has a leg off the hook, its reference count is the number of those,
   * its clocks are right, and an attached channel's leg is hung up exactly if it was the device's last.
   */
  ghost predicate Inv(g: Registry) {
    && Linked(g)
    && (forall r :: 0 <= r < |g.records| ==> Good(g.records[r]) && (InHash(g, r) <==> Offhook(g.records[r].legs) > 0))
    && (forall ch :: ch in g.node ==> (g.records[g.node[ch].0].legs[g.node[ch].1].hup <==> ch in g.last))
  }

  /** `add_uuid`. */
  function AddLeg(r: Record, l: Leg): (d: Record) {
    r.(legs := r.legs + [l], refs := r.refs + 1)
  }

  /** `switch_channel_set_device_id`. */
  function SetDeviceId(g: Registry, ch: ChannelId, id: string, l: Leg, now: nat): (h: Registry)
    requires id in g.hash ==> g.hash[id] < |g.records|
  {
    if ch in g.node then g
    else
      var r := if id in g.hash then g.hash[id] else |g.records|;
      var records := if id in g.hash then g.records else g.records + [NewRecord(id)];
      var rec := AddLeg(records[r], l);
      Registry(g.hash[id := r], records[r := Check(rec, l.callstate, now)], g.node[ch := (r, |records[r].legs|)],
        g.last)
  }

  /** The device's part of `switch_channel_perform_set_callstate`; the leg has the call state of its channel. */
  function SetLegState(g: Registry, ch: ChannelId, cs: CallState, now: nat): (h: Registry)
    requires ch in g.node ==> g.node[ch].0 < |g.records| && g.node[ch].1 < |g.records[g.node[ch].0].legs|
  {
    if ch !in g.node then g
    else
      var (r, k) := g.node[ch];
      var rec := g.records[r];
      if rec.legs[k].callstate == cs || rec.legs[k].callstate == HungUp then g
      else
        g.(records := g.records[r := Check(rec.(legs := rec.legs[k := rec.legs[k].(callstate := cs)]), cs, now)])
  }

  /** `switch_channel_process_device_hangup`. */
  function ProcessHangup(g: Registry, ch: ChannelId, cs: CallState, now: nat): (h: Registry)
    requires ch in g.node ==> g.node[ch].0 < |g.records| && g.node[ch].1 < |g.records[g.node[ch].0].legs|
  {
    if ch !in g.node then g
    else
      var (r, k) := g.node[ch];
      var rec := Check(g.records[r], cs, now);
      var hup := rec.(legs := rec.legs[k := rec.legs[k].(hup := true)], refs := rec.refs - 1);
      var records := g.records[r := hup];
      if Tally(hup.legs).offhook.all == 0
      then g.(records := records, hash := g.hash - {rec.id}, last := g.last + {ch})
      else g.(records := records, node := g.node - {ch})
  }
}
