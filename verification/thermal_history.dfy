/** What the thermal controllers' state says about the readings so far. */
module ThermalHistory {
  import opened ThermalSpec

  // One zone over the readings it has seen

  datatype Reading = Reading(temp: int, now: int)

  function ZoneRun(th: Thresholds, rs: seq<Reading>): Zone {
    if rs == [] then Zone(false, 0)
    else
      var r := rs[|rs| - 1];
      ZoneStep(th, ZoneRun(th, rs[..|rs| - 1]), r.temp, r.now)
  }

  predicate Enters(th: Thresholds, r: Reading) { th.concern <= r.temp < th.critical }

  predicate Holds(th: Thresholds, r: Reading) { r.temp >= th.safe || r.temp >= th.critical }

  /** Reading k is concerning but not critical, and no later reading is safe. */
  ghost predicate Entry(th: Thresholds, rs: seq<Reading>, k: nat) {
    k < |rs| && Enters(th, rs[k]) && forall i :: k < i < |rs| ==> Holds(th, rs[i])
  }

  /** Reading k is the first that could have been the entry into a zone that is still active. */
  ghost predicate FirstEntry(th: Thresholds, rs: seq<Reading>, k: nat) {
    Entry(th, rs, k) && forall j: nat :: j < k ==> !Entry(th, rs, j)
  }

  lemma EntryOneMore(th: Thresholds, rs: seq<Reading>, r: Reading, j: nat)
    requires j < |rs|
    ensures Entry(th, rs + [r], j) <==> Entry(th, rs, j) && Holds(th, r)
  {
    var all := rs + [r];
    if Entry(th, all, j) {
      assert Holds(th, all[|rs|]);
      forall i | j < i < |rs| ensures Holds(th, rs[i]) {
        assert rs[i] == all[i];
      }
    }
  }

  /** An active zone was entered at a concerning reading and no later one was safe. */
  lemma {:induction false} ActiveZone(th: Thresholds, rs: seq<Reading>) returns (k: nat)
    ensures ZoneRun(th, rs).active ==> Entry(th, rs, k) && ZoneRun(th, rs).since == rs[k].now
    ensures ZoneRun(th, rs).active && th.safe <= th.concern ==> FirstEntry(th, rs, k)
    ensures !ZoneRun(th, rs).active && th.safe <= th.concern ==> forall j: nat :: !Entry(th, rs, j)
    decreases |rs|
  {
    k := 0;
    if rs != [] {
      var before, r := rs[..|rs| - 1], rs[|rs| - 1];
      k := ActiveZone(th, before);
      forall j: nat | j < |before|
        ensures Entry(th, rs, j) <==> Entry(th, before, j) && Holds(th, r)
      {
        EntryOneMore(th, before, r, j);
      }
      if !ZoneRun(th, before).active && ZoneRun(th, rs).active {
        k := |before|;
      }
    }
  }

  lemma ZoneRunOneMore(th: Thresholds, rs: seq<Reading>, r: Reading)
    ensures ZoneRun(th, rs + [r]) == ZoneStep(th, ZoneRun(th, rs), r.temp, r.now)
  {
    assert (rs + [r])[..|rs|] == rs;
  }

  /** A zone is active exactly when some reading was an entry, for all histories, if and only if no
      reading can be both concerning and safe. */
  lemma {:induction false} ZoneExact(th: Thresholds)
    ensures (forall rs: seq<Reading> :: ZoneRun(th, rs).active <==> exists k: nat :: Entry(th, rs, k))
       <==> th.safe <= th.concern || th.critical <= th.concern
  {
    if th.safe <= th.concern || th.critical <= th.concern {
      forall rs: seq<Reading>
        ensures ZoneRun(th, rs).active <==> exists k: nat :: Entry(th, rs, k)
      {
        var k := ActiveZone(th, rs);
      }
    } else {
      var r := Reading(th.concern, 0);
      ZoneRunOneMore(th, [], r);
      ZoneRunOneMore(th, [r], r);
      assert [] + [r] == [r] && [r] + [r] == [r, r];
      assert !ZoneRun(th, [r, r]).active && Entry(th, [r, r], 1);
    }
  }

  // The zones of the monitor

  /** The readings the deep-sleep zone has seen: those of the polls that found it enabled. */
  function SleepReadings(cfg: Config, s: State, inputs: seq<Input>): seq<Reading> {
    if inputs == [] then []
    else
      var before, i := inputs[..|inputs| - 1], inputs[|inputs| - 1];
      SleepReadings(cfg, s, before)
      + if i.Poll? && Run(cfg, s, before).sleepGrace != 0 then [Reading(i.temp, i.now)] else []
  }

  function RebootReadings(cfg: Config, s: State, inputs: seq<Input>): seq<Reading> {
    if inputs == [] then []
    else
      var before, i := inputs[..|inputs| - 1], inputs[|inputs| - 1];
      RebootReadings(cfg, s, before)
      + if i.Poll? && ForReboot(Run(cfg, s, before), i.change).rebootGrace != 0 then [Reading(i.temp, i.now)] else []
  }

  /** Both zones start inactive, with no monitor time. */
  predicate Initial(s: State) {
    s.reboot == Zone(false, 0) && s.deepSleep == Zone(false, 0)
  }

  lemma {:induction false} SleepZoneOfRun(cfg: Config, s: State, inputs: seq<Input>)
    requires Initial(s)
    ensures Run(cfg, s, inputs).deepSleep == ZoneRun(cfg.deepSleep, SleepReadings(cfg, s, inputs))
    decreases |inputs|
  {
    if inputs != [] {
      var before, i := inputs[..|inputs| - 1], inputs[|inputs| - 1];
      SleepZoneOfRun(cfg, s, before);
      var rs := SleepReadings(cfg, s, before);
      if i.Poll? {
        ZoneRunOneMore(cfg.deepSleep, rs, Reading(i.temp, i.now));
      }
      assert rs + [] == rs;
    }
  }

  lemma {:induction false} RebootZoneOfRun(cfg: Config, s: State, inputs: seq<Input>)
    requires Initial(s)
    ensures Run(cfg, s, inputs).reboot == ZoneRun(cfg.reboot, RebootReadings(cfg, s, inputs))
    decreases |inputs|
  {
    if inputs != [] {
      var before, i := inputs[..|inputs| - 1], inputs[|inputs| - 1];
      RebootZoneOfRun(cfg, s, before);
      var rs := RebootReadings(cfg, s, before);
      if i.Poll? {
        assert ForReboot(Run(cfg, s, before), i.change).reboot == Run(cfg, s, before).reboot;
        ZoneRunOneMore(cfg.reboot, rs, Reading(i.temp, i.now));
      }
      assert rs + [] == rs;
    }
  }

  /** Both zones are those of the readings that found them enabled. */
  lemma ZonesOfRun(cfg: Config, s: State, inputs: seq<Input>)
    requires Initial(s)
    ensures Run(cfg, s, inputs).deepSleep == ZoneRun(cfg.deepSleep, SleepReadings(cfg, s, inputs))
    ensures Run(cfg, s, inputs).reboot == ZoneRun(cfg.reboot, RebootReadings(cfg, s, inputs))
  {
    SleepZoneOfRun(cfg, s, inputs);
    RebootZoneOfRun(cfg, s, inputs);
  }

  lemma Requests(th: Thresholds, grace: int, z: Zone, temp: int, now: int)
    ensures var rs := ZoneRequests(th, grace, z, temp, now);
            && (Forced in rs <==> temp >= th.critical)
            && (Graced in rs <==> z.active && now - z.since >= grace)
            && (forall r :: r in rs <==> SleepRequest(r) in AsSleep(rs))
            && (forall r :: r in rs <==> RebootRequest(r) in AsReboot(rs))
  {
    var rs := ZoneRequests(th, grace, z, temp, now);
    forall r | r in rs ensures SleepRequest(r) in AsSleep(rs) && RebootRequest(r) in AsReboot(rs) {
      var k :| 0 <= k < |rs| && rs[k] == r;
      assert AsSleep(rs)[k] == SleepRequest(r) && AsReboot(rs)[k] == RebootRequest(r);
    }
  }

  lemma Kinds(cfg: Config, s: State, i: Input, why: Request)
    requires i.Poll?
    ensures var out, r := Outputs(cfg, s, i), ForReboot(s, i.change);
            && (SleepRequest(why) in out <==>
                SleepRequest(why) in SleepOutputs(cfg, s, i.temp, i.now, SleepDue(s, i.change)))
            && (RebootRequest(why) in out <==>
                RebootRequest(why) in RebootOutputs(cfg, r, i.temp, i.now, RebootDue(s, i.change)))
  {
    var a := SleepOutputs(cfg, s, i.temp, i.now, SleepDue(s, i.change));
    var b := RebootOutputs(cfg, ForReboot(s, i.change), i.temp, i.now, RebootDue(s, i.change));
    var c := ClockOutputs(cfg, s, i.temp, i.now);
    assert (forall k :: 0 <= k < |a| ==> a[k].SleepRequest?) && (forall k :: 0 <= k < |b| ==> b[k].RebootRequest?);
    assert forall k :: 0 <= k < |c| ==> c[k].SetClock?;
  }

  /** The zone requests of a poll, for the state before it and a change of the interval that falls into it. */
  lemma RequestsOfPoll(cfg: Config, s: State, temp: int, now: int, ch: Change)
    ensures var out, r := Outputs(cfg, s, Poll(temp, now, ch)), ForReboot(s, ch);
            var z, y := SleepZone(cfg, s, temp, now), RebootZone(cfg, r, temp, now);
            && (SleepRequest(Forced) in out <==> s.sleepGrace != 0 && temp >= cfg.deepSleep.critical)
            && (SleepRequest(Graced) in out <==> s.sleepGrace != 0 && z.active && now - z.since >= SleepDue(s, ch))
            && (RebootRequest(Forced) in out <==> r.rebootGrace != 0 && temp >= cfg.reboot.critical)
            && (RebootRequest(Graced) in out <==> r.rebootGrace != 0 && y.active && now - y.since >= RebootDue(s, ch))
  {
    var r := ForReboot(s, ch);
    Requests(cfg.deepSleep, SleepDue(s, ch), SleepZone(cfg, s, temp, now), temp, now);
    Requests(cfg.reboot, RebootDue(s, ch), RebootZone(cfg, r, temp, now), temp, now);
    Kinds(cfg, s, Poll(temp, now, ch), Forced);
    Kinds(cfg, s, Poll(temp, now, ch), Graced);
  }

  // The intervals

  /** The input changes both intervals: an accepted call between two polls or inside one. */
  predicate Changes(i: Input) {
    (i.SetGrace? && i.interval >= 0) || (i.Poll? && i.change.To? && i.change.interval >= 0)
  }

  function NewInterval(i: Input): int
    requires Changes(i)
  {
    if i.SetGrace? then i.interval else i.change.interval
  }

  /** The state has both intervals at g. */
  predicate Both(s: State, g: int) { s.sleepGrace == s.rebootGrace == g }

  lemma IntervalsAfter(cfg: Config, s: State, i: Input)
    ensures if Changes(i) then Both(Step(cfg, s, i), NewInterval(i))
            else Step(cfg, s, i).sleepGrace == s.sleepGrace && Step(cfg, s, i).rebootGrace == s.rebootGrace
  {
  }

  /** Input k is the last that changes the intervals. */
  ghost predicate LastChange(inputs: seq<Input>, k: nat) {
    k < |inputs| && Changes(inputs[k]) && forall i :: k < i < |inputs| ==> !Changes(inputs[i])
  }

  /** After every run both intervals are those of the last accepted change, wherever it fell. */
  lemma {:induction false} IntervalInForce(cfg: Config, s: State, inputs: seq<Input>, k: nat)
    requires LastChange(inputs, k)
    ensures Both(Run(cfg, s, inputs), NewInterval(inputs[k]))
    decreases |inputs|
  {
    var n := |inputs| - 1;
    IntervalsAfter(cfg, Run(cfg, s, inputs[..n]), inputs[n]);
    if k < n {
      IntervalInForce(cfg, s, inputs[..n], k);
    }
  }

  /** Without one they are the initial ones. */
  lemma {:induction false} IntervalsUnchanged(cfg: Config, s: State, inputs: seq<Input>)
    requires forall i :: 0 <= i < |inputs| ==> !Changes(inputs[i])
    ensures Run(cfg, s, inputs).sleepGrace == s.sleepGrace && Run(cfg, s, inputs).rebootGrace == s.rebootGrace
    decreases |inputs|
  {
    if inputs != [] {
      IntervalsUnchanged(cfg, s, inputs[..|inputs| - 1]);
      IntervalsAfter(cfg, Run(cfg, s, inputs[..|inputs| - 1]), inputs[|inputs| - 1]);
    }
  }
}
