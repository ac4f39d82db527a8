/** When the processor is clocked up and down, and what the platform is told. */
module ThermalClock {
  import opened ThermalSpec
  import opened ThermalHistory

  datatype Clock = Clock(speed: int, since: int)

  function ClockRun(cfg: Config, c: Clock, rs: seq<Reading>): Clock {
    if rs == [] then c
    else
      var b, r := ClockRun(cfg, c, rs[..|rs| - 1]), rs[|rs| - 1];
      Clock(Speed(cfg, b.speed, b.since, r.temp, r.now), ClockSince(cfg, b.speed, b.since, r.temp, r.now))
  }

  predicate Distinct(cfg: Config) {
    cfg.normal != cfg.scaled && cfg.scaled != cfg.minimal && cfg.normal != cfg.minimal
  }

  predicate Ordered(rs: seq<Reading>) { forall i, j :: 0 <= i < j < |rs| ==> rs[i].now <= rs[j].now }

  /** Speed w is faster than v. */
  predicate Faster(cfg: Config, v: int, w: int) {
    (w == cfg.normal && v != cfg.normal) || (w == cfg.scaled && v == cfg.minimal)
  }

  predicate Hot(cfg: Config, r: Reading) { r.temp >= cfg.declock.concern || r.temp >= cfg.declock.critical }

  /** The monitor time is never older than a reading at or above the concern threshold. */
  lemma {:induction false} HotResets(cfg: Config, c: Clock, rs: seq<Reading>, i: nat)
    requires Ordered(rs) && i < |rs| && Hot(cfg, rs[i])
    ensures ClockRun(cfg, c, rs).since >= rs[i].now
    decreases |rs|
  {
    if i < |rs| - 1 {
      HotResets(cfg, c, rs[..|rs| - 1], i);
    }
  }

  /** A move to a faster speed: every reading at or above the concern threshold is at least the grace
      interval old, and there was none in this poll. */
  lemma {:induction false} FasterOnlyAfterGrace(cfg: Config, c: Clock, rs: seq<Reading>, r: Reading, i: nat)
    requires Distinct(cfg) && Ordered(rs + [r]) && i < |rs| && Hot(cfg, rs[i])
    requires Faster(cfg, ClockRun(cfg, c, rs).speed, ClockRun(cfg, c, rs + [r]).speed)
    ensures !Hot(cfg, r) && r.now - rs[i].now >= cfg.declockGrace
  {
    assert (rs + [r])[..|rs|] == rs && forall j :: 0 <= j < |rs| ==> (rs + [r])[j] == rs[j];
    HotResets(cfg, c, rs, i);
  }

  /** The timer was last reset by reading k - 1, or never when k is 0, and all readings since were safe. */
  ghost predicate SafeSince(cfg: Config, c: Clock, rs: seq<Reading>, k: nat) {
    && k <= |rs|
    && ClockRun(cfg, c, rs).since == (if k == 0 then c.since else rs[k - 1].now)
    && forall i :: k <= i < |rs| ==> rs[i].temp <= cfg.declock.safe
  }

  /** At scaled speed only readings at or below the safe threshold leave the timer alone. */
  lemma {:induction false} ScaledSince(cfg: Config, c: Clock, rs: seq<Reading>) returns (k: nat)
    requires Distinct(cfg) && ClockRun(cfg, c, rs).speed == cfg.scaled
    ensures SafeSince(cfg, c, rs, k)
    decreases |rs|
  {
    k := |rs|;
    if rs != [] {
      var before, r := rs[..|rs| - 1], rs[|rs| - 1];
      if !Hot(cfg, r) && r.temp <= cfg.declock.safe {
        k := ScaledSince(cfg, c, before);
        assert forall i :: 0 <= i < |before| ==> before[i] == rs[i];
      }
    }
  }

  /** A move from scaled to normal: since the last timer reset, at least the grace interval ago, all
      readings were at or below the safe threshold, this one included. */
  lemma {:induction false} NormalOnlyAfterSafe(cfg: Config, c: Clock, rs: seq<Reading>, r: Reading) returns (k: nat)
    requires Distinct(cfg)
    requires ClockRun(cfg, c, rs).speed == cfg.scaled && ClockRun(cfg, c, rs + [r]).speed == cfg.normal
    ensures SafeSince(cfg, c, rs, k) && r.temp <= cfg.declock.safe
    ensures r.now - ClockRun(cfg, c, rs).since >= cfg.declockGrace
  {
    assert (rs + [r])[..|rs|] == rs;
    k := ScaledSince(cfg, c, rs);
  }

  /** Within the grace interval of a critical reading the processor stays at minimal speed, and within
      that of a concerning one it is not at normal speed. */
  lemma {:induction false} StaysSlow(cfg: Config, c: Clock, rs: seq<Reading>, i: nat)
    requires Distinct(cfg) && Ordered(rs) && i < |rs| && rs[|rs| - 1].now - rs[i].now < cfg.declockGrace
    ensures rs[i].temp >= cfg.declock.critical ==> ClockRun(cfg, c, rs).speed == cfg.minimal
    ensures Hot(cfg, rs[i]) ==> ClockRun(cfg, c, rs).speed != cfg.normal
    decreases |rs|
  {
    if i < |rs| - 1 {
      StaysSlow(cfg, c, rs[..|rs| - 1], i);
      if Hot(cfg, rs[i]) {
        HotResets(cfg, c, rs[..|rs| - 1], i);
      }
    }
  }

  function Polls(inputs: seq<Input>): seq<Reading> {
    if inputs == [] then []
    else
      var i := inputs[|inputs| - 1];
      Polls(inputs[..|inputs| - 1]) + if i.Poll? then [Reading(i.temp, i.now)] else []
  }

  /** The clock of the monitor is this clock over the readings of all successful polls. */
  lemma {:induction false} ClockOfRun(cfg: Config, s: State, inputs: seq<Input>)
    requires cfg.declockGrace != 0
    ensures Clock(Run(cfg, s, inputs).speed, Run(cfg, s, inputs).clockSince)
         == ClockRun(cfg, Clock(s.speed, s.clockSince), Polls(inputs))
    decreases |inputs|
  {
    if inputs != [] {
      var before, i := inputs[..|inputs| - 1], inputs[|inputs| - 1];
      ClockOfRun(cfg, s, before);
      assert Polls(before) + [] == Polls(before);
      if i.Poll? {
        assert (Polls(before) + [Reading(i.temp, i.now)])[..|Polls(before)|] == Polls(before);
      }
    }
  }

  // When the speed changes

  /** A reading makes the processor faster exactly when it is not hot, the grace interval has passed, and it is safe or
      the speed is minimal; a safe one leads to normal speed, another one to scaled. */
  lemma RisesExactly(cfg: Config, c: Clock, rs: seq<Reading>, r: Reading)
    requires Distinct(cfg) && ClockRun(cfg, c, rs).speed in {cfg.normal, cfg.scaled, cfg.minimal}
    ensures var b, w := ClockRun(cfg, c, rs), ClockRun(cfg, c, rs + [r]).speed;
            && w in {cfg.normal, cfg.scaled, cfg.minimal}
            && (Faster(cfg, b.speed, w) <==>
                  && !Hot(cfg, r) && r.now - b.since >= cfg.declockGrace
                  && (b.speed == cfg.minimal || (b.speed == cfg.scaled && r.temp <= cfg.declock.safe)))
            && (Faster(cfg, b.speed, w) ==> w == if r.temp <= cfg.declock.safe then cfg.normal else cfg.scaled)
  {
    assert (rs + [r])[..|rs|] == rs;
  }

  /** It makes it slower exactly when it is critical and the speed is not minimal, or when it is concerning and the
      speed is normal. */
  lemma FallsExactly(cfg: Config, c: Clock, rs: seq<Reading>, r: Reading)
    requires Distinct(cfg) && ClockRun(cfg, c, rs).speed in {cfg.normal, cfg.scaled, cfg.minimal}
    ensures var v, w := ClockRun(cfg, c, rs).speed, ClockRun(cfg, c, rs + [r]).speed;
            && (Faster(cfg, w, v) <==>
                  || (r.temp >= cfg.declock.critical && v != cfg.minimal)
                  || (r.temp >= cfg.declock.concern && v == cfg.normal))
            && (Faster(cfg, w, v) ==> w == if r.temp >= cfg.declock.critical then cfg.minimal else cfg.scaled)
  {
    assert (rs + [r])[..|rs|] == rs;
  }

  /** The timer was last reset by reading k - 1, a hot one, or never when k is 0, and no reading since was hot. */
  ghost predicate CoolSince(cfg: Config, c: Clock, rs: seq<Reading>, k: nat) {
    && k <= |rs| && (k > 0 ==> Hot(cfg, rs[k - 1]))
    && ClockRun(cfg, c, rs).since == (if k == 0 then c.since else rs[k - 1].now)
    && forall i :: k <= i < |rs| ==> !Hot(cfg, rs[i])
  }

  /** At minimal speed exactly the hot readings reset the timer. */
  lemma {:induction false} MinimalSince(cfg: Config, c: Clock, rs: seq<Reading>) returns (k: nat)
    requires Distinct(cfg) && ClockRun(cfg, c, rs).speed == cfg.minimal
    ensures CoolSince(cfg, c, rs, k)
    decreases |rs|
  {
    k := |rs|;
    if rs != [] {
      var before, r := rs[..|rs| - 1], rs[|rs| - 1];
      if !Hot(cfg, r) {
        k := MinimalSince(cfg, c, before);
        assert forall i :: 0 <= i < |before| ==> before[i] == rs[i];
      }
    }
  }

  predicate AllSafe(cfg: Config, ss: seq<Reading>) {
    forall i :: 0 <= i < |ss| ==> ss[i].temp <= cfg.declock.safe && !Hot(cfg, ss[i])
  }

  /** Safe readings leave the timer alone and end at normal speed once the grace interval has passed. */
  lemma {:induction false} SafeReadings(cfg: Config, c: Clock, ss: seq<Reading>)
    requires AllSafe(cfg, ss)
    ensures ClockRun(cfg, c, ss).since == c.since
    ensures ss != [] && ss[|ss| - 1].now - c.since >= cfg.declockGrace ==> ClockRun(cfg, c, ss).speed == cfg.normal
    decreases |ss|
  {
    if ss != [] {
      SafeReadings(cfg, c, ss[..|ss| - 1]);
    }
  }

  lemma {:induction false} ClockAppend(cfg: Config, c: Clock, rs: seq<Reading>, ss: seq<Reading>)
    ensures ClockRun(cfg, c, rs + ss) == ClockRun(cfg, ClockRun(cfg, c, rs), ss)
    decreases |ss|
  {
    if ss == [] {
      assert rs + ss == rs;
    } else {
      var n := |ss| - 1;
      ClockAppend(cfg, c, rs, ss[..n]);
      assert (rs + ss)[..|rs| + n] == rs + ss[..n];
    }
  }

  lemma {:induction false} SinceIsPast(cfg: Config, c: Clock, rs: seq<Reading>, now: int)
    requires c.since <= now && forall i :: 0 <= i < |rs| ==> rs[i].now <= now
    ensures ClockRun(cfg, c, rs).since <= now
    decreases |rs|
  {
    if rs != [] {
      SinceIsPast(cfg, c, rs[..|rs| - 1], now);
    }
  }

  /** After a grace interval of safe readings the processor is at normal speed, whatever came before. */
  lemma {:induction false} ReturnsToNormal(cfg: Config, c: Clock, rs: seq<Reading>, ss: seq<Reading>)
    requires ss != [] && AllSafe(cfg, ss) && ss[|ss| - 1].now - ss[0].now >= cfg.declockGrace
    requires c.since <= ss[0].now && forall i :: 0 <= i < |rs| ==> rs[i].now <= ss[0].now
    ensures ClockRun(cfg, c, rs + ss).speed == cfg.normal
  {
    ClockAppend(cfg, c, rs, ss);
    SinceIsPast(cfg, c, rs, ss[0].now);
    SafeReadings(cfg, ClockRun(cfg, c, rs), ss);
  }

  // What the platform is told

  /** An input has a speed set exactly when it changes the speed of the monitor, and then to the new one. */
  lemma CommandExactly(cfg: Config, s: State, i: Input, v: int)
    requires Distinct(cfg)
    ensures SetClock(v) in Outputs(cfg, s, i) <==> v == Step(cfg, s, i).speed != s.speed
  {
    if i.Poll? {
      var zones := SleepOutputs(cfg, s, i.temp, i.now, SleepDue(s, i.change))
                   + RebootOutputs(cfg, ForReboot(s, i.change), i.temp, i.now, RebootDue(s, i.change));
      var clock := ClockOutputs(cfg, s, i.temp, i.now);
      assert forall k :: 0 <= k < |zones| ==> !zones[k].SetClock?;
      assert Outputs(cfg, s, i) == zones + clock;
      if clock != [] {
        assert clock[0] in zones + clock;
      }
    }
  }

  /** The speed set last among these outputs, or the given one. */
  function LastCommand(out: seq<Output>, speed: int): int {
    if out == [] then speed
    else
      var last := out[|out| - 1];
      if last.SetClock? then last.speed else LastCommand(out[..|out| - 1], speed)
  }

  lemma {:induction false} LastOfMore(out: seq<Output>, more: seq<Output>, speed: int, v: int)
    requires forall u :: SetClock(u) in more ==> u == v
    ensures LastCommand(out + more, speed)
            == if SetClock(v) in more then v else LastCommand(out, speed)
    decreases |more|
  {
    if more == [] {
      assert out + more == out;
    } else {
      var n := |more| - 1;
      assert (out + more)[..|out| + n] == out + more[..n];
      assert more == more[..n] + [more[n]];
      LastOfMore(out, more[..n], speed, v);
    }
  }

  /** In every run the speed of the monitor is the one that the platform was told last. */
  lemma {:induction false} CommandedSpeed(cfg: Config, s: State, inputs: seq<Input>)
    requires Distinct(cfg)
    ensures LastCommand(AllOutputs(cfg, s, inputs), s.speed) == Run(cfg, s, inputs).speed
    decreases |inputs|
  {
    if inputs != [] {
      var n := |inputs| - 1;
      var before, after := Run(cfg, s, inputs[..n]), Run(cfg, s, inputs);
      CommandedSpeed(cfg, s, inputs[..n]);
      forall v ensures SetClock(v) in OutputsAt(cfg, s, inputs, n) <==> v == after.speed != before.speed {
        CommandExactly(cfg, before, inputs[n], v);
      }
      LastOfMore(AllOutputs(cfg, s, inputs[..n]), OutputsAt(cfg, s, inputs, n), s.speed, after.speed);
    }
  }

  /** The place of an output in a poll. */
  function Rank(o: Output): int {
    match o
    case SleepRequest(why) => if why.Forced? then 0 else 1
    case RebootRequest(why) => if why.Forced? then 2 else 3
    case SetClock(_) => 4
  }

  predicate Ascending(out: seq<Output>, lo: int, hi: int) {
    && (forall k :: 0 <= k < |out| ==> lo <= Rank(out[k]) <= hi)
    && (forall j, k :: 0 <= j < k < |out| ==> Rank(out[j]) < Rank(out[k]))
  }

  predicate ForcedFirst(rs: seq<Request>) { |rs| <= 1 || rs == [Forced, Graced] }

  lemma RequestsForcedFirst(th: Thresholds, grace: int, z: Zone, temp: int, now: int)
    ensures ForcedFirst(ZoneRequests(th, grace, z, temp, now))
  {
  }

  lemma AscendingRequests(rs: seq<Request>)
    requires ForcedFirst(rs)
    ensures Ascending(AsSleep(rs), 0, 1) && Ascending(AsReboot(rs), 2, 3)
  {
  }

  lemma AscendingAppend(a: seq<Output>, b: seq<Output>, lo: int, m: int, hi: int)
    requires Ascending(a, lo, m) && Ascending(b, m + 1, hi) && lo <= m < hi
    ensures Ascending(a + b, lo, hi)
  {
    var c := a + b;
    forall j, k | 0 <= j < k < |c|
      ensures Rank(c[j]) < Rank(c[k])
    {
      if k >= |a| {
        assert c[k] == b[k - |a|];
        assert j >= |a| ==> c[j] == b[j - |a|];
      }
    }
  }

  /** Deep sleep before reboot before the clock, forced before graced, and each at most once. */
  lemma OutputsInOrder(cfg: Config, s: State, i: Input)
    ensures Ascending(Outputs(cfg, s, i), 0, 4)
  {
    if i.Poll? {
      var r := ForReboot(s, i.change);
      var sleep := SleepOutputs(cfg, s, i.temp, i.now, SleepDue(s, i.change));
      var reboot := RebootOutputs(cfg, r, i.temp, i.now, RebootDue(s, i.change));
      RequestsForcedFirst(cfg.deepSleep, SleepDue(s, i.change), SleepZone(cfg, s, i.temp, i.now), i.temp, i.now);
      RequestsForcedFirst(cfg.reboot, RebootDue(s, i.change), RebootZone(cfg, r, i.temp, i.now), i.temp, i.now);
      forall rs | ForcedFirst(rs) ensures Ascending(AsSleep(rs), 0, 1) && Ascending(AsReboot(rs), 2, 3) {
        AscendingRequests(rs);
      }
      AscendingAppend(sleep, reboot, 0, 1, 3);
      AscendingAppend(sleep + reboot, ClockOutputs(cfg, s, i.temp, i.now), 0, 3, 4);
    }
  }
}
