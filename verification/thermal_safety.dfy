/** Deep sleep comes before reboot, in every run of polls and grace changes, also of those that fall into a poll. */
module ThermalOrder {
  import opened ThermalSpec
  import opened ThermalHistory

  predicate Sane(th: Thresholds) { th.safe <= th.concern <= th.critical }

  predicate AtMost(a: Thresholds, b: Thresholds) {
    a.critical <= b.critical && a.concern <= b.concern && a.safe <= b.safe
  }

  predicate Ordered(cfg: Config) {
    Sane(cfg.deepSleep) && Sane(cfg.reboot) && AtMost(cfg.deepSleep, cfg.reboot)
  }

  predicate Clocked(inputs: seq<Input>) {
    forall i, j :: 0 <= i < j < |inputs| && inputs[i].Poll? && inputs[j].Poll? ==> inputs[i].now <= inputs[j].now
  }

  predicate AsksSleep(out: seq<Output>) { SleepRequest(Forced) in out || SleepRequest(Graced) in out }

  predicate AsksReboot(out: seq<Output>) { RebootRequest(Forced) in out || RebootRequest(Graced) in out }

  /** The deep-sleep zone has been active at least as long as the reboot zone. */
  predicate SleepLeads(s: State) {
    s.reboot.active ==> s.deepSleep.active && s.deepSleep.since <= s.reboot.since
  }

  /** Deep sleep does not wait longer; a negative interval, which a setting can give, is no wait at all. */
  predicate NotSlower(s: State) { s.sleepGrace < 0 || s.sleepGrace <= s.rebootGrace }

  /** The intervals put deep sleep first: there is no reboot check, or there is a deep-sleep check that is not
      slower, or one that is forced as soon as the reboot zone can be entered. */
  predicate SleepFirst(cfg: Config, s: State) {
    || s.rebootGrace == 0
    || (s.sleepGrace != 0 && (NotSlower(s) || cfg.deepSleep.critical <= cfg.reboot.concern))
  }

  /** A change of the interval inside a poll, with the intervals it finds. */
  datatype Crossing = Crossing(sleep: int, reboot: int, change: Change)

  /** Both checks are on, and deep sleep waits for its interval. */
  predicate Waits(cfg: Config, c: Crossing) {
    c.reboot != 0 && c.sleep > 0 && cfg.reboot.concern < cfg.deepSleep.critical
  }

  /** The change does not turn on the reboot check behind a deep-sleep check that was off. While deep sleep waits,
      it does not turn the checks off between the test of the one and the test of the other, and after the
      comparison of the one it gives the other no shorter interval. */
  predicate SafeChange(cfg: Config, c: Crossing) {
    Accepted(c.change) ==>
      && (c.change.place != InRebootCheck && c.sleep == 0 ==> c.change.interval == 0)
      && (Waits(cfg, c) ==>
            c.change.interval >= if c.change.place == InSleepCheck then 1 else c.sleep)
  }

  /** The change that falls into input n, with the intervals before it. */
  function CrossingAt(cfg: Config, s: State, inputs: seq<Input>, n: nat): Crossing
    requires n < |inputs| && inputs[n].Poll?
  {
    var before := Run(cfg, s, inputs[..n]);
    Crossing(before.sleepGrace, before.rebootGrace, inputs[n].change)
  }

  /** All changes inside polls are safe ones. */
  predicate SafelyChanged(cfg: Config, s: State, inputs: seq<Input>) {
    forall n :: 0 <= n < |inputs| && inputs[n].Poll? ==> SafeChange(cfg, CrossingAt(cfg, s, inputs, n))
  }

  /** Deep sleep leads with an interval that is not longer. When it is forced by the readings that enter the
      reboot zone, it does not have to. */
  predicate Covered(cfg: Config, s: State) {
    s.reboot.active ==>
      SleepLeads(s) && 0 <= s.sleepGrace <= s.rebootGrace && cfg.reboot.concern < cfg.deepSleep.critical
  }

  /** While deep sleep leads, a poll that asks for a reboot also asks for deep sleep; if deep sleep no
      longer leads after the poll, it asked for deep sleep. */
  lemma PollOrder(cfg: Config, s: State, temp: int, now: int, ch: Change)
    requires Ordered(cfg) && SleepFirst(cfg, s) && Covered(cfg, s)
    requires SafeChange(cfg, Crossing(s.sleepGrace, s.rebootGrace, ch))
    requires s.deepSleep.active ==> s.deepSleep.since <= now
    ensures var out := Outputs(cfg, s, Poll(temp, now, ch));
            && (AsksReboot(out) ==> AsksSleep(out))
            && (Covered(cfg, Step(cfg, s, Poll(temp, now, ch))) || AsksSleep(out))
  {
    RequestsOfPoll(cfg, s, temp, now, ch);
  }

  /** Input k asked for deep sleep, and the reboot zone has been active ever since. */
  ghost predicate AskedInZone(cfg: Config, s: State, inputs: seq<Input>, k: nat) {
    && k < |inputs| && AsksSleep(OutputsAt(cfg, s, inputs, k))
    && forall i :: k < i <= |inputs| ==> Run(cfg, s, inputs[..i]).reboot.active
  }

  lemma {:induction false} AskedOneMore(cfg: Config, s: State, inputs: seq<Input>, i: Input, k: nat)
    requires AskedInZone(cfg, s, inputs, k) && Run(cfg, s, inputs + [i]).reboot.active
    ensures AskedInZone(cfg, s, inputs + [i], k)
  {
    var all := inputs + [i];
    assert all[..k] == inputs[..k];
    forall j | k < j <= |all| ensures Run(cfg, s, all[..j]).reboot.active {
      if j <= |inputs| {
        assert all[..j] == inputs[..j];
      } else {
        assert all[..j] == all;
      }
    }
  }

  lemma {:induction false} AskedNow(cfg: Config, s: State, inputs: seq<Input>, i: Input)
    requires AsksSleep(Outputs(cfg, Run(cfg, s, inputs), i)) && Run(cfg, s, inputs + [i]).reboot.active
    ensures AskedInZone(cfg, s, inputs + [i], |inputs|)
  {
    var all := inputs + [i];
    assert all[..|inputs|] == inputs && all[..|all|] == all;
  }

  lemma RunOneMore(cfg: Config, s: State, inputs: seq<Input>, i: Input)
    ensures Run(cfg, s, inputs + [i]) == Step(cfg, Run(cfg, s, inputs), i)
  {
    assert (inputs + [i])[..|inputs|] == inputs;
  }

  /** The deep-sleep zone was not entered after the last poll. */
  lemma {:induction false} EnteredBefore(cfg: Config, s: State, inputs: seq<Input>, now: int)
    requires Initial(s) && forall i :: 0 <= i < |inputs| && inputs[i].Poll? ==> inputs[i].now <= now
    ensures Run(cfg, s, inputs).deepSleep.active ==> Run(cfg, s, inputs).deepSleep.since <= now
    decreases |inputs|
  {
    if inputs != [] {
      EnteredBefore(cfg, s, inputs[..|inputs| - 1], now);
    }
  }

  /** The condition on the intervals survives every input. */
  lemma {:induction false} SleepStaysFirst(cfg: Config, s: State, inputs: seq<Input>)
    requires SleepFirst(cfg, s)
    ensures SleepFirst(cfg, Run(cfg, s, inputs))
    decreases |inputs|
  {
    if inputs != [] {
      SleepStaysFirst(cfg, s, inputs[..|inputs| - 1]);
    }
  }

  lemma {:induction false} SafelyBefore(cfg: Config, s: State, inputs: seq<Input>, n: nat)
    requires SafelyChanged(cfg, s, inputs) && n <= |inputs|
    ensures SafelyChanged(cfg, s, inputs[..n])
    ensures n < |inputs| && inputs[n].Poll? ==> SafeChange(cfg, CrossingAt(cfg, s, inputs, n))
  {
    var before := inputs[..n];
    forall k | 0 <= k < n && before[k].Poll?
      ensures SafeChange(cfg, CrossingAt(cfg, s, before, k))
    {
      assert before[..k] == inputs[..k];
      assert CrossingAt(cfg, s, before, k) == CrossingAt(cfg, s, inputs, k);
    }
  }

  /** At every point of a run, deep sleep leads or has been asked for since the reboot zone was entered. */
  lemma {:induction false} Coverage(cfg: Config, s: State, inputs: seq<Input>) returns (k: nat)
    requires Ordered(cfg) && Initial(s) && SleepFirst(cfg, s) && Clocked(inputs) && SafelyChanged(cfg, s, inputs)
    ensures Covered(cfg, Run(cfg, s, inputs)) || AskedInZone(cfg, s, inputs, k)
    decreases |inputs|
  {
    k := 0;
    if inputs != [] {
      var before, i := inputs[..|inputs| - 1], inputs[|inputs| - 1];
      assert inputs == before + [i];
      SafelyBefore(cfg, s, inputs, |before|);
      k := Coverage(cfg, s, before);
      var b := Run(cfg, s, before);
      if Run(cfg, s, inputs).reboot.active && !Covered(cfg, Run(cfg, s, inputs)) {
        if Covered(cfg, b) {
          SleepStaysFirst(cfg, s, before);
          EnteredBefore(cfg, s, before, i.now);
          PollOrder(cfg, b, i.temp, i.now, i.change);
          AskedNow(cfg, s, before, i);
          k := |before|;
        } else {
          AskedOneMore(cfg, s, before, i, k);
        }
      }
    }
  }

  /** Deep sleep is tried before reboot: a reboot request comes with a deep-sleep request in the same poll, or
      after one made since the reboot zone was entered. */
  lemma {:induction false} DeepSleepFirst(cfg: Config, s: State, inputs: seq<Input>, n: nat) returns (k: nat)
    requires Ordered(cfg) && Initial(s) && SleepFirst(cfg, s) && Clocked(inputs) && SafelyChanged(cfg, s, inputs)
    requires n < |inputs| && AsksReboot(OutputsAt(cfg, s, inputs, n))
    ensures AsksSleep(OutputsAt(cfg, s, inputs, n)) || AskedInZone(cfg, s, inputs[..n], k)
  {
    var before, i := inputs[..n], inputs[n];
    SafelyBefore(cfg, s, inputs, n);
    k := Coverage(cfg, s, before);
    var b := Run(cfg, s, before);
    assert i.Poll?;
    if Covered(cfg, b) {
      SleepStaysFirst(cfg, s, before);
      EnteredBefore(cfg, s, before, i.now);
      PollOrder(cfg, b, i.temp, i.now, i.change);
    }
  }

  /** Input n asks for a reboot although deep sleep has not been tried. */
  ghost predicate Untried(cfg: Config, s: State, inputs: seq<Input>, n: nat) {
    && Clocked(inputs) && n < |inputs|
    && AsksReboot(OutputsAt(cfg, s, inputs, n)) && !AsksSleep(OutputsAt(cfg, s, inputs, n))
    && forall k: nat :: !AskedInZone(cfg, s, inputs[..n], k)
  }

  lemma {:induction false} SafeRun(cfg: Config, s: State, inputs: seq<Input>, n: nat)
    requires Ordered(cfg) && Initial(s) && SleepFirst(cfg, s) && SafelyChanged(cfg, s, inputs)
    ensures !Untried(cfg, s, inputs, n)
  {
    if Clocked(inputs) && n < |inputs| && AsksReboot(OutputsAt(cfg, s, inputs, n)) {
      var k := DeepSleepFirst(cfg, s, inputs, n);
    }
  }

  /** Without a deep-sleep check one critical reading asks for a reboot. */
  lemma NoSleepCheck(cfg: Config, s: State)
    requires s.sleepGrace == 0 && s.rebootGrace != 0
    ensures Untried(cfg, s, [Poll(cfg.reboot.critical, 0)], 0)
  {
    RequestsOfPoll(cfg, s, cfg.reboot.critical, 0, Keep);
  }

  /** Two readings at the reboot concern threshold, the interval apart. */
  function TwoReadings(cfg: Config, s: State): seq<Input> {
    [Poll(cfg.reboot.concern, 0), Poll(cfg.reboot.concern, if s.rebootGrace < 0 then 0 else s.rebootGrace)]
  }

  /** With a slower deep-sleep check they ask for a reboot. */
  lemma SlowSleepCheck(cfg: Config, s: State)
    requires Ordered(cfg) && Initial(s) && s.rebootGrace != 0 && 0 < s.sleepGrace && s.rebootGrace < s.sleepGrace
    requires cfg.reboot.concern < cfg.deepSleep.critical
    ensures Untried(cfg, s, TwoReadings(cfg, s), 1)
  {
    var inputs := TwoReadings(cfg, s);
    var first, second := inputs[0], inputs[1];
    var t := Step(cfg, s, first);
    RequestsOfPoll(cfg, s, first.temp, first.now, Keep);
    RequestsOfPoll(cfg, t, second.temp, second.now, Keep);
    assert inputs[..1] == [first] && [first][..0] == [];
    assert Run(cfg, s, [first]) == t;
    assert OutputsAt(cfg, s, inputs, 1) == Outputs(cfg, t, second);
    assert OutputsAt(cfg, s, [first], 0) == Outputs(cfg, s, first);
  }

  /** Intervals that do not put deep sleep first allow a reboot request with deep sleep untried. */
  lemma UnequalIntervals(cfg: Config, s: State) returns (inputs: seq<Input>, n: nat)
    requires Ordered(cfg) && Initial(s) && !SleepFirst(cfg, s)
    ensures Untried(cfg, s, inputs, n) && forall i :: 0 <= i < |inputs| ==> inputs[i].Poll? && inputs[i].change.Keep?
  {
    if s.sleepGrace == 0 {
      NoSleepCheck(cfg, s);
      inputs, n := [Poll(cfg.reboot.critical, 0)], 0;
    } else {
      SlowSleepCheck(cfg, s);
      inputs, n := TwoReadings(cfg, s), 1;
    }
  }

  /** Deep sleep is tried before every reboot request of every run, changes of the interval between polls and
      safe ones inside them included, exactly when the initial intervals put it first. */
  lemma {:induction false} SleepFirstExactly(cfg: Config, s: State)
    requires Ordered(cfg) && Initial(s)
    ensures (forall inputs: seq<Input>, n: nat :: SafelyChanged(cfg, s, inputs) ==> !Untried(cfg, s, inputs, n))
       <==> SleepFirst(cfg, s)
  {
    if SleepFirst(cfg, s) {
      forall inputs: seq<Input>, n: nat | SafelyChanged(cfg, s, inputs)
        ensures !Untried(cfg, s, inputs, n)
      {
        SafeRun(cfg, s, inputs, n);
      }
    } else {
      var inputs, n := UnequalIntervals(cfg, s);
      assert forall i :: 0 <= i < |inputs| ==> !Accepted(CrossingAt(cfg, s, inputs, i).change);
      assert SafelyChanged(cfg, s, inputs);
    }
  }

  // Which changes inside a poll break the order

  /** The changes inside the polls of a run are all among the given ones. */
  ghost predicate ChangesIn(cfg: Config, s: State, inputs: seq<Input>, allowed: iset<Crossing>) {
    forall n :: 0 <= n < |inputs| && inputs[n].Poll? && Accepted(inputs[n].change) ==>
      CrossingAt(cfg, s, inputs, n) in allowed
  }

  /** No input asks for deep sleep, and only the given change falls into a poll. */
  ghost predicate Silent(cfg: Config, s: State, inputs: seq<Input>, c: Crossing) {
    ChangesIn(cfg, s, inputs, iset{c}) && forall k :: 0 <= k < |inputs| ==> !AsksSleep(OutputsAt(cfg, s, inputs, k))
  }

  predicate OnlyChange(s: State, i: Input, c: Crossing) {
    i.Poll? && Accepted(i.change) ==> Crossing(s.sleepGrace, s.rebootGrace, i.change) == c
  }

  lemma {:induction false} SilentOneMore(cfg: Config, s: State, inputs: seq<Input>, i: Input, c: Crossing)
    requires Silent(cfg, s, inputs, c) && !AsksSleep(Outputs(cfg, Run(cfg, s, inputs), i))
    requires OnlyChange(Run(cfg, s, inputs), i, c)
    ensures Silent(cfg, s, inputs + [i], c)
  {
    var all := inputs + [i];
    forall k | 0 <= k < |all|
      ensures !AsksSleep(OutputsAt(cfg, s, all, k))
      ensures all[k].Poll? && Accepted(all[k].change) ==> CrossingAt(cfg, s, all, k) == c
    {
      assert all[..k] == inputs[..k];
      if k < |inputs| {
        assert OutputsAt(cfg, s, all, k) == OutputsAt(cfg, s, inputs, k);
        assert inputs[k].Poll? ==> CrossingAt(cfg, s, all, k) == CrossingAt(cfg, s, inputs, k);
      } else {
        assert inputs[..k] == inputs;
      }
    }
  }

  lemma {:induction false} SilentThenReboot(cfg: Config, s: State, inputs: seq<Input>, i: Input, c: Crossing)
    requires Silent(cfg, s, inputs, c) && OnlyChange(Run(cfg, s, inputs), i, c) && Clocked(inputs + [i])
    requires var out := Outputs(cfg, Run(cfg, s, inputs), i); AsksReboot(out) && !AsksSleep(out)
    ensures Untried(cfg, s, inputs + [i], |inputs|) && ChangesIn(cfg, s, inputs + [i], iset{c})
  {
    SilentOneMore(cfg, s, inputs, i, c);
    assert (inputs + [i])[..|inputs|] == inputs;
  }

  /** A monitor that has just started with the intervals that the change finds. */
  function Fresh(c: Crossing): State { State(c.reboot, c.sleep, Zone(false, 0), Zone(false, 0), 0, 0) }

  /** The reboot check turned on behind a deep-sleep check that is off, at a critical reading. */
  lemma {:induction false} TurnedOn(cfg: Config, c: Crossing) returns (inputs: seq<Input>)
    requires Ordered(cfg) && c.sleep == 0 && c.change.To? && c.change.place != InRebootCheck && c.change.interval > 0
    ensures inputs != [] && Untried(cfg, Fresh(c), inputs, |inputs| - 1) && ChangesIn(cfg, Fresh(c), inputs, iset{c})
  {
    var s, i := Fresh(c), Poll(cfg.reboot.critical, 0, c.change);
    RequestsOfPoll(cfg, s, cfg.reboot.critical, 0, c.change);
    SilentThenReboot(cfg, s, [], i, c);
    inputs := [] + [i];
  }

  /** A reading at the reboot concern threshold enters both zones and asks for nothing yet. */
  lemma {:induction false} BothEntered(cfg: Config, c: Crossing) returns (t: State, inputs: seq<Input>)
    requires Ordered(cfg) && Waits(cfg, c)
    ensures inputs == [Poll(cfg.reboot.concern, 0)] && t == Run(cfg, Fresh(c), inputs)
    ensures t.deepSleep == t.reboot == Zone(true, 0) && t.sleepGrace == c.sleep && t.rebootGrace == c.reboot
    ensures Silent(cfg, Fresh(c), inputs, c)
  {
    var s, i := Fresh(c), Poll(cfg.reboot.concern, 0);
    RequestsOfPoll(cfg, s, i.temp, i.now, Keep);
    SilentOneMore(cfg, s, [], i, c);
    RunOneMore(cfg, s, [], i);
    inputs, t := [] + [i], Step(cfg, s, i);
  }

  /** A shorter interval that only the reboot check compares with. */
  lemma {:induction false} Shortened(cfg: Config, c: Crossing) returns (inputs: seq<Input>)
    requires Ordered(cfg) && Waits(cfg, c) && c.change.To? && 0 <= c.change.interval < c.sleep
    requires c.change.place == InRebootCheck || (c.change.place == BetweenChecks && c.change.interval > 0)
    ensures inputs != [] && Untried(cfg, Fresh(c), inputs, |inputs| - 1) && ChangesIn(cfg, Fresh(c), inputs, iset{c})
  {
    var t, before := BothEntered(cfg, c);
    var i := Poll(cfg.reboot.concern, c.change.interval, c.change);
    RequestsOfPoll(cfg, t, i.temp, i.now, i.change);
    SilentThenReboot(cfg, Fresh(c), before, i, c);
    inputs := before + [i];
  }

  /** Both checks turned off after the deep-sleep zone and before the reboot zone can see a safe reading. */
  lemma {:induction false} TurnedOff(cfg: Config, c: Crossing) returns (inputs: seq<Input>)
    requires Ordered(cfg) && Waits(cfg, c) && c.change.To? && c.change.place != InRebootCheck && c.change.interval == 0
    ensures inputs != [] && Untried(cfg, Fresh(c), inputs, |inputs| - 1) && ChangesIn(cfg, Fresh(c), inputs, iset{c})
  {
    var s := Fresh(c);
    var t, first := BothEntered(cfg, c);
    var off, on := Poll(cfg.deepSleep.safe - 1, 0, c.change), SetGrace(1);
    var last := Poll(cfg.reboot.concern, 1);
    RequestsOfPoll(cfg, t, off.temp, off.now, off.change);
    SilentOneMore(cfg, s, first, off, c);
    RunOneMore(cfg, s, first, off);
    SilentOneMore(cfg, s, first + [off], on, c);
    RunOneMore(cfg, s, first + [off], on);
    var u := Step(cfg, Step(cfg, t, off), on);
    RequestsOfPoll(cfg, u, last.temp, last.now, last.change);
    SilentThenReboot(cfg, s, first + [off] + [on], last, c);
    inputs := first + [off] + [on] + [last];
  }

  /** Every change inside a poll that is not safe allows a reboot request with deep sleep untried. */
  lemma UnsafeChange(cfg: Config, c: Crossing) returns (inputs: seq<Input>)
    requires Ordered(cfg) && !SafeChange(cfg, c)
    ensures inputs != [] && Untried(cfg, Fresh(c), inputs, |inputs| - 1) && ChangesIn(cfg, Fresh(c), inputs, iset{c})
  {
    if c.sleep == 0 {
      inputs := TurnedOn(cfg, c);
    } else if c.change.place == InRebootCheck || (c.change.place == BetweenChecks && c.change.interval > 0) {
      inputs := Shortened(cfg, c);
    } else {
      inputs := TurnedOff(cfg, c);
    }
  }

  lemma {:induction false} ReachedInOrder(cfg: Config, s: State, inputs: seq<Input>, allowed: iset<Crossing>)
    requires SleepFirst(cfg, s) && ChangesIn(cfg, s, inputs, allowed)
    requires forall c :: c in allowed && SleepFirst(cfg, Fresh(c)) ==> SafeChange(cfg, c)
    ensures SafelyChanged(cfg, s, inputs)
  {
    forall n | 0 <= n < |inputs| && inputs[n].Poll?
      ensures SafeChange(cfg, CrossingAt(cfg, s, inputs, n))
    {
      SleepStaysFirst(cfg, s, inputs[..n]);
    }
  }

  /** With changes inside polls limited to given ones, deep sleep is tried before every reboot request of every run
      from intervals that put it first, exactly when the given changes that find such intervals are safe. */
  lemma {:induction false} SafeChangesExactly(cfg: Config, allowed: iset<Crossing>)
    requires Ordered(cfg)
    ensures (forall s: State, inputs: seq<Input>, n: nat ::
               Initial(s) && SleepFirst(cfg, s) && ChangesIn(cfg, s, inputs, allowed) ==> !Untried(cfg, s, inputs, n))
       <==> (forall c :: c in allowed && SleepFirst(cfg, Fresh(c)) ==> SafeChange(cfg, c))
  {
    if c :| c in allowed && SleepFirst(cfg, Fresh(c)) && !SafeChange(cfg, c) {
      var inputs := UnsafeChange(cfg, c);
      assert ChangesIn(cfg, Fresh(c), inputs, allowed);
    } else {
      forall s: State, inputs: seq<Input>, n: nat
        | Initial(s) && SleepFirst(cfg, s) && ChangesIn(cfg, s, inputs, allowed)
        ensures !Untried(cfg, s, inputs, n)
      {
        ReachedInOrder(cfg, s, inputs, allowed);
        SafeRun(cfg, s, inputs, n);
      }
    }
  }

  /** What a request after the grace interval means: the readings since some concerning one, at least the
      current interval ago, were all at or above the safe threshold (or critical). */
  lemma {:induction false} GracedMeaning(cfg: Config, s: State, inputs: seq<Input>, n: nat)
      returns (j: nat, k: nat)
    requires Initial(s) && n < |inputs|
    ensures SleepRequest(Graced) in OutputsAt(cfg, s, inputs, n) ==>
              && inputs[n].Poll?
              && var rs := SleepReadings(cfg, s, inputs[..n + 1]);
              && Entry(cfg.deepSleep, rs, j)
              && inputs[n].now - rs[j].now >= SleepDue(Run(cfg, s, inputs[..n]), inputs[n].change)
    ensures RebootRequest(Graced) in OutputsAt(cfg, s, inputs, n) ==>
              && inputs[n].Poll?
              && var rs := RebootReadings(cfg, s, inputs[..n + 1]);
              && Entry(cfg.reboot, rs, k)
              && inputs[n].now - rs[k].now >= RebootDue(Run(cfg, s, inputs[..n]), inputs[n].change)
  {
    var all, before, i := inputs[..n + 1], inputs[..n], inputs[n];
    assert all == before + [i];
    RunOneMore(cfg, s, before, i);
    ZonesOfRun(cfg, s, all);
    j := ActiveZone(cfg.deepSleep, SleepReadings(cfg, s, all));
    k := ActiveZone(cfg.reboot, RebootReadings(cfg, s, all));
    if i.Poll? {
      RequestsOfPoll(cfg, Run(cfg, s, before), i.temp, i.now, i.change);
    }
  }
}

/** How long a request takes, in a run, once a zone has been entered and the readings stay hot. */
module ThermalTiming {
  import opened ThermalSpec
  import opened ThermalHistory
  import opened ThermalOrder

  /** The two zones, treated alike. */
  datatype Check = SleepCheck | RebootCheck

  function ZoneOf(s: State, c: Check): Zone { if c.SleepCheck? then s.deepSleep else s.reboot }

  function GraceOf(s: State, c: Check): int { if c.SleepCheck? then s.sleepGrace else s.rebootGrace }

  function LimitsOf(cfg: Config, c: Check): Thresholds { if c.SleepCheck? then cfg.deepSleep else cfg.reboot }

  /** The request made after the grace interval. */
  predicate Asks(out: seq<Output>, c: Check) {
    if c.SleepCheck? then SleepRequest(Graced) in out else RebootRequest(Graced) in out
  }

  /** Input a is the poll that enters the zone. */
  predicate EntersAt(cfg: Config, s: State, inputs: seq<Input>, c: Check, a: nat) {
    a < |inputs| && !ZoneOf(Run(cfg, s, inputs[..a]), c).active && ZoneOf(Run(cfg, s, inputs[..a + 1]), c).active
  }

  /** From input a to input n the interval is not changed, and after input a no reading leaves the zone. */
  predicate StaysHot(cfg: Config, inputs: seq<Input>, c: Check, a: nat, n: nat)
    requires n < |inputs|
  {
    forall i :: a <= i <= n ==>
      && !inputs[i].SetGrace?
      && (inputs[i].Poll? ==> inputs[i].change.Keep?)
      && (a < i && inputs[i].Poll? ==> Holds(LimitsOf(cfg, c), Reading(inputs[i].temp, inputs[i].now)))
  }

  lemma {:induction false} ZoneSinceEntry(cfg: Config, s: State, inputs: seq<Input>, c: Check, a: nat, n: nat)
    requires a <= n < |inputs| && EntersAt(cfg, s, inputs, c, a) && StaysHot(cfg, inputs, c, a, n)
    ensures inputs[a].Poll? && ZoneOf(Run(cfg, s, inputs[..n + 1]), c) == Zone(true, inputs[a].now)
    ensures GraceOf(Run(cfg, s, inputs[..n + 1]), c) == GraceOf(Run(cfg, s, inputs[..a]), c) != 0
    decreases n
  {
    assert inputs[..n + 1] == inputs[..n] + [inputs[n]];
    RunOneMore(cfg, s, inputs[..n], inputs[n]);
    if a < n {
      ZoneSinceEntry(cfg, s, inputs, c, a, n - 1);
    }
  }

  /** From the entry on, while the readings stay hot, a poll makes the graced request exactly when the interval
      has passed since the entry. */
  lemma {:induction false} RequestExactly(cfg: Config, s: State, inputs: seq<Input>, c: Check, a: nat, n: nat)
    requires a <= n < |inputs| && EntersAt(cfg, s, inputs, c, a) && StaysHot(cfg, inputs, c, a, n) && inputs[n].Poll?
    ensures inputs[a].Poll?
    ensures Asks(OutputsAt(cfg, s, inputs, n), c) <==>
            inputs[n].now - inputs[a].now >= GraceOf(Run(cfg, s, inputs[..a]), c)
  {
    ZoneSinceEntry(cfg, s, inputs, c, a, n);
    assert inputs[..n + 1] == inputs[..n] + [inputs[n]];
    RunOneMore(cfg, s, inputs[..n], inputs[n]);
    RequestsOfPoll(cfg, Run(cfg, s, inputs[..n]), inputs[n].temp, inputs[n].now, inputs[n].change);
  }

  /** The number of polls after input a up to input n. */
  function PollCount(inputs: seq<Input>, a: nat, n: nat): nat
    requires n < |inputs|
  {
    if n <= a then 0 else PollCount(inputs, a, n - 1) + if inputs[n].Poll? then 1 else 0
  }

  /** The time of the last poll after input a up to input n, or of input a. */
  function LastTime(inputs: seq<Input>, a: nat, n: nat): int
    requires a < |inputs| && inputs[a].Poll? && n < |inputs|
  {
    if n <= a then inputs[a].now else if inputs[n].Poll? then inputs[n].now else LastTime(inputs, a, n - 1)
  }

  /** Every poll comes at least p seconds after the one before. */
  predicate AtLeastApart(inputs: seq<Input>, a: nat, n: nat, p: int)
    requires a < |inputs| && inputs[a].Poll? && n < |inputs|
  {
    forall i :: a < i <= n && inputs[i].Poll? ==> inputs[i].now - LastTime(inputs, a, i - 1) >= p
  }

  predicate AtMostApart(inputs: seq<Input>, a: nat, n: nat, p: int)
    requires a < |inputs| && inputs[a].Poll? && n < |inputs|
  {
    forall i :: a < i <= n && inputs[i].Poll? ==> inputs[i].now - LastTime(inputs, a, i - 1) <= p
  }

  lemma {:induction false} Elapsed(inputs: seq<Input>, a: nat, n: nat, p: nat)
    requires a <= n < |inputs| && inputs[a].Poll? && AtLeastApart(inputs, a, n, p)
    ensures LastTime(inputs, a, n) - inputs[a].now >= PollCount(inputs, a, n) * p
    decreases n
  {
    if a < n {
      Elapsed(inputs, a, n - 1, p);
      var before := PollCount(inputs, a, n - 1);
      assert (before + 1) * p == before * p + p;
    }
  }

  function Ceil(a: int, p: int): int
    requires p > 0
  {
    (a + p - 1) / p
  }

  lemma CeilCovers(a: int, p: int, m: int)
    requires p > 0 && m >= Ceil(a, p)
    ensures m * p >= a
  {
    var q := Ceil(a, p);
    assert a + p - 1 == q * p + (a + p - 1) % p;
    assert m * p == q * p + (m - q) * p && (m - q) * p >= 0;
  }

  /** With polls at least p seconds apart the request is made by the poll number ceil(grace / p) after the entry
      and by every later one. */
  lemma {:induction false} RequestByPoll(cfg: Config, s: State, inputs: seq<Input>, c: Check, a: nat, n: nat, p: nat)
    requires a <= n < |inputs| && EntersAt(cfg, s, inputs, c, a) && StaysHot(cfg, inputs, c, a, n)
    requires inputs[a].Poll? && inputs[n].Poll? && p > 0 && AtLeastApart(inputs, a, n, p)
    requires PollCount(inputs, a, n) >= Ceil(GraceOf(Run(cfg, s, inputs[..a]), c), p)
    ensures Asks(OutputsAt(cfg, s, inputs, n), c)
  {
    Elapsed(inputs, a, n, p);
    CeilCovers(GraceOf(Run(cfg, s, inputs[..a]), c), p, PollCount(inputs, a, n));
    RequestExactly(cfg, s, inputs, c, a, n);
  }

  lemma {:induction false} LastIsPoll(inputs: seq<Input>, a: nat, n: nat)
    requires a <= n < |inputs| && inputs[a].Poll?
    ensures exists i :: a <= i <= n && inputs[i].Poll? && inputs[i].now == LastTime(inputs, a, n)
    decreases n
  {
    if a < n && !inputs[n].Poll? {
      LastIsPoll(inputs, a, n - 1);
    }
  }

  /** The first poll after input a at which the interval has passed. */
  lemma {:induction false} FirstElapsed(inputs: seq<Input>, a: nat, n: nat, grace: int) returns (j: nat)
    requires a < n < |inputs| && inputs[a].Poll? && grace > 0
    requires exists i :: a < i <= n && inputs[i].Poll? && inputs[i].now - inputs[a].now >= grace
    ensures a < j <= n && inputs[j].Poll? && inputs[j].now - inputs[a].now >= grace
    ensures forall i :: a < i < j && inputs[i].Poll? ==> inputs[i].now - inputs[a].now < grace
    ensures LastTime(inputs, a, j - 1) - inputs[a].now < grace
    decreases n
  {
    if i :| a < i < n && inputs[i].Poll? && inputs[i].now - inputs[a].now >= grace {
      j := FirstElapsed(inputs, a, n - 1, grace);
    } else {
      j := n;
      LastIsPoll(inputs, a, n - 1);
    }
  }

  /** With polls at most p seconds apart, once the interval has passed, the first request has been made by a poll
      less than grace + p seconds after the entry. */
  lemma {:induction false} RequestByTime(cfg: Config, s: State, inputs: seq<Input>, c: Check, a: nat, n: nat, p: nat)
      returns (j: nat)
    requires a < n < |inputs| && EntersAt(cfg, s, inputs, c, a) && StaysHot(cfg, inputs, c, a, n)
    requires inputs[a].Poll? && inputs[n].Poll? && AtMostApart(inputs, a, n, p)
    requires 0 < GraceOf(Run(cfg, s, inputs[..a]), c) <= inputs[n].now - inputs[a].now
    ensures a < j <= n && inputs[j].Poll? && Asks(OutputsAt(cfg, s, inputs, j), c)
    ensures inputs[j].now - inputs[a].now < GraceOf(Run(cfg, s, inputs[..a]), c) + p
    ensures forall i :: a <= i < j && inputs[i].Poll? ==> !Asks(OutputsAt(cfg, s, inputs, i), c)
  {
    j := FirstElapsed(inputs, a, n, GraceOf(Run(cfg, s, inputs[..a]), c));
    RequestExactly(cfg, s, inputs, c, a, j);
    forall i | a <= i < j && inputs[i].Poll?
      ensures !Asks(OutputsAt(cfg, s, inputs, i), c)
    {
      RequestExactly(cfg, s, inputs, c, a, i);
    }
  }

  /** A first poll in [concern, critical) without a change of the interval enters its zone. */
  lemma FirstPollEnters(cfg: Config, s: State, inputs: seq<Input>, c: Check)
    requires Initial(s) && GraceOf(s, c) != 0 && inputs != [] && inputs[0].Poll? && inputs[0].change.Keep?
    requires LimitsOf(cfg, c).concern <= inputs[0].temp < LimitsOf(cfg, c).critical
    ensures EntersAt(cfg, s, inputs, c, 0) && Run(cfg, s, inputs[..0]) == s
  {
    assert inputs[..1] == [] + [inputs[0]] && inputs[..0] == [];
    RunOneMore(cfg, s, [], inputs[0]);
  }

  lemma ThreePolls(inputs: seq<Input>)
    requires |inputs| == 3 && inputs[0].Poll? && inputs[1].Poll? && inputs[2].Poll?
    requires inputs[0].now == 0 && inputs[1].now == 1 && inputs[2].now == 2
    ensures AtMostApart(inputs, 0, 2, 10) && PollCount(inputs, 0, 2) == 2
  {
    assert LastTime(inputs, 0, 0) == 0 && LastTime(inputs, 0, 1) == 1 && PollCount(inputs, 0, 1) == 1;
  }

  /** A number of polls is no bound by itself: in this run polls at most ten seconds apart, but only one, make no
      request although there are ceil(20 / 10) of them after the entry. */
  lemma {:induction false} FrequentPollsWait(cfg: Config, s: State, c: Check, hot: int)
    requires Initial(s) && GraceOf(s, c) == 20
    requires LimitsOf(cfg, c).concern <= hot < LimitsOf(cfg, c).critical && LimitsOf(cfg, c).safe <= hot
    ensures var inputs := [Poll(hot, 0), Poll(hot, 1), Poll(hot, 2)];
            && EntersAt(cfg, s, inputs, c, 0) && StaysHot(cfg, inputs, c, 0, 2) && AtMostApart(inputs, 0, 2, 10)
            && PollCount(inputs, 0, 2) == Ceil(20, 10) && !Asks(OutputsAt(cfg, s, inputs, 2), c)
  {
    var inputs := [Poll(hot, 0), Poll(hot, 1), Poll(hot, 2)];
    FirstPollEnters(cfg, s, inputs, c);
    ThreePolls(inputs);
    RequestExactly(cfg, s, inputs, c, 0, 2);
  }
}
