/** The thermal monitor with its statics, updated by the poll loop and by the grace-interval call, which runs beside
    it and takes no lock. */
module ThermalMonitor {
  import opened ThermalSpec

  class Monitor {
    const cfg: Config
    const initial: State
    var rebootGraceInterval: int
    var deepSleepGraceInterval: int
    var rebootZone: bool
    var rebootMonitorTime: int
    var deepSleepZone: bool
    var deepSleepMonitorTime: int
    var curCpuSpeed: int
    var declockMonitorTime: int

    ghost var inputs: seq<Input>
    ghost var outputs: seq<Output>

    ghost function Abs(): State
      reads this
    {
      State(rebootGraceInterval, deepSleepGraceInterval, Zone(rebootZone, rebootMonitorTime),
            Zone(deepSleepZone, deepSleepMonitorTime), curCpuSpeed, declockMonitorTime)
    }

    ghost predicate Valid()
      reads this
    {
      Abs() == Run(cfg, initial, inputs) && outputs == AllOutputs(cfg, initial, inputs)
    }

    constructor (cfg: Config, rebootGrace: int, deepSleepGrace: int, speed: int)
      ensures Valid() && inputs == [] && this.cfg == cfg
      ensures initial == State(rebootGrace, deepSleepGrace, Zone(false, 0), Zone(false, 0), speed, 0)
    {
      this.cfg := cfg;
      initial := State(rebootGrace, deepSleepGrace, Zone(false, 0), Zone(false, 0), speed, 0);
      rebootGraceInterval, deepSleepGraceInterval := rebootGrace, deepSleepGrace;
      rebootZone, rebootMonitorTime, deepSleepZone, deepSleepMonitorTime := false, 0, false, 0;
      curCpuSpeed, declockMonitorTime := speed, 0;
      inputs, outputs := [], [];
    }

    /** The requests of a zone as outputs, one after the other. */
    static lemma AsOutputs(out: seq<Output>, th: Thresholds, grace: int, z: Zone, temp: int, now: int)
      ensures var r := ZoneRequests(th, grace, z, temp, now);
              var forced, graced := temp >= th.critical, z.active && now - z.since >= grace;
              && (out + if forced then [SleepRequest(Forced)] else []) + (if graced then [SleepRequest(Graced)] else [])
                 == out + AsSleep(r)
              && (out + if forced then [RebootRequest(Forced)] else [])
                 + (if graced then [RebootRequest(Graced)] else [])
                 == out + AsReboot(r)
    {
    }

    /** The call that falls into a poll, when it falls here. */
    method CallAt(ch: Change, place: Place)
      modifies this`rebootGraceInterval, this`deepSleepGraceInterval
      ensures Abs() == At(old(Abs()), ch, place)
    {
      if ch.To? && ch.place == place && ch.interval >= 0 {
        rebootGraceInterval, deepSleepGraceInterval := ch.interval, ch.interval;
      }
    }

    method DeepSleepIfNeeded(curThermalValue: int, now: int, ch: Change)
      modifies this
      ensures Abs() == At(old(Abs()), ch, InSleepCheck).(deepSleep := SleepZone(cfg, old(Abs()), curThermalValue, now))
      ensures outputs == old(outputs)
                         + SleepOutputs(cfg, old(Abs()), curThermalValue, now, SleepDue(old(Abs()), ch))
      ensures inputs == old(inputs)
    {
      assert outputs + [] == outputs;
      if deepSleepGraceInterval == 0 {
        CallAt(ch, InSleepCheck);
        return;
      }
      if curThermalValue >= cfg.deepSleep.critical {
        outputs := outputs + [SleepRequest(Forced)];
      } else if !deepSleepZone && curThermalValue >= cfg.deepSleep.concern {
        deepSleepMonitorTime := now;
        deepSleepZone := true;
      } else if deepSleepZone && curThermalValue < cfg.deepSleep.safe {
        deepSleepZone := false;
      }
      CallAt(ch, InSleepCheck);
      if deepSleepZone {
        var difftime := now - deepSleepMonitorTime;
        if difftime >= deepSleepGraceInterval {
          outputs := outputs + [SleepRequest(Graced)];
        }
      }
      AsOutputs(old(outputs), cfg.deepSleep, deepSleepGraceInterval, Zone(deepSleepZone, deepSleepMonitorTime),
                curThermalValue, now);
    }

    method RebootIfNeeded(curThermalValue: int, now: int, ch: Change)
      modifies this
      ensures Abs() == At(old(Abs()), ch, InRebootCheck).(reboot := RebootZone(cfg, old(Abs()), curThermalValue, now))
      ensures outputs == old(outputs) + RebootOutputs(cfg, old(Abs()), curThermalValue, now,
                                                      At(old(Abs()), ch, InRebootCheck).rebootGrace)
      ensures inputs == old(inputs)
    {
      assert outputs + [] == outputs;
      if rebootGraceInterval == 0 {
        CallAt(ch, InRebootCheck);
        return;
      }
      if curThermalValue >= cfg.reboot.critical {
        outputs := outputs + [RebootRequest(Forced)];
      } else if !rebootZone && curThermalValue >= cfg.reboot.concern {
        rebootMonitorTime := now;
        rebootZone := true;
      } else if rebootZone && curThermalValue < cfg.reboot.safe {
        rebootZone := false;
      }
      CallAt(ch, InRebootCheck);
      if rebootZone {
        var difftime := now - rebootMonitorTime;
        if difftime >= rebootGraceInterval {
          outputs := outputs + [RebootRequest(Graced)];
        }
      }
      AsOutputs(old(outputs), cfg.reboot, rebootGraceInterval, Zone(rebootZone, rebootMonitorTime),
                curThermalValue, now);
    }

    method DeclockIfNeeded(curThermalValue: int, now: int)
      modifies this
      ensures Abs() == old(Abs()).(
                speed := if cfg.declockGrace == 0 then old(curCpuSpeed)
                         else Speed(cfg, old(curCpuSpeed), old(declockMonitorTime), curThermalValue, now),
                clockSince := if cfg.declockGrace == 0 then old(declockMonitorTime)
                              else ClockSince(cfg, old(curCpuSpeed), old(declockMonitorTime), curThermalValue, now))
      ensures outputs == old(outputs) + ClockOutputs(cfg, old(Abs()), curThermalValue, now)
      ensures inputs == old(inputs)
    {
      assert outputs + [] == outputs;
      if cfg.declockGrace == 0 {
        return;
      }
      if curThermalValue >= cfg.declock.critical {
        if curCpuSpeed != cfg.minimal {
          outputs := outputs + [SetClock(cfg.minimal)];
          curCpuSpeed := cfg.minimal;
        }
        declockMonitorTime := now;
      } else if curThermalValue >= cfg.declock.concern {
        if curCpuSpeed == cfg.normal {
          outputs := outputs + [SetClock(cfg.scaled)];
          curCpuSpeed := cfg.scaled;
        }
        declockMonitorTime := now;
      } else if curThermalValue > cfg.declock.safe {
        if curCpuSpeed == cfg.minimal {
          var difftime := now - declockMonitorTime;
          if difftime >= cfg.declockGrace {
            outputs := outputs + [SetClock(cfg.scaled)];
            curCpuSpeed := cfg.scaled;
            declockMonitorTime := now;
          }
        } else {
          declockMonitorTime := now;
        }
      } else if curCpuSpeed != cfg.normal {
        var difftime := now - declockMonitorTime;
        if difftime >= cfg.declockGrace {
          outputs := outputs + [SetClock(cfg.normal)];
          curCpuSpeed := cfg.normal;
        }
      }
    }

    static lemma Joined(out: seq<Output>, a: seq<Output>, b: seq<Output>, c: seq<Output>)
      ensures out + a + b + c == out + (a + b + c)
    {
    }

    /** The three checks of one reading. */
    method CheckLevels(curThermalValue: int, now: int, ch: Change)
      modifies this
      ensures Abs() == Step(cfg, old(Abs()), Poll(curThermalValue, now, ch))
      ensures outputs == old(outputs) + Outputs(cfg, old(Abs()), Poll(curThermalValue, now, ch))
      ensures inputs == old(inputs)
    {
      ghost var s := Abs();
      ghost var sleep := SleepOutputs(cfg, s, curThermalValue, now, SleepDue(s, ch));
      ghost var reboot := RebootOutputs(cfg, ForReboot(s, ch), curThermalValue, now, RebootDue(s, ch));
      DeepSleepIfNeeded(curThermalValue, now, ch);
      CallAt(ch, BetweenChecks);
      assert outputs == old(outputs) + sleep;
      assert Abs() == ForReboot(s, ch).(deepSleep := SleepZone(cfg, s, curThermalValue, now));
      RebootIfNeeded(curThermalValue, now, ch);
      assert outputs == old(outputs) + sleep + reboot;
      DeclockIfNeeded(curThermalValue, now);
      Joined(old(outputs), sleep, reboot, ClockOutputs(cfg, s, curThermalValue, now));
    }

    /** One turn of the poll loop, with the call that falls into it; a poll without a reading does nothing. */
    method PollThermalLevels(ok: bool, curThermalValue: int, now: int, ch: Change)
      requires Valid()
      modifies this
      ensures Valid() && inputs == old(inputs) + [if ok then Poll(curThermalValue, now, ch) else NoReading]
      ensures outputs == old(outputs) + OutputsAt(cfg, initial, inputs, |inputs| - 1)
    {
      ghost var i := if ok then Poll(curThermalValue, now, ch) else NoReading;
      assert (inputs + [i])[..|inputs|] == inputs && outputs + [] == outputs;
      inputs := inputs + [i];
      if ok {
        CheckLevels(curThermalValue, now, ch);
      }
    }

    method SetOvertempGraceInterval(graceInterval: int) returns (ok: bool)
      requires Valid()
      modifies this
      ensures Valid() && inputs == old(inputs) + [SetGrace(graceInterval)] && outputs == old(outputs)
      ensures ok == (graceInterval >= 0)
    {
      assert (inputs + [SetGrace(graceInterval)])[..|inputs|] == inputs;
      inputs := inputs + [SetGrace(graceInterval)];
      ok := graceInterval >= 0;
      if ok {
        rebootGraceInterval := graceInterval;
        deepSleepGraceInterval := graceInterval;
      }
    }
  }
}
