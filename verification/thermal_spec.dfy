/** One poll of the thermal controllers: two zones with grace timers and a three-speed clock. */
module ThermalSpec {

  datatype Thresholds = Thresholds(critical: int, concern: int, safe: int)

  /** An active zone remembers when it was entered. */
  datatype Zone = Zone(active: bool, since: int)

  datatype Request = Forced | Graced

  datatype Config = Config(reboot: Thresholds, deepSleep: Thresholds, declock: Thresholds,
                           declockGrace: int, normal: int, scaled: int, minimal: int)

  datatype State = State(rebootGrace: int, sleepGrace: int, reboot: Zone, deepSleep: Zone,
                         speed: int, clockSince: int)

  /** Where a change of the grace interval can fall into a poll: between the first and the second look at the
      interval in either check, or between the checks. */
  datatype Place = InSleepCheck | BetweenChecks | InRebootCheck

  datatype Change = Keep | To(place: Place, interval: int)

  /** A poll carries the temperature and the one clock sample (seconds) taken for it, and the change of the grace
      interval that falls into it; SetGrace is one between two polls. */
  datatype Input = Poll(temp: int, now: int, change: Change := Keep) | NoReading | SetGrace(interval: int)

  datatype Output = SleepRequest(why: Request) | RebootRequest(why: Request) | SetClock(speed: int)

  // The two zones

  function ZoneStep(th: Thresholds, z: Zone, temp: int, now: int): Zone {
    if temp >= th.critical then z
    else if !z.active && temp >= th.concern then Zone(true, now)
    else if z.active && temp < th.safe then z.(active := false)
    else z
  }

  /** The requests made in zone z, as it is after the poll. */
  function ZoneRequests(th: Thresholds, grace: int, z: Zone, temp: int, now: int): seq<Request> {
    (if temp >= th.critical then [Forced] else []) + if z.active && now - z.since >= grace then [Graced] else []
  }

  // The clock

  predicate MayRise(cfg: Config, since: int, now: int) { now - since >= cfg.declockGrace }

  function Speed(cfg: Config, speed: int, since: int, temp: int, now: int): int {
    if temp >= cfg.declock.critical then cfg.minimal
    else if temp >= cfg.declock.concern then if speed == cfg.normal then cfg.scaled else speed
    else if temp > cfg.declock.safe then
      if speed == cfg.minimal && MayRise(cfg, since, now) then cfg.scaled else speed
    else if MayRise(cfg, since, now) then cfg.normal else speed
  }

  /** The monitor time restarts whenever it is hot, on leaving minimal speed, and above the safe
      threshold at any other speed. */
  function ClockSince(cfg: Config, speed: int, since: int, temp: int, now: int): int {
    if temp >= cfg.declock.critical || temp >= cfg.declock.concern then now
    else if temp > cfg.declock.safe && (speed != cfg.minimal || MayRise(cfg, since, now)) then now
    else since
  }

  /** Whether the platform is told to change speed. */
  predicate SetsClock(cfg: Config, speed: int, since: int, temp: int, now: int) {
    if temp >= cfg.declock.critical then speed != cfg.minimal
    else if temp >= cfg.declock.concern then speed == cfg.normal
    else if temp > cfg.declock.safe then speed == cfg.minimal && MayRise(cfg, since, now)
    else speed != cfg.normal && MayRise(cfg, since, now)
  }

  // A whole input

  function AsSleep(rs: seq<Request>): seq<Output> { seq(|rs|, i requires 0 <= i < |rs| => SleepRequest(rs[i])) }

  function AsReboot(rs: seq<Request>): seq<Output> { seq(|rs|, i requires 0 <= i < |rs| => RebootRequest(rs[i])) }

  predicate Accepted(ch: Change) { ch.To? && ch.interval >= 0 }

  function Changed(s: State, ch: Change): State {
    if Accepted(ch) then s.(rebootGrace := ch.interval, sleepGrace := ch.interval) else s
  }

  /** The effect of the change at one of the places. */
  function At(s: State, ch: Change, place: Place): State {
    if ch.To? && ch.place == place then Changed(s, ch) else s
  }

  /** The state with the intervals that the reboot check finds. */
  function ForReboot(s: State, ch: Change): State { At(At(s, ch, InSleepCheck), ch, BetweenChecks) }

  /** The interval that the deep-sleep check compares with, after the test that it is enabled. */
  function SleepDue(s: State, ch: Change): int { At(s, ch, InSleepCheck).sleepGrace }

  function RebootDue(s: State, ch: Change): int { At(ForReboot(s, ch), ch, InRebootCheck).rebootGrace }

  function SleepZone(cfg: Config, s: State, temp: int, now: int): Zone {
    if s.sleepGrace == 0 then s.deepSleep else ZoneStep(cfg.deepSleep, s.deepSleep, temp, now)
  }

  function RebootZone(cfg: Config, s: State, temp: int, now: int): Zone {
    if s.rebootGrace == 0 then s.reboot else ZoneStep(cfg.reboot, s.reboot, temp, now)
  }

  function SleepOutputs(cfg: Config, s: State, temp: int, now: int, due: int): seq<Output> {
    if s.sleepGrace == 0 then []
    else AsSleep(ZoneRequests(cfg.deepSleep, due, SleepZone(cfg, s, temp, now), temp, now))
  }

  function RebootOutputs(cfg: Config, s: State, temp: int, now: int, due: int): seq<Output> {
    if s.rebootGrace == 0 then []
    else AsReboot(ZoneRequests(cfg.reboot, due, RebootZone(cfg, s, temp, now), temp, now))
  }

  function ClockOutputs(cfg: Config, s: State, temp: int, now: int): seq<Output> {
    if cfg.declockGrace == 0 || !SetsClock(cfg, s.speed, s.clockSince, temp, now) then []
    else [SetClock(Speed(cfg, s.speed, s.clockSince, temp, now))]
  }

  function Step(cfg: Config, s: State, i: Input): State {
    match i
    case NoReading => s
    case SetGrace(g) => if g >= 0 then s.(rebootGrace := g, sleepGrace := g) else s
    case Poll(temp, now, ch) =>
      Changed(s, ch).(
        deepSleep := SleepZone(cfg, s, temp, now), reboot := RebootZone(cfg, ForReboot(s, ch), temp, now),
        speed := if cfg.declockGrace == 0 then s.speed else Speed(cfg, s.speed, s.clockSince, temp, now),
        clockSince := if cfg.declockGrace == 0 then s.clockSince
                      else ClockSince(cfg, s.speed, s.clockSince, temp, now))
  }

  function Outputs(cfg: Config, s: State, i: Input): seq<Output> {
    if i.Poll? then
      SleepOutputs(cfg, s, i.temp, i.now, SleepDue(s, i.change))
      + RebootOutputs(cfg, ForReboot(s, i.change), i.temp, i.now, RebootDue(s, i.change))
      + ClockOutputs(cfg, s, i.temp, i.now)
    else []
  }

  /** The state after a series of inputs. */
  function Run(cfg: Config, s: State, inputs: seq<Input>): State {
    if inputs == [] then s else Step(cfg, Run(cfg, s, inputs[..|inputs| - 1]), inputs[|inputs| - 1])
  }

  /** The outputs caused by input n of a series. */
  function OutputsAt(cfg: Config, s: State, inputs: seq<Input>, n: nat): seq<Output>
    requires n < |inputs|
  {
    Outputs(cfg, Run(cfg, s, inputs[..n]), inputs[n])
  }

  /** All outputs of a series of inputs, in order. */
  function AllOutputs(cfg: Config, s: State, inputs: seq<Input>): seq<Output> {
    if inputs == [] then []
    else AllOutputs(cfg, s, inputs[..|inputs| - 1]) + OutputsAt(cfg, s, inputs, |inputs| - 1)
  }
}
