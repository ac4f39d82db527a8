/** A reference description of the reset recogniser: one step per key event, with the effect of the
    loop over the five machines given in closed form. */
module ResetSpec {
  import opened ResetRules

  /** A key event, with the one clock sample (milliseconds) taken while it is handled. */
  datatype Event = Event(keyType: int, keyCode: int, time: int)

  datatype Output =
    | Progress(level: int)  // reset_sequence_progress broadcast; -1 means the sequence is over
    | Action(mode: Mode)    // the reset function of a mode is called
    | Reboot
    | RequestFocus
    | ReleaseFocus

  datatype State = State(
    index: seq<int>,        // expectedKeyIndex of each machine
    pressed: int,           // gKeyPressedTime
    released: int,          // gKeyReleasedTime
    current: int,           // gCurrentTime
    timeout: int,           // gTimeOutValue
    inReset: bool,          // inResetMode
    monitored: bool,        // gResetMonitoredOnIBus
    lastEvent: int,         // gLastResetEvent
    focus: bool)            // grabedFocus

  const ZEROS: seq<int> := [0, 0, 0, 0, 0]
  const ONES: seq<int> := [1, 1, 1, 1, 1]

  const INITIAL := State(ZEROS, 0, 0, 0, 0, false, false, 0, false)

  /** Every index points at a key of its sequence, never at the terminator. */
  predicate InRange(index: seq<int>) {
    |index| == MAX_RESET_MODE_COUNT && forall m: Mode :: 0 <= index[m] < Length(m)
  }

  predicate Uniform(index: seq<int>)
    requires |index| == MAX_RESET_MODE_COUNT
  {
    forall m: Mode, n: Mode :: index[m] > 0 && index[n] > 0 ==> index[m] == index[n]
  }

  /** The invariant at event boundaries. */
  predicate Inv(s: State) {
    && InRange(s.index)
    && (s.inReset <==> s.focus)
    && (s.inReset <==> s.current != 0)
    && (s.monitored ==> s.inReset)
    && (s.monitored <==> s.lastEvent != 0)
    && Uniform(s.index)
    && (s.inReset ==> s.index != ZEROS)
    && (!s.inReset ==> s.timeout == 0 && forall m: Mode :: s.index[m] <= 1)
  }

  // ResetResetState

  function Cleared(s: State): State {
    State(ZEROS, 0, 0, 0, 0, false, false, if s.monitored then 0 else s.lastEvent, false)
  }

  function ClearOutputs(s: State): seq<Output> {
    (if s.focus then [ReleaseFocus] else []) + (if s.monitored then [Progress(-1)] else [])
  }

  // The loop over the machines

  function Next(m: Mode, j: int, code: int): int
    requires 0 <= j < Length(m)
  {
    if Rule(m)[j].key == code then j + 1 else 0
  }

  /** The first n machines advance on their expected key or restart, without trying the key again. */
  function Moved(index: seq<int>, code: int, n: nat): seq<int>
    requires InRange(index)
  {
    seq(MAX_RESET_MODE_COUNT,
        m requires 0 <= m < MAX_RESET_MODE_COUNT => if m < n then Next(m, index[m], code) else index[m])
  }

  function Advance(index: seq<int>, code: int): seq<int>
    requires InRange(index)
  {
    Moved(index, code, MAX_RESET_MODE_COUNT)
  }

  /** The common value of the non-zero indices. */
  function Level(index: seq<int>): int
    requires |index| == MAX_RESET_MODE_COUNT
  {
    if index[0] > 0 then index[0] else if index[1] > 0 then index[1] else if index[2] > 0 then index[2]
    else if index[3] > 0 then index[3] else index[4]
  }

  /** The first of the machines lo..hi whose sequence is complete in next, or hi if there is none. */
  function FirstComplete(next: seq<int>, lo: int, hi: int): (f: int)
    requires |next| == MAX_RESET_MODE_COUNT && 0 <= lo <= hi <= MAX_RESET_MODE_COUNT
    ensures lo <= f <= hi
    ensures forall m: Mode :: lo <= m < f ==> next[m] != Length(m)
    ensures f < hi ==> next[f] == Length(f)
    decreases hi - lo
  {
    if lo == hi || next[lo] == Length(lo) then lo else FirstComplete(next, lo + 1, hi)
  }

  lemma FirstCompleteIs(next: seq<int>, hi: int, f: int)
    requires |next| == MAX_RESET_MODE_COUNT && 0 <= f <= hi <= MAX_RESET_MODE_COUNT
    requires forall m: Mode {:trigger next[m]} :: m < f ==> next[m] != Length(m)
    requires f < hi ==> next[f] == Length(f)
    ensures FirstComplete(next, 0, hi) == f
  {
  }

  lemma LevelIs(index: seq<int>, m: Mode)
    requires |index| == MAX_RESET_MODE_COUNT && Uniform(index) && forall n: Mode :: index[n] >= 0
    ensures index[m] > 0 ==> Level(index) == index[m]
  {
  }

  /** Some machine past its first key accepts the key. */
  predicate Hit(index: seq<int>, next: seq<int>, n: nat)
    requires |index| == |next| == MAX_RESET_MODE_COUNT && n <= MAX_RESET_MODE_COUNT
  {
    exists m: Mode :: m < n && index[m] > 0 && next[m] > 0
  }

  /** The indices left behind by the action of machine f: the machines after it are at their first
      key, and a POWER release moves them to index 1 although reset mode is over. */
  function Stale(f: nat, n: nat, code: int): seq<int>
    requires f < n <= MAX_RESET_MODE_COUNT
  {
    seq(MAX_RESET_MODE_COUNT, m => if f < m < n && code == KED_POWER then 1 else 0)
  }

  /** The state once the first n machines have seen a released key, and out extended by their outputs.
      The first machine to complete its sequence acts and resets all machines; the ones after it still
      see the key. */
  function AfterMachines(s: State, out: seq<Output>, code: int, now: int, n: nat): (State, seq<Output>)
    requires InRange(s.index) && n <= MAX_RESET_MODE_COUNT
  {
    var next := Advance(s.index, code);
    var level := Level(s.index);
    var f := FirstComplete(next, 0, n);
    var hit := Hit(s.index, next, n);
    var out' := if hit && s.lastEvent != level then out + [Progress(level)] else out;
    if f < n then
      (INITIAL.(index := Stale(f, n, code)), out' + [Action(f), ReleaseFocus, Progress(-1)])
    else if hit then
      (s.(index := Moved(s.index, code, n), current := now, timeout := KEY_COMBINATION_TIMEOUT,
          monitored := true, lastEvent := level), out')
    else
      (s.(index := Moved(s.index, code, n)), out)
  }

  function SessionKeyUp(s: State, code: int, now: int): (State, seq<Output>)
    requires InRange(s.index)
  {
    var r := AfterMachines(s, [], code, now, MAX_RESET_MODE_COUNT);
    if r.0.inReset && r.0.index == ZEROS then (Cleared(r.0), r.1 + ClearOutputs(r.0)) else r
  }

  // Outside reset mode

  function Opened(s: State, now: int): State {
    Cleared(s).(index := ONES, inReset := true, current := now, timeout := INITIAL_TIME_OUT_VALUE, focus := true)
  }

  /** The release of a power key outside reset mode: reboot, open a session, or start over. */
  function PowerRelease(s: State, code: int, now: int): (State, seq<Output>, int) {
    var hold := if s.pressed == 0 then 0 else now - s.pressed;
    if code == KED_FACTORY || hold < POWER_KEY_HOLD_TIME_FOR_RESET then
      (Cleared(s), ClearOutputs(s), 0)
    else if hold > POWER_KEY_HOLD_TIME_FOR_REBOOT then
      (s.(released := now), [Reboot], 1)
    else
      (Opened(s, now), ClearOutputs(s) + [RequestFocus], 1)
  }

  predicate Expired(s: State, now: int) { s.current != 0 && now - s.current > s.timeout }

  /** The time-out check made before every key event. */
  function Tick(s: State, now: int): State {
    if Expired(s, now) then Cleared(s) else if s.current != 0 then s.(pressed := now) else s
  }

  function TickOutputs(s: State, now: int): seq<Output> {
    if Expired(s, now) then ClearOutputs(s) else []
  }

  function Dispatch(s: State, keyType: int, code: int, now: int): (State, seq<Output>, int)
    requires InRange(s.index)
  {
    if keyType == KET_KEYDOWN && !s.inReset && PowerFamily(code) then
      (s.(pressed := now), [], 0)
    else if keyType == KET_KEYUP && s.inReset then
      var r := SessionKeyUp(s, code, now);
      (r.0, r.1, 0)
    else if keyType == KET_KEYUP && PowerFamily(code) then
      PowerRelease(s, code, now)
    else
      (s, [], 0)
  }

  /** One key event: the new state, the outputs in order, and the value returned to the caller. */
  function Step(s: State, e: Event): (State, seq<Output>, int)
    requires InRange(s.index)
  {
    var t := Tick(s, e.time);
    var r := Dispatch(t, e.keyType, Translate(e.keyCode), e.time);
    (r.0, TickOutputs(s, e.time) + r.1, r.2)
  }

  lemma TickInv(s: State, now: int)
    requires Inv(s)
    ensures Inv(Tick(s, now))
  {
  }

  /** POWER takes a machine to its second key only from the start; other keys never leave the start. */
  lemma NextShape(m: Mode, j: int, code: int)
    requires 0 <= j < Length(m)
    ensures j == 0 ==> Next(m, j, code) == if code == KED_POWER then 1 else 0
    ensures 0 < j < Length(m) - 1 && code == KED_POWER ==> Next(m, j, code) == 0
  {
    RuleShape(m);
  }

  /** If no machine completes, the non-zero indices stay equal: a POWER release restarts all machines
      that are under way and starts all others, any other key only moves machines that are under way. */
  lemma AdvanceUniform(index: seq<int>, code: int)
    requires InRange(index) && Uniform(index)
    requires forall m: Mode :: Advance(index, code)[m] != Length(m)
    ensures var next := Advance(index, code);
            InRange(next) && Uniform(next) && forall m: Mode :: code != KED_POWER && next[m] > 0 ==> index[m] > 0
    ensures code == KED_POWER ==> !Hit(index, Advance(index, code), MAX_RESET_MODE_COUNT)
  {
    var next := Advance(index, code);
    forall m: Mode
      ensures next[m] == 0 || next[m] == index[m] + 1 < Length(m)
      ensures next[m] > 0 ==> if code == KED_POWER then index[m] == 0 else index[m] > 0
    {
      NextShape(m, index[m], code);
      assert next[m] == Next(m, index[m], code);
    }
  }

  lemma StaleInRange(f: nat, n: nat, code: int)
    requires f < n <= MAX_RESET_MODE_COUNT
    ensures InRange(Stale(f, n, code))
    ensures forall m: Mode :: Stale(f, n, code)[m] <= 1
  {
  }

  lemma SessionInv(s: State, code: int, now: int)
    requires Inv(s) && s.inReset && now > 0
    ensures Inv(SessionKeyUp(s, code, now).0)
  {
    var next := Advance(s.index, code);
    var f := FirstComplete(next, 0, MAX_RESET_MODE_COUNT);
    if f < MAX_RESET_MODE_COUNT {
      StaleInRange(f, MAX_RESET_MODE_COUNT, code);
    } else {
      AdvanceUniform(s.index, code);
      assert Level(s.index) != 0;
    }
  }

  lemma ClearedInv(s: State)
    requires Inv(s)
    ensures Inv(Cleared(s))
  {
  }

  lemma OpenedInv(s: State, now: int)
    requires Inv(s) && now > 0 && !s.inReset
    ensures Inv(Opened(s, now))
  {
  }

  lemma ReleaseInv(s: State, code: int, now: int)
    requires Inv(s) && !s.inReset && now > 0
    ensures Inv(PowerRelease(s, code, now).0)
  {
    ClearedInv(s);
    OpenedInv(s, now);
    assert Inv(s.(released := now));
  }

  lemma DispatchInv(s: State, keyType: int, code: int, now: int)
    requires Inv(s) && now > 0
    ensures Inv(Dispatch(s, keyType, code, now).0)
  {
    if keyType == KET_KEYUP {
      if s.inReset {
        SessionInv(s, code, now);
      } else {
        ReleaseInv(s, code, now);
      }
    }
  }

  /** The invariant holds at every event boundary of every run under a positive clock. */
  lemma StepInv(s: State, e: Event)
    requires Inv(s) && e.time > 0
    ensures Inv(Step(s, e).0)
  {
    TickInv(s, e.time);
    DispatchInv(Tick(s, e.time), e.keyType, Translate(e.keyCode), e.time);
  }
}
