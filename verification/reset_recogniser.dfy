/** The recogniser as it runs: five indices updated in place by a loop over the machines. */
module ResetRecogniser {
  import opened ResetRules
  import opened ResetSpec
  import opened ResetRuns

  /** Machine m accepts its expected key. */
  function Accepted(s: State, out: seq<Output>, m: Mode, now: int): (State, seq<Output>)
    requires InRange(s.index)
  {
    var j := s.index[m];
    var report := 0 < j && s.lastEvent != j;
    var s1 := if report then s.(monitored := true, lastEvent := j) else s;
    var out1 := if report then out + [Progress(j)] else out;
    var s2 := s1.(index := s.index[m := j + 1]);
    var done := Rule(m)[j + 1].key == KEY_NULL;
    var s3 := if done then Cleared(s2) else s2;
    var out3 := if done then out1 + [Action(m)] + ClearOutputs(s2) else out1;
    (if Rule(m)[j].validTime != 0 then s3.(current := now, timeout := Rule(m)[j].validTime) else s3, out3)
  }

  /** The effect of offering a key to one machine, as the daemon computes it. */
  function ModeEffect(s: State, out: seq<Output>, keyType: int, code: int, m: Mode, now: int): (State, seq<Output>)
    requires InRange(s.index)
  {
    var here := Rule(m)[s.index[m]];
    if here.keyMode == keyType && here.key == code then Accepted(s, out, m, now)
    else (s.(index := s.index[m := 0]), out)
  }

  /** What one machine does, by cases of its next index. */
  lemma EffectOfMachine(s: State, out: seq<Output>, code: int, m: Mode, now: int)
    requires InRange(s.index)
    ensures var j := s.index[m];
            var next := Next(m, j, code);
            var report := 0 < j && s.lastEvent != j;
            var s' := if report then s.(monitored := true, lastEvent := j) else s;
            var out' := if report then out + [Progress(j)] else out;
            ModeEffect(s, out, KET_KEYUP, code, m, now) ==
            if next == 0 || j == 0 then (s.(index := s.index[m := next]), out)
            else if next < Length(m) then
              (s'.(index := s.index[m := next], current := now, timeout := KEY_COMBINATION_TIMEOUT), out')
            else (Cleared(s'), out' + [Action(m)] + ClearOutputs(s'))
  {
    RuleShape(m);
  }

  /** One more turn of the loop extends the closed form by one machine. */
  ghost predicate OneMore(s: State, out: seq<Output>, code: int, now: int, i: Mode)
    requires InRange(s.index)
  {
    var a := AfterMachines(s, out, code, now, i);
    && InRange(a.0.index)
    && AfterMachines(s, out, code, now, i + 1) == ModeEffect(a.0, a.1, KET_KEYUP, code, i, now)
  }

  lemma AfterAction(s: State, out: seq<Output>, code: int, now: int, i: Mode)
    requires Inv(s) && s.inReset
    requires FirstComplete(Advance(s.index, code), 0, i) < i
    ensures OneMore(s, out, code, now, i)
  {
    var next := Advance(s.index, code);
    var f := FirstComplete(next, 0, i);
    FirstCompleteIs(next, i + 1, f);
    assert next[f] == Length(f) && s.index[f] > 0;
    StaleInRange(f, i, code);
    var a := AfterMachines(s, out, code, now, i);
    EffectOfMachine(a.0, a.1, code, i, now);
    NextShape(i, 0, code);
    assert Stale(f, i, code)[i := Next(i, 0, code)] == Stale(f, i + 1, code);
  }

  lemma MovedOneMore(index: seq<int>, code: int, i: Mode)
    requires InRange(index)
    ensures Moved(index, code, i)[i] == index[i]
    ensures Moved(index, code, i + 1) == Moved(index, code, i)[i := Next(i, index[i], code)]
  {
  }

  lemma BeforeAction(s: State, code: int, i: Mode)
    requires InRange(s.index)
    requires FirstComplete(Advance(s.index, code), 0, i) == i
    ensures InRange(Moved(s.index, code, i))
  {
    var next := Advance(s.index, code);
    forall m: Mode ensures 0 <= Moved(s.index, code, i)[m] < Length(m) {
      assert m < i ==> next[m] == Next(m, s.index[m], code);
    }
  }

  lemma HitOneMore(index: seq<int>, next: seq<int>, i: Mode)
    requires |index| == |next| == MAX_RESET_MODE_COUNT
    ensures Hit(index, next, i + 1) <==> Hit(index, next, i) || (index[i] > 0 && next[i] > 0)
  {
  }

  lemma CompletingStep(s: State, out: seq<Output>, code: int, now: int, i: Mode)
    requires InRange(s.index) && InRange(Moved(s.index, code, i)) && s.focus
    requires s.monitored <==> s.lastEvent != 0
    requires s.index[i] == Level(s.index) > 0
    requires FirstComplete(Advance(s.index, code), 0, i) == i
    requires FirstComplete(Advance(s.index, code), 0, i + 1) == i
    ensures OneMore(s, out, code, now, i)
  {
    var next := Advance(s.index, code);
    var a := AfterMachines(s, out, code, now, i);
    assert next[i] == Next(i, s.index[i], code);
    MovedOneMore(s.index, code, i);
    EffectOfMachine(a.0, a.1, code, i, now);
    HitOneMore(s.index, next, i);
    assert Stale(i, i + 1, code) == ZEROS;
    var out' := if a.0.lastEvent != s.index[i] then a.1 + [Progress(s.index[i])] else a.1;
    assert out' + [Action(i)] + ([ReleaseFocus] + [Progress(-1)]) == out' + [Action(i), ReleaseFocus, Progress(-1)];
  }

  lemma ContinuingStep(s: State, out: seq<Output>, code: int, now: int, i: Mode)
    requires InRange(s.index) && InRange(Moved(s.index, code, i))
    requires s.monitored <==> s.lastEvent != 0
    requires s.index[i] > 0 ==> s.index[i] == Level(s.index)
    requires FirstComplete(Advance(s.index, code), 0, i) == i
    requires FirstComplete(Advance(s.index, code), 0, i + 1) == i + 1
    ensures OneMore(s, out, code, now, i)
  {
    var next := Advance(s.index, code);
    var a := AfterMachines(s, out, code, now, i);
    assert next[i] == Next(i, s.index[i], code) != Length(i);
    MovedOneMore(s.index, code, i);
    EffectOfMachine(a.0, a.1, code, i, now);
    HitOneMore(s.index, next, i);
  }

  lemma LoopStep(s: State, out: seq<Output>, code: int, now: int, i: Mode)
    requires Inv(s) && s.inReset && now > 0
    ensures OneMore(s, out, code, now, i)
  {
    var next := Advance(s.index, code);
    if FirstComplete(next, 0, i) < i {
      AfterAction(s, out, code, now, i);
    } else {
      BeforeAction(s, code, i);
      LevelIs(s.index, i);
      if Next(i, s.index[i], code) == Length(i) {
        FirstCompleteIs(next, i + 1, i);
        CompletingStep(s, out, code, now, i);
      } else {
        FirstCompleteIs(next, i + 1, i + 1);
        ContinuingStep(s, out, code, now, i);
      }
    }
  }

  function ReleaseEffect(s: State, out: seq<Output>, code: int, now: int): (State, seq<Output>, int) {
    var r := PowerRelease(s, code, now);
    (r.0, out + r.1, r.2)
  }

  function SessionEffectOn(s: State, out: seq<Output>, code: int, now: int): (State, seq<Output>)
    requires InRange(s.index)
  {
    var r := SessionKeyUp(s, code, now);
    (r.0, out + r.1)
  }

  lemma AfterMachinesAppends(s: State, out: seq<Output>, code: int, now: int, n: nat)
    requires InRange(s.index) && n <= MAX_RESET_MODE_COUNT
    ensures var r := AfterMachines(s, [], code, now, n);
            && AfterMachines(s, out, code, now, n) == (r.0, out + r.1)
            && out + r.1 + ClearOutputs(r.0) == out + (r.1 + ClearOutputs(r.0))
  {
    var p := Progress(Level(s.index));
    assert out + [] == out && out + ([] + [p]) == out + [p];
    forall tail: seq<Output>
      ensures out + [p] + tail == out + ([] + [p] + tail) && out + ([] + tail) == out + tail
    {
    }
  }

  class Recogniser {
    const expectedKeyIndex: array<int>
    var keyPressedTime: int
    var keyReleasedTime: int
    var currentTime: int
    var timeOutValue: int
    var inResetMode: bool
    var resetMonitoredOnIBus: bool
    var lastResetEvent: int
    var grabbedFocus: bool

    ghost var history: seq<Event>
    ghost var outputs: seq<Output>

    ghost function Abs(): State
      reads this, expectedKeyIndex
    {
      State(expectedKeyIndex[..], keyPressedTime, keyReleasedTime, currentTime, timeOutValue, inResetMode,
            resetMonitoredOnIBus, lastResetEvent, grabbedFocus)
    }

    /** The fields are what the reference recogniser computes from the keys seen so far. */
    ghost predicate Valid()
      reads this, expectedKeyIndex
    {
      && expectedKeyIndex.Length == MAX_RESET_MODE_COUNT
      && Clocked(history)
      && Abs() == Run(history)
      && outputs == Outputs(history)
    }

    constructor ()
      ensures Valid() && fresh(expectedKeyIndex) && history == []
    {
      expectedKeyIndex := new int[MAX_RESET_MODE_COUNT](_ => 0);
      keyPressedTime, keyReleasedTime, currentTime, timeOutValue := 0, 0, 0, 0;
      inResetMode, resetMonitoredOnIBus, grabbedFocus := false, false, false;
      lastResetEvent := 0;
      history, outputs := [], [];
      new;
      assert expectedKeyIndex[..] == ZEROS;
    }

    method ResetResetState()
      requires expectedKeyIndex.Length == MAX_RESET_MODE_COUNT
      modifies this, expectedKeyIndex
      ensures history == old(history)
      ensures Abs() == Cleared(old(Abs()))
      ensures outputs == old(outputs) + ClearOutputs(old(Abs()))
    {
      for i := 0 to MAX_RESET_MODE_COUNT
        invariant forall m :: 0 <= m < i ==> expectedKeyIndex[m] == 0
        modifies expectedKeyIndex
      {
        expectedKeyIndex[i] := 0;
      }
      assert expectedKeyIndex[..] == ZEROS;
      inResetMode := false;
      keyPressedTime, keyReleasedTime, currentTime, timeOutValue := 0, 0, 0, 0;
      if grabbedFocus {
        outputs := outputs + [ReleaseFocus];
        grabbedFocus := false;
      }
      if resetMonitoredOnIBus {
        outputs := outputs + [Progress(-1)];
        resetMonitoredOnIBus := false;
        lastResetEvent := 0;
      }
    }

    method ReportProgress(j: int)
      modifies this
      ensures history == old(history)
      ensures Abs() == if 0 < j && old(lastResetEvent) != j then old(Abs()).(monitored := true, lastEvent := j)
                       else old(Abs())
      ensures outputs == if 0 < j && old(lastResetEvent) != j then old(outputs) + [Progress(j)] else old(outputs)
    {
      if 0 < j && lastResetEvent != j {
        resetMonitoredOnIBus := true;
        outputs := outputs + [Progress(j)];
        lastResetEvent := j;
      }
    }

    method AcceptKey(resetMode: Mode, now: int)
      requires expectedKeyIndex.Length == MAX_RESET_MODE_COUNT && InRange(Abs().index)
      modifies this, expectedKeyIndex
      ensures history == old(history)
      ensures (Abs(), outputs) == Accepted(old(Abs()), old(outputs), resetMode, now)
    {
      ghost var s := Abs();
      var j := expectedKeyIndex[resetMode];
      ReportProgress(j);
      expectedKeyIndex[resetMode] := j + 1;
      assert expectedKeyIndex[..] == s.index[resetMode := j + 1];
      var nextState := Rule(resetMode)[j + 1];
      if KEY_NULL == nextState.key {
        outputs := outputs + [Action(resetMode)];
        ResetResetState();
      }
      var currentState := Rule(resetMode)[j];
      if 0 != currentState.validTime {
        currentTime := now;
        timeOutValue := currentState.validTime;
      }
    }

    method CheckResetModeSequence(keyType: int, keyCode: int, resetMode: Mode, now: int)
      requires expectedKeyIndex.Length == MAX_RESET_MODE_COUNT && InRange(Abs().index)
      modifies this, expectedKeyIndex
      ensures history == old(history)
      ensures (Abs(), outputs) == ModeEffect(old(Abs()), old(outputs), keyType, keyCode, resetMode, now)
    {
      ghost var s := Abs();
      var j := expectedKeyIndex[resetMode];
      var currentState := Rule(resetMode)[j];
      if currentState.keyMode == keyType && currentState.key == keyCode {
        AcceptKey(resetMode, now);
      } else {
        expectedKeyIndex[resetMode] := 0;
        assert expectedKeyIndex[..] == s.index[resetMode := 0];
      }
    }

    /** The five machines see a released key, in the order of the modes. */
    method CheckMachines(keyCode: int, now: int)
      requires expectedKeyIndex.Length == MAX_RESET_MODE_COUNT
      requires Inv(Abs()) && inResetMode && now > 0
      modifies this, expectedKeyIndex
      ensures history == old(history)
      ensures (Abs(), outputs) == AfterMachines(old(Abs()), old(outputs), keyCode, now, MAX_RESET_MODE_COUNT)
    {
      ghost var s, out := Abs(), outputs;
      assert Moved(s.index, keyCode, 0) == s.index;
      for m := 0 to MAX_RESET_MODE_COUNT
        invariant history == old(history)
        invariant (Abs(), outputs) == AfterMachines(s, out, keyCode, now, m)
      {
        LoopStep(s, out, keyCode, now, m);
        CheckResetModeSequence(KET_KEYUP, keyCode, m, now);
      }
    }

    /** A remote can send other codes for POWER and OK. */
    method TranslateVariant(keyCode: int) returns (code: int)
      ensures code == Translate(keyCode)
    {
      assert KEY_VARIANTS[0] == (KED_POWER, KED_RF_POWER) && KEY_VARIANTS[1] == (KED_OK, KED_SELECT);
      code := keyCode;
      var v := 0;
      while v < |KEY_VARIANTS|
        invariant 0 <= v <= |KEY_VARIANTS| && code == keyCode
        invariant forall i :: 0 <= i < v ==> KEY_VARIANTS[i].1 != keyCode
      {
        if keyCode == KEY_VARIANTS[v].1 {
          code := KEY_VARIANTS[v].0;
          break;
        }
        v := v + 1;
      }
    }

    /** Reset mode is entered: every machine is one past its start, and media focus is held. */
    method OpenSession(now: int)
      requires expectedKeyIndex.Length == MAX_RESET_MODE_COUNT
      modifies this, expectedKeyIndex
      ensures history == old(history)
      ensures Abs() == Opened(old(Abs()), now)
      ensures outputs == old(outputs) + ClearOutputs(old(Abs())) + [RequestFocus]
    {
      ResetResetState();
      inResetMode := true;
      currentTime := now;
      timeOutValue := INITIAL_TIME_OUT_VALUE;
      if !grabbedFocus {
        outputs := outputs + [RequestFocus];
        grabbedFocus := true;
      }
      for i := 0 to MAX_RESET_MODE_COUNT
        invariant forall m :: 0 <= m < MAX_RESET_MODE_COUNT ==> expectedKeyIndex[m] == if m < i then 1 else 0
        modifies expectedKeyIndex
      {
        expectedKeyIndex[i] := expectedKeyIndex[i] + 1;
      }
      assert expectedKeyIndex[..] == ONES;
    }

    /** A power or factory key is released outside reset mode. */
    method ReleasePowerKey(code: int, now: int) returns (ret: int)
      requires expectedKeyIndex.Length == MAX_RESET_MODE_COUNT
      requires Inv(Abs()) && !inResetMode && PowerFamily(code)
      modifies this, expectedKeyIndex
      ensures history == old(history)
      ensures (Abs(), outputs, ret) == ReleaseEffect(old(Abs()), old(outputs), code, now)
    {
      assert ClearOutputs(Abs()) == [] && outputs + [] == outputs && [] + [RequestFocus] == [RequestFocus];
      keyReleasedTime := now;
      if keyPressedTime == 0 {
        ResetResetState();
      }
      ret := 0;
      if code == KED_POWER || code == KED_RF_POWER {
        if keyReleasedTime - keyPressedTime > POWER_KEY_HOLD_TIME_FOR_REBOOT {
          outputs := outputs + [Reboot];
          ret := 1;
        } else if keyReleasedTime - keyPressedTime >= POWER_KEY_HOLD_TIME_FOR_RESET {
          OpenSession(now);
          ret := 1;
        } else {
          ResetResetState();
        }
      } else {
        ResetResetState();
      }
    }

    /** A key that comes too late ends the session before it is looked at. */
    method CheckTimeOut(now: int)
      requires expectedKeyIndex.Length == MAX_RESET_MODE_COUNT
      modifies this, expectedKeyIndex
      ensures history == old(history)
      ensures (Abs(), outputs) == (Tick(old(Abs()), now), old(outputs) + TickOutputs(old(Abs()), now))
    {
      assert outputs + [] == outputs;
      if 0 != currentTime {
        ghost var s := Abs();
        keyPressedTime := now;
        if keyPressedTime - currentTime > timeOutValue {
          ResetResetState();
        }
      }
    }

    predicate AllAtStart()
      requires expectedKeyIndex.Length == MAX_RESET_MODE_COUNT
      reads this, expectedKeyIndex
      ensures AllAtStart() <==> Abs().index == ZEROS
    {
      assert Abs().index == expectedKeyIndex[..] && |ZEROS| == 5;
      && 0 == expectedKeyIndex[0] && 0 == expectedKeyIndex[1] && 0 == expectedKeyIndex[2]
      && 0 == expectedKeyIndex[3] && 0 == expectedKeyIndex[4]
    }

    /** The key is offered to the machines, and the session ends when all of them are at their start. */
    method CheckSessionKey(keyCode: int, now: int)
      requires expectedKeyIndex.Length == MAX_RESET_MODE_COUNT
      requires Inv(Abs()) && inResetMode && now > 0
      modifies this, expectedKeyIndex
      ensures history == old(history)
      ensures (Abs(), outputs) == SessionEffectOn(old(Abs()), old(outputs), keyCode, now)
    {
      AfterMachinesAppends(Abs(), outputs, keyCode, now, MAX_RESET_MODE_COUNT);
      CheckMachines(keyCode, now);
      if inResetMode && AllAtStart() {
        ResetResetState();
      }
    }

    method DispatchKey(keyType: int, code: int, now: int) returns (ret: int)
      requires expectedKeyIndex.Length == MAX_RESET_MODE_COUNT
      requires Inv(Abs()) && now > 0
      modifies this, expectedKeyIndex
      ensures history == old(history)
      ensures (Abs(), ret) == (Dispatch(old(Abs()), keyType, code, now).0, Dispatch(old(Abs()), keyType, code, now).2)
      ensures outputs == old(outputs) + Dispatch(old(Abs()), keyType, code, now).1
    {
      assert outputs + [] == outputs;
      ret := 0;
      if keyType == KET_KEYDOWN {
        if !inResetMode && PowerFamily(code) {
          keyPressedTime := now;
        }
      } else if keyType == KET_KEYUP {
        if !inResetMode && PowerFamily(code) {
          ret := ReleasePowerKey(code, now);
        } else if inResetMode {
          CheckSessionKey(code, now);
        }
      }
    }

    method CheckResetSequence(keyType: int, keyCode: int, now: int) returns (ret: int)
      requires Valid() && Clocked(history + [Event(keyType, keyCode, now)])
      modifies this, expectedKeyIndex
      ensures Valid() && history == old(history) + [Event(keyType, keyCode, now)]
      ensures ret == Step(old(Abs()), Event(keyType, keyCode, now)).2
    {
      ghost var e := Event(keyType, keyCode, now);
      RunAppend(history, e);
      history := history + [e];
      var code := TranslateVariant(keyCode);
      CheckTimeOut(now);
      ret := DispatchKey(keyType, code, now);
    }
  }
}
