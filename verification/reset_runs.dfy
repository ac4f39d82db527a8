/** Runs of the reference recogniser over whole key streams. */
module ResetRuns {
  import opened ResetRules
  import opened ResetSpec

  /** Clock samples are positive and never decrease. */
  predicate Clocked(es: seq<Event>) {
    && (forall i :: 0 <= i < |es| ==> es[i].time > 0)
    && (forall i, j :: 0 <= i < j < |es| ==> es[i].time <= es[j].time)
  }

  /** The state after a whole stream of key events. */
  function Run(es: seq<Event>): (s: State)
    requires Clocked(es)
    ensures Inv(s)
  {
    if es == [] then INITIAL
    else
      var s := Run(es[..|es| - 1]);
      StepInv(s, es[|es| - 1]);
      Step(s, es[|es| - 1]).0
  }

  /** The outputs caused by the last event of a stream. */
  function LastOutputs(es: seq<Event>): seq<Output>
    requires Clocked(es) && es != []
  {
    Step(Run(es[..|es| - 1]), es[|es| - 1]).1
  }

  /** All outputs of a stream, in order. */
  function Outputs(es: seq<Event>): seq<Output>
    requires Clocked(es)
  {
    if es == [] then [] else Outputs(es[..|es| - 1]) + LastOutputs(es)
  }

  /** A run extended by one event. */
  lemma {:induction false} RunAppend(es: seq<Event>, e: Event)
    requires Clocked(es + [e])
    ensures Clocked(es) && e.time > 0 && Inv(Tick(Run(es), e.time))
    ensures var t := Tick(Run(es), e.time);
            var r := Dispatch(t, e.keyType, Translate(e.keyCode), e.time);
            && Run(es + [e]) == r.0
            && Outputs(es + [e]) == Outputs(es) + TickOutputs(Run(es), e.time) + r.1
            && Step(Run(es), e).2 == r.2
  {
    assert (es + [e])[|es|] == e && (es + [e])[..|es|] == es;
    assert forall i :: 0 <= i < |es| ==> (es + [e])[i] == es[i];
    TickInv(Run(es), e.time);
  }

  lemma {:induction false} RunStep(es: seq<Event>, e: Event)
    requires Clocked(es + [e])
    ensures Clocked(es) && e.time > 0 && (es != [] ==> es[|es| - 1].time <= e.time)
    ensures Run(es + [e]) == Step(Run(es), e).0 && LastOutputs(es + [e]) == Step(Run(es), e).1
  {
    assert (es + [e])[|es|] == e && (es + [e])[..|es|] == es;
    assert forall i :: 0 <= i < |es| ==> (es + [e])[i] == es[i];
  }

  /** At every step boundary of every run, inside and outside reset mode, all non-zero indices are equal; outside
      it they are at most 1. */
  lemma {:induction false} UniformEverywhere(es: seq<Event>, n: nat)
    requires Clocked(es) && n <= |es|
    ensures Uniform(Run(es[..n]).index)
    ensures !Run(es[..n]).inReset ==> forall m: Mode :: Run(es[..n]).index[m] in {0, 1}
  {
    var s := Run(es[..n]);
    assert InRange(s.index);
  }
}

/** What a single key event can do, and what that means for the streams of outputs. */
module ResetStreams {
  import opened ResetRules
  import opened ResetSpec
  import opened ResetRuns

  /** The ways in which a key event can change reset mode; level 0 in Fired means no new progress. */
  datatype Effect = Quiet | Opening | Advanced(level: int) | Closed | Fired(level: int, mode: Mode) | Rebooted

  function EffectOutputs(f: Effect, monitored: bool): seq<Output> {
    match f
    case Quiet => []
    case Opening => [RequestFocus]
    case Advanced(level) => [Progress(level)]
    case Closed => if monitored then [ReleaseFocus, Progress(-1)] else [ReleaseFocus]
    case Fired(level, m) =>
      if level > 0 then [Progress(level), Action(m), ReleaseFocus, Progress(-1)]
      else [Action(m), ReleaseFocus, Progress(-1)]
    case Rebooted => [Reboot]
  }

  /** Where each effect can happen and where it leads. */
  predicate Allowed(f: Effect, s: State, s': State) {
    match f
    case Quiet => s'.inReset == s.inReset && s'.monitored == s.monitored
    case Opening => !s.inReset && s'.inReset && !s'.monitored && s'.index == ONES
    case Advanced(level) => s.inReset && s'.inReset && s'.monitored && level > 0
    case Closed => s.inReset && !s'.inReset
    case Fired(level, m) => s.inReset && !s'.inReset && (level > 0 || s.monitored)
    case Rebooted => !s.inReset && !s'.inReset
  }

  lemma SessionEffect(s: State, code: int, now: int) returns (f: Effect)
    requires Inv(s) && s.inReset && now > 0
    ensures var r := SessionKeyUp(s, code, now);
            Allowed(f, s, r.0) && r.1 == EffectOutputs(f, s.monitored) && f != Opening && f != Rebooted
    ensures f.Fired? ==> f.mode == FirstComplete(Advance(s.index, code), 0, MAX_RESET_MODE_COUNT)
  {
    var next := Advance(s.index, code);
    var c := FirstComplete(next, 0, MAX_RESET_MODE_COUNT);
    var level := Level(s.index);
    assert level > 0;
    if c < MAX_RESET_MODE_COUNT {
      LevelIs(s.index, c);
      f := Fired(if s.lastEvent != level then level else 0, c);
    } else if Hit(s.index, next, MAX_RESET_MODE_COUNT) {
      f := if s.lastEvent != level then Advanced(level) else Quiet;
    } else {
      f := if next == ZEROS then Closed else Quiet;
    }
  }

  /** Every key event has exactly one of the six effects. */
  lemma StepEffect(s: State, e: Event) returns (f: Effect)
    requires Inv(s) && e.time > 0
    ensures Allowed(f, s, Step(s, e).0) && Step(s, e).1 == EffectOutputs(f, s.monitored)
    ensures f.Fired? ==> !Expired(s, e.time) && e.keyType == KET_KEYUP
    ensures f.Fired? ==> f.mode == FirstComplete(Advance(s.index, Translate(e.keyCode)), 0, MAX_RESET_MODE_COUNT)
  {
    TickInv(s, e.time);
    var t := Tick(s, e.time);
    if t.inReset && e.keyType == KET_KEYUP {
      f := SessionEffect(t, Translate(e.keyCode), e.time);
    } else if Expired(s, e.time) {
      f := Closed;
    } else if e.keyType == KET_KEYUP && PowerFamily(Translate(e.keyCode)) {
      var r := PowerRelease(t, Translate(e.keyCode), e.time);
      f := if r.0.inReset then Opening else if r.1 == [] then Quiet else Rebooted;
    } else {
      f := Quiet;
    }
  }

  /** The progress values of a stream of outputs. */
  function Levels(out: seq<Output>): seq<int> {
    if out == [] then []
    else Levels(out[..|out| - 1]) + if out[|out| - 1].Progress? then [out[|out| - 1].level] else []
  }

  function FocusCall(o: Output): seq<bool> {
    match o
    case RequestFocus => [true]
    case ReleaseFocus => [false]
    case _ => []
  }

  /** The focus requests (true) and releases (false) of a stream of outputs. */
  function FocusCalls(out: seq<Output>): seq<bool> {
    if out == [] then []
    else FocusCalls(out[..|out| - 1]) + FocusCall(out[|out| - 1])
  }

  /** Groups of one or more positive values, each closed by one -1; the last group may be open. */
  predicate Groups(levels: seq<int>, open: bool) {
    if levels == [] then !open
    else
      var before, last := levels[..|levels| - 1], levels[|levels| - 1];
      if last == -1 then !open && Groups(before, true)
      else last > 0 && open && (Groups(before, true) || Groups(before, false))
  }

  /** Requests and releases take turns, starting with a request. */
  predicate TakeTurns(calls: seq<bool>, held: bool) {
    if calls == [] then !held
    else calls[|calls| - 1] == held && TakeTurns(calls[..|calls| - 1], !held)
  }

  lemma EmitOne(out: seq<Output>, o: Output)
    ensures Levels(out + [o]) == Levels(out) + if o.Progress? then [o.level] else []
    ensures FocusCalls(out + [o]) == FocusCalls(out) + FocusCall(o)
  {
    assert (out + [o])[..|out|] == out;
  }

  lemma GrowGroups(levels: seq<int>, open: bool, v: int)
    requires Groups(levels, open)
    ensures v > 0 ==> Groups(levels + [v], true)
    ensures open ==> Groups(levels + [-1], false)
  {
    assert (levels + [v])[..|levels|] == levels == (levels + [-1])[..|levels|];
  }

  lemma GrowTurns(calls: seq<bool>, held: bool)
    requires TakeTurns(calls, held)
    ensures TakeTurns(calls + [!held], !held)
  {
    assert (calls + [!held])[..|calls|] == calls;
  }

  predicate Streams(out: seq<Output>, s: State) {
    Groups(Levels(out), s.monitored) && TakeTurns(FocusCalls(out), s.focus)
  }

  lemma EmitAdvance(out: seq<Output>, open: bool, level: int)
    requires Groups(Levels(out), open) && TakeTurns(FocusCalls(out), true) && level > 0
    ensures var out' := out + [Progress(level)];
            Groups(Levels(out'), true) && TakeTurns(FocusCalls(out'), true)
  {
    EmitOne(out, Progress(level));
    GrowGroups(Levels(out), open, level);
    assert FocusCalls(out) + [] == FocusCalls(out);
  }

  lemma EmitSilent(out: seq<Output>, o: Output)
    requires o.Action? || o.Reboot?
    ensures Levels(out + [o]) == Levels(out) && FocusCalls(out + [o]) == FocusCalls(out)
  {
    EmitOne(out, o);
    assert FocusCalls(out) + [] == FocusCalls(out) && Levels(out) + [] == Levels(out);
  }

  lemma FiringOutputs(out: seq<Output>, level: int, m: Mode)
    ensures out + EffectOutputs(Fired(level, m), true) ==
            (if level > 0 then out + [Progress(level)] else out) + [Action(m)] + EffectOutputs(Closed, true)
  {
  }

  lemma EmitRelease(out: seq<Output>)
    requires TakeTurns(FocusCalls(out), true)
    ensures var out' := out + [ReleaseFocus];
            Levels(out') == Levels(out) && TakeTurns(FocusCalls(out'), false)
  {
    EmitOne(out, ReleaseFocus);
    assert Levels(out) + [] == Levels(out);
    GrowTurns(FocusCalls(out), true);
  }

  lemma EmitFailure(out: seq<Output>)
    requires Groups(Levels(out), true)
    ensures var out' := out + [Progress(-1)];
            Groups(Levels(out'), false) && FocusCalls(out') == FocusCalls(out)
  {
    EmitOne(out, Progress(-1));
    assert FocusCalls(out) + [] == FocusCalls(out);
    GrowGroups(Levels(out), true, 1);
  }

  lemma EmitClosing(out: seq<Output>, open: bool, monitored: bool)
    requires Groups(Levels(out), open) && TakeTurns(FocusCalls(out), true) && open == monitored
    ensures var out' := out + EffectOutputs(Closed, monitored);
            Groups(Levels(out'), false) && TakeTurns(FocusCalls(out'), false)
  {
    EmitRelease(out);
    if monitored {
      EmitFailure(out + [ReleaseFocus]);
      assert out + [ReleaseFocus, Progress(-1)] == out + [ReleaseFocus] + [Progress(-1)];
    }
  }

  lemma EmitFiring(out: seq<Output>, s: State, level: int, m: Mode)
    requires Inv(s) && s.inReset && Streams(out, s) && (level > 0 || s.monitored)
    ensures var out' := out + EffectOutputs(Fired(level, m), true);
            Groups(Levels(out'), false) && TakeTurns(FocusCalls(out'), false)
  {
    var out1 := if level > 0 then out + [Progress(level)] else out;
    if level > 0 {
      EmitAdvance(out, s.monitored, level);
    }
    EmitSilent(out1, Action(m));
    EmitClosing(out1 + [Action(m)], true, true);
    FiringOutputs(out, level, m);
  }

  lemma EffectStreams(out: seq<Output>, f: Effect, s: State, s': State)
    requires Inv(s) && Inv(s') && Allowed(f, s, s') && Streams(out, s)
    ensures Streams(out + EffectOutputs(f, s.monitored), s')
  {
    match f {
      case Quiet =>
        assert out + [] == out;
      case Opening =>
        EmitOne(out, RequestFocus);
        GrowTurns(FocusCalls(out), false);
        assert Levels(out) + [] == Levels(out);
      case Advanced(level) =>
        EmitAdvance(out, s.monitored, level);
      case Closed =>
        EmitClosing(out, s.monitored, s.monitored);
      case Fired(level, m) =>
        EmitFiring(out, s, level, m);
      case Rebooted =>
        EmitSilent(out, Reboot);
    }
  }

  /** In every run the progress stream is a series of complete groups, with an unfinished one only in
      reset mode, and the media focus is requested and released in turns and held exactly in reset mode. */
  lemma {:induction false} RunStreams(es: seq<Event>)
    requires Clocked(es)
    ensures Groups(Levels(Outputs(es)), Run(es).monitored) && (Run(es).monitored ==> Run(es).inReset)
    ensures TakeTurns(FocusCalls(Outputs(es)), Run(es).focus) && (Run(es).focus <==> Run(es).inReset)
  {
    if es != [] {
      var before, e := es[..|es| - 1], es[|es| - 1];
      RunStreams(before);
      var f := StepEffect(Run(before), e);
      EffectStreams(Outputs(before), f, Run(before), Run(es));
    }
  }

  predicate AtMostOneActionAndLevel(out: seq<Output>) {
    forall i, j :: 0 <= i < j < |out| ==>
      && !(out[i].Action? && out[j].Action?)
      && !(out[i].Progress? && out[j].Progress? && out[i].level > 0 && out[j].level > 0)
  }

  lemma EffectAtMostOne(f: Effect, monitored: bool)
    ensures AtMostOneActionAndLevel(EffectOutputs(f, monitored))
  {
  }

  /** Each key event runs at most one reset action and broadcasts at most one positive progress value. */
  lemma {:induction false} OnePerEvent(es: seq<Event>)
    requires Clocked(es) && es != []
    ensures AtMostOneActionAndLevel(LastOutputs(es))
  {
    var before, e := es[..|es| - 1], es[|es| - 1];
    var f := StepEffect(Run(before), e);
    EffectAtMostOne(f, Run(before).monitored);
  }

  /** Whatever the machines were left at, a session starts with all five past their first key. */
  lemma {:induction false} SessionStart(es: seq<Event>)
    requires Clocked(es) && es != [] && Run(es).inReset && !Run(es[..|es| - 1]).inReset
    ensures Run(es).index == ONES && LastOutputs(es) == [RequestFocus]
  {
    var before, e := es[..|es| - 1], es[|es| - 1];
    var f := StepEffect(Run(before), e);
  }

  /** The last event of a stream runs the reset action of mode m. */
  ghost predicate Fires(es: seq<Event>, m: Mode)
    requires Clocked(es) && es != []
  {
    exists i :: 0 <= i < |LastOutputs(es)| && LastOutputs(es)[i] == Action(m)
  }

  lemma StepStale(s: State, e: Event, m: Mode)
    requires Inv(s) && e.time > 0
    requires exists i :: 0 <= i < |Step(s, e).1| && Step(s, e).1[i] == Action(m)
    ensures !Step(s, e).0.inReset
    ensures Step(s, e).0.index == Stale(m, MAX_RESET_MODE_COUNT, Translate(e.keyCode))
  {
    var f := StepEffect(s, e);
  }

  /** An action leaves reset mode at once, but the machines after it keep a stale index 1 when the last
      key was POWER: indices are not always zero outside reset mode, though equal where they are not. */
  lemma {:induction false} StaleAfterAction(es: seq<Event>, m: Mode)
    requires Clocked(es) && es != [] && Fires(es, m)
    ensures !Run(es).inReset
    ensures forall n: Mode :: Run(es).index[n] == if n > m && Translate(es[|es| - 1].keyCode) == KED_POWER then 1 else 0
  {
    var before, e := es[..|es| - 1], es[|es| - 1];
    StepStale(Run(before), e, m);
  }
}
