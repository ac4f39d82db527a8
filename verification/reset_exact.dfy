/** The exact condition for a reset action, on the keys released in the session and their times. */
module ResetExact {
  import opened ResetRules
  import opened ResetSpec
  import opened ResetRuns
  import opened ResetStreams
  import opened ResetMeaning
  import opened ResetCompleteness

  /** How far one machine is after these keys. It does not look again at a key that it did not expect. */
  function Matcher(m: Mode, ups: seq<KeyUp>): (j: int)
    ensures 0 <= j <= Length(m)
  {
    if ups == [] then 0
    else
      var n := |ups| - 1;
      var j := Matcher(m, ups[..n]);
      if j < Length(m) then Next(m, j, ups[n].code) else 0
  }

  lemma MatcherOneMore(m: Mode, ups: seq<KeyUp>, up: KeyUp)
    ensures var j := Matcher(m, ups);
            Matcher(m, ups + [up]) == if j < Length(m) then Next(m, j, up.code) else 0
  {
    assert (ups + [up])[..|ups|] == ups;
  }

  /** The keys fall into failed attempts: some first keys of the sequence, and then another key than the next. */
  ghost predicate Attempts(m: Mode, ups: seq<KeyUp>) {
    ups == [] ||
    exists j: nat {:trigger EndsWith(ups[..|ups| - 1], m, j)} ::
      && EndsWith(ups[..|ups| - 1], m, j)
      && (j < Length(m) ==> Rule(m)[j].key != ups[|ups| - 1].code)
      && Attempts(m, ups[..|ups| - 1 - j])
  }

  lemma {:induction false} EndsWithBefore(ups: seq<KeyUp>, m: Mode, j: int)
    requires 0 < j && EndsWith(ups, m, j)
    ensures EndsWith(ups[..|ups| - 1], m, j - 1) && ups[|ups| - 1].code == Rule(m)[j - 1].key
    ensures ups[..|ups| - 1][..|ups| - j] == ups[..|ups| - j]
  {
    var before := ups[..|ups| - 1];
    forall i | 0 <= i < j - 1 ensures before[|before| - (j - 1) + i].code == Rule(m)[i].key {
      assert ups[|ups| - j + i].code == Rule(m)[i].key;
    }
    assert ups[|ups| - j + (j - 1)].code == Rule(m)[j - 1].key;
  }

  /** A machine is j keys far exactly when the last j keys are its first, and it was at its start before them. */
  lemma {:induction false} MatcherMeaning(m: Mode, ups: seq<KeyUp>, j: nat)
    requires j > 0
    ensures Matcher(m, ups) == j <==> EndsWith(ups, m, j) && Matcher(m, ups[..|ups| - j]) == 0
    decreases |ups|
  {
    if ups != [] {
      var before := ups[..|ups| - 1];
      if j == 1 {
        assert EndsWith(ups, m, 1) <==> ups[|ups| - 1].code == Rule(m)[0].key;
      } else {
        MatcherMeaning(m, before, j - 1);
        if EndsWith(ups, m, j) {
          EndsWithBefore(ups, m, j);
        }
        if Matcher(m, ups) == j {
          EndsWithOneMore(before, ups[|ups| - 1], m, j - 1);
          assert ups == before + [ups[|ups| - 1]];
          assert before[..|before| - (j - 1)] == ups[..|ups| - j];
        }
      }
    }
  }

  /** At any number of keys, none included. */
  lemma MatcherAfterStart(m: Mode, ups: seq<KeyUp>, j: nat)
    requires EndsWith(ups, m, j) || Matcher(m, ups) == j
    ensures Matcher(m, ups) == j ==> EndsWith(ups, m, j)
    ensures Matcher(m, ups) == j <==> Matcher(m, ups[..|ups| - j]) == 0
  {
    if j == 0 {
      assert ups[..|ups| - j] == ups;
    } else {
      MatcherMeaning(m, ups, j);
    }
  }

  lemma {:induction false} StartThenAttempts(m: Mode, ups: seq<KeyUp>)
    requires Matcher(m, ups) == 0
    ensures Attempts(m, ups)
    decreases |ups|
  {
    if ups != [] {
      var before := ups[..|ups| - 1];
      var j := Matcher(m, before);
      MatcherAfterStart(m, before, j);
      assert before[..|before| - j] == ups[..|ups| - 1 - j];
      StartThenAttempts(m, ups[..|ups| - 1 - j]);
    }
  }

  lemma {:induction false} AttemptsThenStart(m: Mode, ups: seq<KeyUp>)
    requires Attempts(m, ups)
    ensures Matcher(m, ups) == 0
    decreases |ups|
  {
    if ups != [] {
      var before := ups[..|ups| - 1];
      var j: nat :| EndsWith(before, m, j) && (j < Length(m) ==> Rule(m)[j].key != ups[|ups| - 1].code)
                    && Attempts(m, ups[..|ups| - 1 - j]);
      AttemptsThenStart(m, ups[..|ups| - 1 - j]);
      assert before[..|before| - j] == ups[..|ups| - 1 - j];
      MatcherAfterStart(m, before, j);
    }
  }

  /** It is at its start exactly after failed attempts. */
  lemma StartExactly(m: Mode, ups: seq<KeyUp>)
    ensures Matcher(m, ups) == 0 <==> Attempts(m, ups)
  {
    if Matcher(m, ups) == 0 {
      StartThenAttempts(m, ups);
    }
    if Attempts(m, ups) {
      AttemptsThenStart(m, ups);
    }
  }

  // The machines of a session

  predicate Moves(ups: seq<KeyUp>) {
    ups != [] && exists m: Mode :: Matcher(m, ups[..|ups| - 1]) > 0 && Matcher(m, ups) > 0
  }

  /** The time of the last key that moved a machine on, or of the opening release. */
  function Timer(ups: seq<KeyUp>): int
    requires ups != []
  {
    var n := |ups| - 1;
    if n == 0 || Moves(ups) then ups[n].time else Timer(ups[..n])
  }

  function Indices(ups: seq<KeyUp>): seq<int> {
    seq(MAX_RESET_MODE_COUNT, m requires 0 <= m < MAX_RESET_MODE_COUNT => Matcher(m, ups))
  }

  /** The progress announced last: how far the machines were before the last key that moved one on. */
  function Announced(ups: seq<KeyUp>): int
    requires ups != []
  {
    var n := |ups| - 1;
    if n == 0 then 0 else if Moves(ups) then Level(Indices(ups[..n])) else Announced(ups[..n])
  }

  ghost predicate Tracks(s: State, ups: seq<KeyUp>) {
    && |s.index| == MAX_RESET_MODE_COUNT && ups != []
    && (forall m: Mode :: s.index[m] == Matcher(m, ups))
    && s.current == Timer(ups) && s.lastEvent == Announced(ups)
  }

  lemma MatcherNext(s: State, ups: seq<KeyUp>, up: KeyUp)
    requires Inv(s) && Tracks(s, ups)
    ensures var next := Advance(s.index, up.code);
            && (forall m: Mode :: next[m] == Matcher(m, ups + [up]))
            && (Hit(s.index, next, MAX_RESET_MODE_COUNT) <==> Moves(ups + [up]))
  {
    var next := Advance(s.index, up.code);
    forall m: Mode ensures next[m] == Matcher(m, ups + [up]) {
      MatcherOneMore(m, ups, up);
      assert next[m] == Next(m, s.index[m], up.code);
    }
    assert (ups + [up])[..|ups|] == ups;
  }

  /** Every machine falls short of its end, and not all are at their start. */
  predicate GoesOn(ups: seq<KeyUp>) {
    (forall m: Mode :: Matcher(m, ups) < Length(m)) && exists m: Mode :: Matcher(m, ups) > 0
  }

  /** What a released key in reset mode leaves, by cases of the machines' next indices. */
  lemma SessionResult(s: State, code: int, now: int)
    requires Inv(s) && s.inReset
    ensures var t := SessionKeyUp(s, code, now).0; var next := Advance(s.index, code);
            && (t.inReset <==> FirstComplete(next, 0, MAX_RESET_MODE_COUNT) == MAX_RESET_MODE_COUNT && next != ZEROS)
            && (t.inReset ==> t.index == next)
            && (t.inReset ==> t.current == if Hit(s.index, next, MAX_RESET_MODE_COUNT) then now else s.current)
            && (t.inReset ==>
                  t.lastEvent == if Hit(s.index, next, MAX_RESET_MODE_COUNT) then Level(s.index) else s.lastEvent)
  {
  }

  lemma NextGoesOn(next: seq<int>, ups: seq<KeyUp>)
    requires |next| == MAX_RESET_MODE_COUNT && forall m: Mode :: next[m] == Matcher(m, ups)
    ensures GoesOn(ups) <==> FirstComplete(next, 0, MAX_RESET_MODE_COUNT) == MAX_RESET_MODE_COUNT && next != ZEROS
  {
    assert next == ZEROS <==> forall m: Mode :: next[m] == 0;
  }

  lemma KeyUpTracks(s: State, ups: seq<KeyUp>, up: KeyUp)
    requires Inv(s) && s.inReset && Tracks(s, ups)
    ensures var t := SessionKeyUp(s, up.code, up.time).0;
            (t.inReset <==> GoesOn(ups + [up])) && (t.inReset ==> Tracks(t, ups + [up]))
  {
    var next := Advance(s.index, up.code);
    MatcherNext(s, ups, up);
    SessionResult(s, up.code, up.time);
    NextGoesOn(next, ups + [up]);
    assert (ups + [up])[..|ups|] == ups && s.index == Indices(ups);
  }

  /** The keys released in the current session, the opening release first. */
  function SessionUps(es: seq<Event>): seq<KeyUp>
    requires Clocked(es)
  {
    var q := OpenedAt(es);
    if q <= |es| then Ups(es[q..]) else []
  }

  /** In reset mode the state is that of the machines over the keys of the session. */
  ghost predicate Tracked(es: seq<Event>)
    requires Clocked(es)
  {
    Run(es).inReset ==> OpenedAt(es) < |es| && Meaning(Run(es), SessionUps(es)) && Tracks(Run(es), SessionUps(es))
  }

  /** The time since the key that counts is within the limit. */
  predicate StillInTime(ups: seq<KeyUp>, now: int)
    requires ups != []
  {
    now - Timer(ups) <= Limit(|ups|)
  }

  lemma StepTracks(s: State, ups: seq<KeyUp>, e: Event)
    requires Inv(s) && s.inReset && Meaning(s, ups) && Tracks(s, ups) && e.time > 0
    ensures Expired(s, e.time) <==> !StillInTime(ups, e.time)
    ensures var t := Step(s, e).0;
            && (t.inReset <==> StillInTime(ups, e.time) && (e.keyType == KET_KEYUP ==> GoesOn(ups + UpOf(e))))
            && (t.inReset ==> Tracks(t, ups + UpOf(e)))
  {
    TickInv(s, e.time);
    var t := Tick(s, e.time);
    if Expired(s, e.time) {
      StaysOut(t, e);
    } else if e.keyType == KET_KEYUP {
      KeyUpTracks(t, ups, KeyUp(Translate(e.keyCode), e.time));
    } else {
      assert ups + [] == ups;
    }
  }

  lemma OpeningTracks(s: State, e: Event)
    requires Inv(s) && !s.inReset && Step(s, e).0.inReset && UpOf(e) == [KeyUp(KED_POWER, e.time)]
    ensures Tracks(Step(s, e).0, UpOf(e))
  {
    forall m: Mode ensures Matcher(m, UpOf(e)) == 1 {
      RuleShape(m);
      MatcherOneMore(m, [], KeyUp(KED_POWER, e.time));
    }
  }

  /** The keys of the session after one more event. */
  lemma {:induction false} SessionKeys(es: seq<Event>, e: Event)
    requires Clocked(es + [e]) && Clocked(es)
    requires Run(es).inReset ==> OpenedAt(es) < |es|
    ensures SessionUps(es + [e]) == if Run(es).inReset then SessionUps(es) + UpOf(e) else UpOf(e)
  {
    OpenedAtOneMore(es, e);
    if Run(es).inReset {
      assert (es + [e])[OpenedAt(es)..] == es[OpenedAt(es)..] + [e];
      UpsAppend(es[OpenedAt(es)..], e);
    } else {
      assert (es + [e])[|es|..] == [] + [e];
      UpsAppend([], e);
      assert [] + UpOf(e) == UpOf(e);
    }
  }

  lemma {:induction false} TrackedOneMore(es: seq<Event>, e: Event)
    requires Clocked(es + [e]) && Clocked(es) && Tracked(es)
    ensures Tracked(es + [e])
  {
    var all := es + [e];
    RunStep(es, e);
    RunHistory(all);
    OpenedAtOneMore(es, e);
    SessionKeys(es, e);
    if Run(all).inReset {
      if Run(es).inReset {
        StepTracks(Run(es), SessionUps(es), e);
      } else {
        OpeningTracks(Run(es), e);
      }
    }
  }

  lemma {:induction false} AlwaysTracked(es: seq<Event>)
    requires Clocked(es)
    ensures Tracked(es)
    decreases |es|
  {
    if es != [] {
      var before, e := es[..|es| - 1], es[|es| - 1];
      assert es == before + [e];
      RunStep(before, e);
      AlwaysTracked(before);
      TrackedOneMore(before, e);
    }
  }

  /** A session goes on exactly while its keys are in time, no machine is through and some machine is under way. */
  lemma {:induction false} SessionGoesOnExactly(es: seq<Event>, e: Event)
    requires Clocked(es + [e]) && Clocked(es) && Run(es).inReset
    ensures SessionUps(es) != []
    ensures Run(es + [e]).inReset <==>
            StillInTime(SessionUps(es), e.time) && (e.keyType == KET_KEYUP ==> GoesOn(SessionUps(es) + UpOf(e)))
  {
    AlwaysTracked(es);
    RunStep(es, e);
    StepTracks(Run(es), SessionUps(es), e);
  }

  // Main result

  /** No sequence is the end of another. */
  lemma SuffixFree(m: Mode, n: Mode, ups: seq<KeyUp>)
    requires EndsWith(ups, m, Length(m)) && EndsWith(ups, n, Length(n)) && Length(m) <= Length(n)
    ensures m == n
  {
    var d := Length(n) - Length(m);
    forall i | 0 <= i < Length(m) ensures Rule(n)[d + i].key == Rule(m)[i].key {
      assert ups[|ups| - Length(n) + (d + i)].code == Rule(n)[d + i].key;
    }
    assert Rule(n)[d + 0].key == Rule(m)[0].key;
    RuleShape(m);
    RuleShape(n);
    if m != n {
      PrefixFree(m, n);
    }
  }

  /** Two machines are not through at the same key. */
  lemma OneThrough(m: Mode, n: Mode, ups: seq<KeyUp>)
    requires Matcher(m, ups) == Length(m) && Matcher(n, ups) == Length(n) && Length(m) <= Length(n)
    ensures m == n
  {
    MatcherMeaning(m, ups, Length(m));
    MatcherMeaning(n, ups, Length(n));
    SuffixFree(m, n, ups);
  }

  lemma SessionActs(s: State, code: int, now: int, m: Mode)
    requires Inv(s) && s.inReset && now > 0
    ensures Action(m) in SessionKeyUp(s, code, now).1 <==>
            FirstComplete(Advance(s.index, code), 0, MAX_RESET_MODE_COUNT) == m
  {
    if FirstComplete(Advance(s.index, code), 0, MAX_RESET_MODE_COUNT) == MAX_RESET_MODE_COUNT {
      QuietSession(s, code, now);
    } else {
      var out := AfterMachines(s, [], code, now, MAX_RESET_MODE_COUNT).1;
      assert out[|out| - 3] == Action(FirstComplete(Advance(s.index, code), 0, MAX_RESET_MODE_COUNT));
    }
  }

  /** In reset mode an action runs exactly on a released key with which its machine is through. */
  lemma ThroughActs(s: State, ups: seq<KeyUp>, up: KeyUp, m: Mode)
    requires Inv(s) && s.inReset && Tracks(s, ups) && up.time > 0
    ensures Action(m) in SessionKeyUp(s, up.code, up.time).1 <==> Matcher(m, ups + [up]) == Length(m)
  {
    var next := Advance(s.index, up.code);
    var f := FirstComplete(next, 0, MAX_RESET_MODE_COUNT);
    MatcherNext(s, ups, up);
    SessionActs(s, up.code, up.time, m);
    assert Matcher(m, ups + [up]) == next[m];
    if f < MAX_RESET_MODE_COUNT && next[m] == Length(m) {
      assert Matcher(f, ups + [up]) == next[f];
      if Length(m) <= Length(f) {
        OneThrough(m, f, ups + [up]);
      } else {
        OneThrough(f, m, ups + [up]);
      }
    }
  }

  lemma StepFiresExactly(s: State, ups: seq<KeyUp>, e: Event, m: Mode)
    requires Inv(s) && s.inReset && Meaning(s, ups) && Tracks(s, ups) && e.time > 0
    ensures Action(m) in Step(s, e).1 <==>
            StillInTime(ups, e.time) && e.keyType == KET_KEYUP && Matcher(m, ups + UpOf(e)) == Length(m)
  {
    TickInv(s, e.time);
    StepTracks(s, ups, e);
    var f := StepEffect(s, e);
    if !Expired(s, e.time) && e.keyType == KET_KEYUP {
      ThroughActs(Tick(s, e.time), ups, KeyUp(Translate(e.keyCode), e.time), m);
    }
  }

  /** The keys end with the whole sequence of mode m, after failed attempts only. */
  ghost predicate EndsWithSequence(ups: seq<KeyUp>, m: Mode) {
    EndsWith(ups, m, Length(m)) && Attempts(m, ups[..|ups| - Length(m)])
  }

  /** For every event after every run: it runs the action of mode m if and only if reset mode is on, the event is a
      released key that is in time, and the keys of the session with it are failed attempts at the sequence of m and
      then the sequence. */
  lemma {:induction false} FiresExactly(es: seq<Event>, e: Event, m: Mode)
    requires Clocked(es + [e]) && Clocked(es)
    ensures Run(es).inReset ==> SessionUps(es) != []
    ensures Fires(es + [e], m) <==>
            && Run(es).inReset && StillInTime(SessionUps(es), e.time) && e.keyType == KET_KEYUP
            && EndsWithSequence(SessionUps(es) + UpOf(e), m)
  {
    AlwaysTracked(es);
    RunStep(es, e);
    var out := Step(Run(es), e).1;
    assert Fires(es + [e], m) <==> Action(m) in out;
    if Run(es).inReset {
      var ups := SessionUps(es) + UpOf(e);
      StepFiresExactly(Run(es), SessionUps(es), e, m);
      MatcherMeaning(m, ups, Length(m));
      if EndsWith(ups, m, Length(m)) {
        StartExactly(m, ups[..|ups| - Length(m)]);
      }
    } else {
      var f := StepEffect(Run(es), e);
    }
  }

  // Progress and the end of a session

  lemma SessionProgress(s: State, code: int, now: int, level: int)
    requires Inv(s) && s.inReset && level > 0
    ensures Progress(level) in SessionKeyUp(s, code, now).1 <==>
            && Hit(s.index, Advance(s.index, code), MAX_RESET_MODE_COUNT)
            && level == Level(s.index) && level != s.lastEvent
  {
    var a := AfterMachines(s, [], code, now, MAX_RESET_MODE_COUNT);
    if Hit(s.index, Advance(s.index, code), MAX_RESET_MODE_COUNT) && Level(s.index) != s.lastEvent {
      assert a.1[0] == Progress(Level(s.index)) && SessionKeyUp(s, code, now).1[0] == a.1[0];
    }
    var f := FirstComplete(Advance(s.index, code), 0, MAX_RESET_MODE_COUNT);
    assert f < MAX_RESET_MODE_COUNT ==> Advance(s.index, code)[f] > 0 && s.index[f] > 0;
  }

  /** A machine at this index is moved on. */
  predicate MovesAt(ups: seq<KeyUp>, more: seq<KeyUp>, level: int) {
    exists m: Mode :: Matcher(m, ups) == level && Matcher(m, more) > 0
  }

  lemma LevelMoves(s: State, ups: seq<KeyUp>, up: KeyUp)
    requires Inv(s) && s.inReset && Tracks(s, ups)
    requires Hit(s.index, Advance(s.index, up.code), MAX_RESET_MODE_COUNT)
    ensures MovesAt(ups, ups + [up], Level(s.index))
  {
    var next := Advance(s.index, up.code);
    MatcherNext(s, ups, up);
    var m: Mode :| s.index[m] > 0 && next[m] > 0;
    LevelIs(s.index, m);
    assert Matcher(m, ups) == Level(s.index) && Matcher(m, ups + [up]) == next[m];
  }

  lemma MovesLevel(s: State, ups: seq<KeyUp>, up: KeyUp, level: int)
    requires Inv(s) && s.inReset && Tracks(s, ups) && level > 0 && MovesAt(ups, ups + [up], level)
    ensures Hit(s.index, Advance(s.index, up.code), MAX_RESET_MODE_COUNT) && Level(s.index) == level
  {
    MatcherNext(s, ups, up);
    var m: Mode :| Matcher(m, ups) == level && Matcher(m, ups + [up]) > 0;
    LevelIs(s.index, m);
    assert s.index[m] == level && Advance(s.index, up.code)[m] > 0;
  }

  lemma KeyUpProgress(s: State, ups: seq<KeyUp>, up: KeyUp, level: int)
    requires Inv(s) && s.inReset && Tracks(s, ups) && level > 0
    ensures Progress(level) in SessionKeyUp(s, up.code, up.time).1 <==>
            level != Announced(ups) && MovesAt(ups, ups + [up], level)
  {
    SessionProgress(s, up.code, up.time, level);
    if Hit(s.index, Advance(s.index, up.code), MAX_RESET_MODE_COUNT) {
      LevelMoves(s, ups, up);
    }
    if MovesAt(ups, ups + [up], level) {
      MovesLevel(s, ups, up, level);
    }
  }

  /** In reset mode a released key in time has the outputs of the machines, anything else none or those of the end. */
  lemma StepInSession(s: State, e: Event)
    requires Inv(s) && s.inReset && e.time > 0
    ensures if !Expired(s, e.time) && e.keyType == KET_KEYUP
            then Step(s, e).1 == SessionKeyUp(Tick(s, e.time), Translate(e.keyCode), e.time).1
            else forall level: int :: level > 0 ==> Progress(level) !in Step(s, e).1
  {
    TickInv(s, e.time);
    var f := StepEffect(s, e);
    if !Expired(s, e.time) && e.keyType == KET_KEYUP {
      var out := SessionKeyUp(Tick(s, e.time), Translate(e.keyCode), e.time).1;
      assert [] + out == out;
    }
  }

  lemma StepProgress(s: State, ups: seq<KeyUp>, e: Event, level: int)
    requires Inv(s) && s.inReset && Meaning(s, ups) && Tracks(s, ups) && e.time > 0 && level > 0
    ensures Progress(level) in Step(s, e).1 <==>
            && StillInTime(ups, e.time) && e.keyType == KET_KEYUP
            && level != Announced(ups) && MovesAt(ups, ups + UpOf(e), level)
  {
    TickInv(s, e.time);
    StepInSession(s, e);
    if !Expired(s, e.time) && e.keyType == KET_KEYUP {
      KeyUpProgress(Tick(s, e.time), ups, KeyUp(Translate(e.keyCode), e.time), level);
    }
  }

  /** For every event after every run: it announces a positive progress value if and only if reset mode is on, the
      event is a released key in time, a machine moves on from that index, and it was not the last one announced. */
  lemma {:induction false} ProgressExactly(es: seq<Event>, e: Event, level: int)
    requires Clocked(es + [e]) && Clocked(es) && level > 0
    ensures Run(es).inReset ==> SessionUps(es) != []
    ensures Progress(level) in LastOutputs(es + [e]) <==>
            && Run(es).inReset && StillInTime(SessionUps(es), e.time) && e.keyType == KET_KEYUP
            && level != Announced(SessionUps(es)) && MovesAt(SessionUps(es), SessionUps(es) + UpOf(e), level)
  {
    AlwaysTracked(es);
    RunStep(es, e);
    if Run(es).inReset {
      StepProgress(Run(es), SessionUps(es), e, level);
    } else {
      var f := StepEffect(Run(es), e);
    }
  }

  lemma StepEnds(s: State, e: Event)
    requires Inv(s) && e.time > 0
    ensures ReleaseFocus in Step(s, e).1 <==> s.inReset && !Step(s, e).0.inReset
    ensures Progress(-1) in Step(s, e).1 <==>
            && s.inReset && !Step(s, e).0.inReset
            && (s.lastEvent != 0 || exists level :: level > 0 && Progress(level) in Step(s, e).1)
  {
    var f := StepEffect(s, e);
    var out := EffectOutputs(f, s.monitored);
    if f.Closed? || f.Fired? {
      assert f.Fired? ==> out[|out| - 1] == Progress(-1) && out[|out| - 2] == ReleaseFocus;
      assert f.Closed? ==> out[0] == ReleaseFocus && (s.monitored ==> out[1] == Progress(-1));
      assert f.Fired? && f.level > 0 ==> out[0] == Progress(f.level);
    }
  }

  /** For every event after every run: the focus is given back exactly when the session ends, and its end is
      announced exactly when some progress was. */
  lemma {:induction false} EndExactly(es: seq<Event>, e: Event)
    requires Clocked(es + [e]) && Clocked(es)
    ensures Run(es).inReset ==> SessionUps(es) != []
    ensures var ends := Run(es).inReset && !Run(es + [e]).inReset; var out := LastOutputs(es + [e]);
            && (ReleaseFocus in out <==> ends)
            && (Progress(-1) in out <==>
                ends && (Announced(SessionUps(es)) != 0 || exists level :: level > 0 && Progress(level) in out))
  {
    AlwaysTracked(es);
    RunStep(es, e);
    StepEnds(Run(es), e);
  }
}
