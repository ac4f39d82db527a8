/** What the recogniser's state says about the keys that were pressed, and when a reset action runs. */
module ResetMeaning {
  import opened ResetRules
  import opened ResetSpec
  import opened ResetRuns
  import opened ResetStreams

  datatype KeyUp = KeyUp(code: int, time: int)

  function UpOf(e: Event): seq<KeyUp> {
    if e.keyType == KET_KEYUP then [KeyUp(Translate(e.keyCode), e.time)] else []
  }

  /** The released keys of a stretch of events, after variant translation. */
  function Ups(es: seq<Event>): seq<KeyUp> {
    if es == [] then []
    else Ups(es[..|es| - 1]) + UpOf(es[|es| - 1])
  }

  lemma UpsAppend(es: seq<Event>, e: Event)
    ensures Ups(es + [e]) == Ups(es) + UpOf(e)
  {
    assert (es + [e])[..|es|] == es;
  }

  predicate IsPowerDown(e: Event) { e.keyType == KET_KEYDOWN && PowerFamily(Translate(e.keyCode)) }

  /** Event p is the most recent power-family key-down before position q. */
  predicate LatestPowerDown(es: seq<Event>, p: nat, q: nat) {
    p < q <= |es| && IsPowerDown(es[p]) && forall i :: p < i < q ==> !IsPowerDown(es[i])
  }

  predicate HeldForReset(hold: int) {
    2000 <= hold <= 10000
  }

  /** Event q is a power release after a hold of 2 to 10 seconds. */
  ghost predicate Opens(es: seq<Event>, q: nat) {
    && q < |es| && UpOf(es[q]) == [KeyUp(KED_POWER, es[q].time)]
    && exists p: nat :: LatestPowerDown(es, p, q) && HeldForReset(es[q].time - es[p].time)
  }

  /** The longest time allowed before the i-th released key of a session. */
  function Limit(i: nat): int { if i == 1 then 10000 else 2000 }

  ghost predicate InTime(ups: seq<KeyUp>) {
    forall i :: 1 <= i < |ups| ==> ups[i].time - ups[i - 1].time <= Limit(i)
  }

  /** The last j released keys are the first j keys of mode m. */
  ghost predicate EndsWith(ups: seq<KeyUp>, m: Mode, j: int) {
    0 <= j <= |ups| && j <= Length(m) && forall i :: 0 <= i < j ==> ups[|ups| - j + i].code == Rule(m)[i].key
  }

  /** In reset mode: index j of a machine means that the last j released keys are the first j of its
      sequence, and the timer runs since no later than the last of them. */
  ghost predicate Meaning(s: State, ups: seq<KeyUp>) {
    && |s.index| == MAX_RESET_MODE_COUNT
    && |ups| >= 1 && ups[0].code == KED_POWER && InTime(ups)
    && (forall m: Mode :: EndsWith(ups, m, s.index[m]))
    && s.current <= ups[|ups| - 1].time
    && s.timeout == Limit(|ups|)
    && (|ups| == 1 ==> s.index == ONES && s.current == ups[0].time)
  }

  lemma EndsWithOneMore(ups: seq<KeyUp>, up: KeyUp, m: Mode, j: int)
    requires EndsWith(ups, m, j) && j < Length(m)
    ensures EndsWith(ups + [up], m, Next(m, j, up.code))
  {
  }

  lemma FirstKeyAfterOpening(index: seq<int>, code: int)
    requires index == ONES
    ensures InRange(index) && (Advance(index, code) == ZEROS || Hit(index, Advance(index, code), MAX_RESET_MODE_COUNT))
  {
    var next := Advance(index, code);
    if next != ZEROS {
      var m: Mode :| next[m] != 0;
      assert index[m] > 0 && next[m] > 0;
    }
  }

  /** A released key that is in time keeps the meaning of the indices, or completes a sequence. */
  lemma KeyUpMeaning(s: State, ups: seq<KeyUp>, up: KeyUp)
    requires Inv(s) && s.inReset && up.time > 0 && Meaning(s, ups)
    requires up.time - s.current <= s.timeout && ups[|ups| - 1].time <= up.time
    ensures InTime(ups + [up])
    ensures SessionKeyUp(s, up.code, up.time).0.inReset ==> Meaning(SessionKeyUp(s, up.code, up.time).0, ups + [up])
    ensures var c := FirstComplete(Advance(s.index, up.code), 0, MAX_RESET_MODE_COUNT);
            c < MAX_RESET_MODE_COUNT ==> EndsWith(ups + [up], c, Length(c))
  {
    var next := Advance(s.index, up.code);
    forall m: Mode ensures EndsWith(ups + [up], m, next[m]) {
      EndsWithOneMore(ups, up, m, s.index[m]);
    }
    if |ups| == 1 {
      FirstKeyAfterOpening(s.index, up.code);
    }
  }

  /** Event q opened a session, and state s is what the keys since then mean. */
  ghost predicate SessionSince(es: seq<Event>, q: nat, s: State) {
    Opens(es, q) && Meaning(s, Ups(es[q..]))
  }

  /** Outside reset mode a non-zero press time is that of the most recent power-family key-down. */
  ghost predicate PressedMeaning(es: seq<Event>, pressed: int) {
    pressed != 0 ==> exists p: nat :: LatestPowerDown(es, p, |es|) && es[p].time == pressed
  }

  lemma PressedOneMore(es: seq<Event>, e: Event, pressed: int)
    requires PressedMeaning(es, pressed)
    ensures !IsPowerDown(e) ==> PressedMeaning(es + [e], pressed)
    ensures IsPowerDown(e) ==> PressedMeaning(es + [e], e.time)
  {
    if IsPowerDown(e) {
      assert LatestPowerDown(es + [e], |es|, |es| + 1);
    } else if pressed != 0 {
      var p: nat :| LatestPowerDown(es, p, |es|) && es[p].time == pressed;
      assert LatestPowerDown(es + [e], p, |es| + 1);
    }
  }

  lemma OpensOneMore(es: seq<Event>, e: Event, q: nat)
    requires Opens(es, q)
    ensures Opens(es + [e], q)
  {
    var p: nat :| LatestPowerDown(es, p, q) && HeldForReset(es[q].time - es[p].time);
    assert LatestPowerDown(es + [e], p, q);
  }

  /** A session that has just been closed is not opened again by the same event. */
  lemma StaysOut(t: State, e: Event)
    requires Inv(t) && !t.inReset && t.pressed == 0
    ensures !Dispatch(t, e.keyType, Translate(e.keyCode), e.time).0.inReset
  {
  }

  /** In reset mode, an event either ends the session or keeps the meaning of the indices. */
  lemma StepMeaning(s: State, ups: seq<KeyUp>, e: Event)
    requires Inv(s) && s.inReset && Meaning(s, ups)
    requires 0 < ups[|ups| - 1].time <= e.time
    ensures Step(s, e).0.inReset ==> Meaning(Step(s, e).0, ups + UpOf(e))
  {
    TickInv(s, e.time);
    var t := Tick(s, e.time);
    if !Expired(s, e.time) {
      if e.keyType == KET_KEYUP {
        KeyUpMeaning(t, ups, KeyUp(Translate(e.keyCode), e.time));
      } else {
        assert ups + [] == ups;
      }
    } else {
      StaysOut(t, e);
    }
  }

  lemma {:induction false} LastUp(es: seq<Event>, q: nat)
    requires Clocked(es) && q < |es| && Ups(es[q..]) != []
    ensures var ups := Ups(es[q..]); 0 < ups[|ups| - 1].time <= es[|es| - 1].time
    decreases |es|
  {
    var last := |es| - 1;
    assert es[q..][..|es| - q - 1] == es[q..last] == es[..last][q..];
    if UpOf(es[last]) == [] {
      assert q < last;
      assert Ups(es[q..]) == Ups(es[..last][q..]) + [];
      LastUp(es[..last], q);
    }
  }

  lemma {:induction false} SessionOneMore(es: seq<Event>, e: Event, q: nat, s: State)
    requires Clocked(es) && e.time > 0 && es != [] && es[|es| - 1].time <= e.time
    requires Inv(s) && s.inReset && SessionSince(es, q, s)
    ensures Step(s, e).0.inReset ==> SessionSince(es + [e], q, Step(s, e).0)
  {
    OpensOneMore(es, e, q);
    LastUp(es, q);
    StepMeaning(s, Ups(es[q..]), e);
    assert (es + [e])[q..] == es[q..] + [e];
    UpsAppend(es[q..], e);
  }

  /** What an event leaves of the press time when reset mode is off afterwards. */
  lemma StepPressed(s: State, e: Event)
    requires Inv(s) && !Step(s, e).0.inReset
    ensures Step(s, e).0.pressed == 0 || Step(s, e).0.pressed == if IsPowerDown(e) then e.time else s.pressed
    ensures s.inReset && Step(s, e).0.pressed != 0 ==> IsPowerDown(e)
  {
  }

  /** A session opens on a power release after a hold of the right length. */
  lemma StepOpens(es: seq<Event>, e: Event, s: State)
    requires Inv(s) && e.time > 0 && !s.inReset && Step(s, e).0.inReset && PressedMeaning(es, s.pressed)
    ensures SessionSince(es + [e], |es|, Step(s, e).0)
  {
    TickInv(s, e.time);
    assert HeldForReset(e.time - s.pressed) && s.pressed != 0;
    var p: nat :| LatestPowerDown(es, p, |es|) && es[p].time == s.pressed;
    assert LatestPowerDown(es + [e], p, |es|);
    assert (es + [e])[|es|..] == [e] && [] + UpOf(e) == UpOf(e);
  }

  /** In reset mode, q is the position of the power release that opened the session; otherwise the
      press time is that of the most recent power-family key-down. */
  ghost predicate History(es: seq<Event>, q: nat, s: State) {
    if s.inReset then SessionSince(es, q, s) else PressedMeaning(es, s.pressed)
  }

  lemma {:induction false} HistoryOneMore(es: seq<Event>, e: Event, q: nat, s: State)
    requires Clocked(es) && e.time > 0 && (es != [] ==> es[|es| - 1].time <= e.time)
    requires Inv(s) && History(es, q, s)
    ensures History(es + [e], if s.inReset then q else |es|, Step(s, e).0)
  {
    if Step(s, e).0.inReset {
      if s.inReset {
        SessionOneMore(es, e, q, s);
      } else {
        StepOpens(es, e, s);
      }
    } else {
      StepPressed(s, e);
      PressedOneMore(es, e, if s.inReset then 0 else s.pressed);
    }
  }

  /** Where the current session was opened. */
  function OpenedAt(es: seq<Event>): nat
    requires Clocked(es)
  {
    if es == [] then 0
    else if Run(es[..|es| - 1]).inReset then OpenedAt(es[..|es| - 1]) else |es| - 1
  }

  lemma {:induction false} OpenedAtOneMore(es: seq<Event>, e: Event)
    requires Clocked(es + [e])
    ensures Clocked(es) && OpenedAt(es + [e]) == if Run(es).inReset then OpenedAt(es) else |es|
  {
    assert (es + [e])[..|es|] == es;
  }

  /** The history behind the state of any run. */
  lemma {:induction false} RunHistory(es: seq<Event>)
    requires Clocked(es)
    ensures History(es, OpenedAt(es), Run(es))
    decreases |es|
  {
    if es != [] {
      var before, e := es[..|es| - 1], es[|es| - 1];
      assert es == before + [e];
      RunStep(before, e);
      RunHistory(before);
      OpenedAtOneMore(before, e);
      HistoryOneMore(before, e, OpenedAt(before), Run(before));
    }
  }

  /** Reset mode has been on ever since the current session was opened. */
  lemma {:induction false} InResetSince(es: seq<Event>, n: nat)
    requires Clocked(es) && Run(es).inReset && OpenedAt(es) < n <= |es|
    ensures Run(es[..n]).inReset
    decreases |es|
  {
    var before := es[..|es| - 1];
    if n == |es| {
      assert es[..n] == es;
    } else {
      assert before[..n] == es[..n];
      InResetSince(before, n);
    }
  }

  /** The session that event q opened ends with the whole sequence of mode m, each key in time. */
  ghost predicate Spelled(es: seq<Event>, q: nat, m: Mode) {
    && Opens(es, q)
    && EndsWith(Ups(es[q..]), m, Length(m)) && InTime(Ups(es[q..]))
    && es[|es| - 1].keyType == KET_KEYUP
  }

  lemma {:induction false} StepFires(es: seq<Event>, e: Event, q: nat, s: State, m: Mode)
    requires Clocked(es) && e.time > 0 && (es != [] ==> es[|es| - 1].time <= e.time)
    requires Inv(s) && History(es, q, s)
    requires exists i :: 0 <= i < |Step(s, e).1| && Step(s, e).1[i] == Action(m)
    ensures s.inReset && Spelled(es + [e], q, m)
  {
    var f := StepEffect(s, e);
    assert s.inReset && !Expired(s, e.time) && f.mode == m;
    OpensOneMore(es, e, q);
    LastUp(es, q);
    KeyUpMeaning(Tick(s, e.time), Ups(es[q..]), KeyUp(Translate(e.keyCode), e.time));
    assert (es + [e])[q..] == es[q..] + [e];
    UpsAppend(es[q..], e);
  }

  lemma {:induction false} FiringOneMore(es: seq<Event>, e: Event, m: Mode)
    requires Clocked(es + [e]) && Fires(es + [e], m)
    ensures Clocked(es) && Run(es).inReset && Spelled(es + [e], OpenedAt(es), m)
  {
    RunStep(es, e);
    RunHistory(es);
    StepFires(es, e, OpenedAt(es), Run(es), m);
  }

  /** A reset action runs only at the end of its sequence: there is a session, opened by a power release
      after a hold of 2 to 10 seconds and in reset mode until now (see InResetSince), whose last released keys spell the
      sequence of the mode, each of them in time. */
  lemma {:induction false} FiringSound(es: seq<Event>, m: Mode)
    requires Clocked(es) && es != [] && Fires(es, m)
    ensures Spelled(es, OpenedAt(es), m) && Run(es[..|es| - 1]).inReset
  {
    var before, e := es[..|es| - 1], es[|es| - 1];
    assert es == before + [e];
    FiringOneMore(before, e, m);
    OpenedAtOneMore(before, e);
  }

  lemma {:induction false} NotSpelled(es: seq<Event>, q: nat)
    requires q < |es| && es[|es| - 1].keyCode != KED_UNDEFINEDKEY
    ensures !Spelled(es, q, CUSTOMER)
  {
    assert es[q..] == es[q..|es| - 1] + [es[|es| - 1]];
    UpsAppend(es[q..|es| - 1], es[|es| - 1]);
    assert Rule(CUSTOMER)[2].key == KED_UNDEFINEDKEY;
  }

  /** The customer action never runs: the key that ends its sequence is not passed to the recogniser. */
  lemma {:induction false} CustomerNeverFires(es: seq<Event>)
    requires Clocked(es) && es != []
    requires forall i :: 0 <= i < |es| ==> es[i].keyCode != KED_UNDEFINEDKEY
    ensures !Fires(es, CUSTOMER)
  {
    if Fires(es, CUSTOMER) {
      FiringSound(es, CUSTOMER);
      NotSpelled(es, OpenedAt(es));
    }
  }
}
