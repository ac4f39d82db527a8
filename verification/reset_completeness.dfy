/** Every reset sequence, entered from the start and in time, runs exactly its own action. */
module ResetCompleteness {
  import opened ResetRules
  import opened ResetSpec
  import opened ResetRuns
  import opened ResetStreams
  import opened ResetMeaning

  /** Sequences i and m start with the same j keys. */
  predicate Agree(i: Mode, m: Mode, j: int) {
    0 <= j <= Length(i) && j <= Length(m) && forall l :: 0 <= l < j ==> Rule(i)[l].key == Rule(m)[l].key
  }

  /** The indices after the first j keys of sequence m. */
  function Path(m: Mode, j: int): seq<int> {
    seq(MAX_RESET_MODE_COUNT, i requires 0 <= i < MAX_RESET_MODE_COUNT => if Agree(i, m, j) then j else 0)
  }

  /** No sequence is a prefix of another. */
  lemma PrefixFree(i: Mode, m: Mode)
    requires i != m
    ensures !Agree(i, m, Length(i))
  {
    var l := if i >= CUSTOMER || m >= CUSTOMER then 2 else if i == WARE_HOUSE || m == WARE_HOUSE then 3 else 4;
    assert Length(i) <= Length(m) ==> Rule(i)[l].key != Rule(m)[l].key;
  }

  lemma PathInRange(m: Mode, j: int)
    requires 0 < j < Length(m)
    ensures InRange(Path(m, j)) && Level(Path(m, j)) == j && Path(m, j)[m] == j
  {
    forall i: Mode ensures 0 <= Path(m, j)[i] < Length(i) {
      if Path(m, j)[i] == Length(i) {
        PrefixFree(i, m);
      }
    }
  }

  /** One more key of sequence m moves the machines that still agree with it, and no other. */
  lemma PathStep(m: Mode, j: int, i: Mode)
    requires 0 < j < Length(m)
    ensures InRange(Path(m, j))
    ensures var next := Advance(Path(m, j), Rule(m)[j].key);
            && (j + 1 < Length(m) ==> next[i] == Path(m, j + 1)[i])
            && (next[i] == Length(i) <==> i == m && j + 1 == Length(m))
  {
    PathInRange(m, j);
    RuleShape(m);
    NextShape(i, Path(m, j)[i], Rule(m)[j].key);
    assert Agree(i, m, j + 1) ==> Agree(i, m, j);
    if i != m {
      PrefixFree(i, m);
    }
  }

  lemma PathAdvance(m: Mode, j: int)
    requires 0 < j < Length(m)
    ensures InRange(Path(m, j))
    ensures var next := Advance(Path(m, j), Rule(m)[j].key);
            && (j + 1 < Length(m) ==> next == Path(m, j + 1))
            && FirstComplete(next, 0, MAX_RESET_MODE_COUNT) == (if j + 1 < Length(m) then MAX_RESET_MODE_COUNT else m)
            && Hit(Path(m, j), next, MAX_RESET_MODE_COUNT)
  {
    PathInRange(m, j);
    forall i: Mode
      ensures var next := Advance(Path(m, j), Rule(m)[j].key);
              && (j + 1 < Length(m) ==> next[i] == Path(m, j + 1)[i])
              && (next[i] == Length(i) <==> i == m && j + 1 == Length(m))
    {
      PathStep(m, j, i);
    }
    var next := Advance(Path(m, j), Rule(m)[j].key);
    FirstCompleteIs(next, MAX_RESET_MODE_COUNT, if j + 1 < Length(m) then MAX_RESET_MODE_COUNT else m);
    assert next[m] == j + 1;
  }

  /** The state after the first j keys of sequence m in a session. */
  ghost predicate OnPath(s: State, m: Mode, j: int) {
    Inv(s) && s.inReset && 0 < j < Length(m) && s.index == Path(m, j) && s.timeout == Limit(j)
  }

  predicate NoAction(out: seq<Output>) { forall i :: 0 <= i < |out| ==> !out[i].Action? }

  predicate OnlyAction(out: seq<Output>, m: Mode) {
    && (exists i :: 0 <= i < |out| && out[i] == Action(m))
    && (forall i :: 0 <= i < |out| && out[i].Action? ==> out[i].mode == m)
  }

  /** A released key that completes no sequence runs no action. */
  lemma QuietSession(s: State, code: int, now: int)
    requires InRange(s.index) && FirstComplete(Advance(s.index, code), 0, MAX_RESET_MODE_COUNT) == MAX_RESET_MODE_COUNT
    ensures NoAction(SessionKeyUp(s, code, now).1)
  {
    var a := AfterMachines(s, [], code, now, MAX_RESET_MODE_COUNT);
    assert NoAction(a.1) && NoAction(ClearOutputs(a.0));
  }

  lemma NextInSession(s: State, m: Mode, j: int, now: int)
    requires OnPath(s, m, j) && now > 0 && j + 1 < Length(m)
    ensures var r := SessionKeyUp(s, Rule(m)[j].key, now);
            OnPath(r.0, m, j + 1) && r.0.current == now && NoAction(r.1)
  {
    PathAdvance(m, j);
    PathInRange(m, j + 1);
    SessionInv(s, Rule(m)[j].key, now);
    QuietSession(s, Rule(m)[j].key, now);
  }

  lemma LastInSession(s: State, m: Mode, j: int, now: int)
    requires OnPath(s, m, j) && now > 0 && j + 1 == Length(m)
    ensures OnlyAction(SessionKeyUp(s, Rule(m)[j].key, now).1, m)
  {
    PathAdvance(m, j);
    var out := AfterMachines(s, [], Rule(m)[j].key, now, MAX_RESET_MODE_COUNT).1;
    assert out[|out| - 3] == Action(m);
  }

  /** One event of a sequence that is entered in time: the next key, or anything but a released key. */
  lemma PathEvent(s: State, m: Mode, j: int, e: Event)
    requires OnPath(s, m, j) && e.time > 0 && e.time - s.current <= s.timeout
    ensures e.keyType != KET_KEYUP ==>
              OnPath(Step(s, e).0, m, j) && Step(s, e).0.current == s.current && NoAction(Step(s, e).1)
    ensures UpOf(e) == [KeyUp(Rule(m)[j].key, e.time)] ==>
              if j + 1 == Length(m) then OnlyAction(Step(s, e).1, m)
              else OnPath(Step(s, e).0, m, j + 1) && Step(s, e).0.current == e.time && NoAction(Step(s, e).1)
  {
    TickInv(s, e.time);
    var t := Tick(s, e.time);
    assert OnPath(t, m, j) && TickOutputs(s, e.time) == [];
    if UpOf(e) == [KeyUp(Rule(m)[j].key, e.time)] {
      var r := SessionKeyUp(t, Rule(m)[j].key, e.time);
      assert [] + r.1 == r.1;
      if j + 1 == Length(m) {
        LastInSession(t, m, j, e.time);
      } else {
        NextInSession(t, m, j, e.time);
      }
    }
  }

  predicate Positive(es: seq<Event>) { forall i :: 0 <= i < |es| ==> es[i].time > 0 }

  /** Fed to the recogniser in state s, the events run no action before the last one, which runs that
      of mode m and no other. */
  ghost predicate FiresOnlyAtEnd(s: State, es: seq<Event>, m: Mode)
    requires Inv(s) && Positive(es)
    decreases |es|
  {
    && es != []
    && var r := Step(s, es[0]);
       if |es| == 1 then OnlyAction(r.1, m)
       else
         StepInv(s, es[0]);
         NoAction(r.1) && FiresOnlyAtEnd(r.0, es[1..], m)
  }

  /** The events are the keys of sequence m from its j-th to its last, each released in time after the
      previous one at t, with any key-downs and repeats between them. */
  predicate Continues(es: seq<Event>, m: Mode, j: int, t: int)
    requires 0 <= j < Length(m)
    decreases |es|
  {
    && es != [] && es[0].time - t <= Limit(j)
    && if es[0].keyType != KET_KEYUP then Continues(es[1..], m, j, t)
       else
         && Translate(es[0].keyCode) == Rule(m)[j].key
         && if j + 1 == Length(m) then |es| == 1 else Continues(es[1..], m, j + 1, es[0].time)
  }

  lemma {:induction false} SequenceFires(s: State, es: seq<Event>, m: Mode, j: int)
    requires OnPath(s, m, j) && Positive(es) && Continues(es, m, j, s.current)
    ensures FiresOnlyAtEnd(s, es, m)
    decreases |es|
  {
    var e, rest := es[0], es[1..];
    StepInv(s, e);
    PathEvent(s, m, j, e);
    var next := if e.keyType == KET_KEYUP then j + 1 else j;
    if next < Length(m) {
      SequenceFires(Step(s, e).0, rest, m, next);
    }
  }

  /** No power-family key is touched. */
  predicate LeavesPowerAlone(es: seq<Event>) {
    forall i :: 0 <= i < |es| ==>
      !(PowerFamily(Translate(es[i].keyCode)) && (es[i].keyType == KET_KEYDOWN || es[i].keyType == KET_KEYUP))
  }

  lemma OpeningEvent(s: State, u: Event)
    requires Inv(s) && !s.inReset && s.pressed > 0 && u.time > 0
    requires UpOf(u) == [KeyUp(KED_POWER, u.time)] && HeldForReset(u.time - s.pressed)
    ensures var s' := Step(s, u).0;
            Inv(s') && s'.inReset && s'.index == ONES && s'.current == u.time && s'.timeout == Limit(1)
    ensures NoAction(Step(s, u).1)
  {
    StepInv(s, u);
  }

  lemma PathStart(m: Mode)
    ensures Path(m, 1) == ONES
  {
    forall i: Mode ensures Path(m, 1)[i] == 1 {
      RuleShape(i);
      RuleShape(m);
    }
  }

  /** A power key held for 2 to 10 seconds, released and followed by the rest of sequence m. */
  lemma {:induction false} HeldEntry(s: State, held: seq<Event>, u: Event, rest: seq<Event>, m: Mode)
    requires Inv(s) && !s.inReset && s.pressed > 0 && Positive(held + [u] + rest)
    requires LeavesPowerAlone(held)
    requires UpOf(u) == [KeyUp(KED_POWER, u.time)] && HeldForReset(u.time - s.pressed)
    requires Continues(rest, m, 1, u.time)
    ensures FiresOnlyAtEnd(s, held + [u] + rest, m)
    decreases |held|
  {
    var es := held + [u] + rest;
    if held == [] {
      assert es[0] == u && es[1..] == rest && rest != [];
      OpeningEvent(s, u);
      PathStart(m);
      SequenceFires(Step(s, u).0, rest, m, 1);
    } else {
      assert es[0] == held[0] && es[1..] == held[1..] + [u] + rest;
      assert Step(s, held[0]).0 == s && Step(s, held[0]).1 == [];
      HeldEntry(s, held[1..], u, rest, m);
    }
  }

  /** Complete for a clean entry: from any state outside reset mode, pressing a power key, holding it for
      2 to 10 seconds and releasing the remaining keys of sequence m in time runs the action of m at the
      last key, and no action before. */
  lemma {:induction false} CleanEntryFires(s: State, d: Event, held: seq<Event>, u: Event, rest: seq<Event>, m: Mode)
    requires Inv(s) && !s.inReset && Positive([d] + (held + [u] + rest))
    requires IsPowerDown(d) && LeavesPowerAlone(held)
    requires UpOf(u) == [KeyUp(KED_POWER, u.time)] && HeldForReset(u.time - d.time)
    requires Continues(rest, m, 1, u.time)
    ensures FiresOnlyAtEnd(s, [d] + (held + [u] + rest), m)
  {
    var tail := held + [u] + rest;
    var es := [d] + tail;
    assert es[0] == d && es[1..] == tail;
    assert forall i :: 0 <= i < |tail| ==> tail[i] == es[i + 1];
    var s' := Step(s, d).0;
    StepInv(s, d);
    assert s' == s.(pressed := d.time) && Step(s, d).1 == [];
    HeldEntry(s', held, u, rest, m);
  }

  lemma LastFires(before: seq<Event>, e: Event, m: Mode)
    requires Clocked(before + [e]) && Clocked(before) && OnlyAction(Step(Run(before), e).1, m)
    ensures Fires(before + [e], m)
  {
    RunStep(before, e);
  }

  lemma FirstPasses(s: State, es: seq<Event>, m: Mode)
    requires Inv(s) && Positive(es) && FiresOnlyAtEnd(s, es, m) && |es| > 1
    ensures Inv(Step(s, es[0]).0) && FiresOnlyAtEnd(Step(s, es[0]).0, es[1..], m)
  {
    StepInv(s, es[0]);
  }

  lemma ClockedPrefix(before: seq<Event>, es: seq<Event>)
    requires Clocked(before + es) && es != []
    ensures Clocked(before + [es[0]]) && before + [es[0]] + es[1..] == before + es
  {
    var more := before + [es[0]];
    assert forall i :: 0 <= i < |more| ==> more[i] == (before + es)[i];
  }

  /** In terms of runs: after any run the last of such events fires. */
  lemma {:induction false} FiresInRun(before: seq<Event>, es: seq<Event>, m: Mode)
    requires Clocked(before + es) && es != [] && Clocked(before)
    requires Positive(es) && FiresOnlyAtEnd(Run(before), es, m)
    ensures Fires(before + es, m)
    decreases |es|
  {
    ClockedPrefix(before, es);
    if |es| == 1 {
      assert before + [es[0]] == before + es;
      LastFires(before, es[0], m);
    } else {
      FirstPasses(Run(before), es, m);
      RunStep(before, es[0]);
      FiresInRun(before + [es[0]], es[1..], m);
    }
  }
}
