/** The power key outside reset mode: what its release does after a hold, and how long it was held. */
module ResetPower {
  import opened ResetRules
  import opened ResetSpec
  import opened ResetRuns
  import opened ResetStreams
  import opened ResetMeaning

  predicate ReleasesPower(e: Event) { UpOf(e) == [KeyUp(KED_POWER, e.time)] }

  /** The power key is released outside reset mode, with the press time known. */
  predicate Judged(s: State, e: Event) { !s.inReset && s.pressed != 0 && ReleasesPower(e) }

  /** From every state that keeps the invariant: a hold of more than ten seconds reboots, one of two to ten seconds
      opens a session, and only these two report that the key has been dealt with. */
  lemma StepPower(s: State, e: Event)
    requires Inv(s) && e.time > 0
    ensures var r := Step(s, e);
            && (Reboot in r.1 <==> Judged(s, e) && e.time - s.pressed > 10000)
            && (RequestFocus in r.1 <==> Judged(s, e) && 2000 <= e.time - s.pressed <= 10000)
            && (RequestFocus in r.1 <==> !s.inReset && r.0.inReset)
            && (r.2 == 1 <==> Judged(s, e) && e.time - s.pressed >= 2000)
            && r.2 in {0, 1}
  {
    var f := StepEffect(s, e);
    assert f.Rebooted? ==> EffectOutputs(f, s.monitored)[0] == Reboot;
    assert f.Opening? ==> EffectOutputs(f, s.monitored)[0] == RequestFocus;
  }

  // The press time

  predicate IsPowerUp(e: Event) { e.keyType == KET_KEYUP && PowerFamily(Translate(e.keyCode)) }

  /** Press p is the latest, reset mode was off, and it was released, if at all, only after more than ten seconds
      and as POWER: other releases forget it or open a session. */
  ghost predicate LivePress(es: seq<Event>, p: nat)
    requires Clocked(es)
  {
    && LatestPowerDown(es, p, |es|) && !Run(es[..p + 1]).inReset
    && forall q :: p < q < |es| && IsPowerUp(es[q]) ==> ReleasesPower(es[q]) && es[q].time - es[p].time > 10000
  }

  lemma {:induction false} LivePressBefore(es: seq<Event>, e: Event, p: nat)
    requires Clocked(es + [e]) && Clocked(es) && p < |es|
    ensures LivePress(es + [e], p) <==>
            LivePress(es, p) && !IsPowerDown(e) && (IsPowerUp(e) ==> ReleasesPower(e) && e.time - es[p].time > 10000)
  {
    var all := es + [e];
    assert all[..p + 1] == es[..p + 1] && all[|es|] == e;
    assert forall q :: 0 <= q < |es| ==> all[q] == es[q];
  }

  lemma {:induction false} LivePressNow(es: seq<Event>, e: Event)
    requires Clocked(es + [e]) && IsPowerDown(e) && !Run(es + [e]).inReset
    ensures LivePress(es + [e], |es|)
  {
    assert (es + [e])[..|es| + 1] == es + [e];
  }

  /** One event outside reset mode before and after it. */
  lemma PressStep(s: State, e: Event)
    requires Inv(s) && e.time > 0
    ensures IsPowerDown(e) && !Step(s, e).0.inReset ==> Step(s, e).0.pressed == e.time
    ensures !s.inReset && s.pressed != 0 && !IsPowerDown(e) ==>
              if IsPowerUp(e) && !(ReleasesPower(e) && e.time - s.pressed > 10000)
              then Step(s, e).0.inReset || Step(s, e).0.pressed == 0
              else !Step(s, e).0.inReset && Step(s, e).0.pressed == s.pressed
  {
  }

  ghost predicate Known(es: seq<Event>, p: nat)
    requires Clocked(es)
  {
    p < |es| && !Run(es).inReset && Run(es).pressed == es[p].time
  }

  lemma {:induction false} KnownNow(es: seq<Event>, e: Event)
    requires Clocked(es + [e]) && Clocked(es) && LivePress(es + [e], |es|)
    ensures Known(es + [e], |es|)
  {
    assert (es + [e])[..|es| + 1] == es + [e] && IsPowerDown(e);
    RunStep(es, e);
    PressStep(Run(es), e);
  }

  lemma {:induction false} KnownStill(es: seq<Event>, e: Event, p: nat)
    requires Clocked(es + [e]) && Clocked(es) && Known(es, p) && LivePress(es + [e], p)
    ensures Known(es + [e], p)
  {
    RunStep(es, e);
    LivePressBefore(es, e, p);
    PressStep(Run(es), e);
  }

  lemma {:induction false} KnownOneMore(es: seq<Event>, e: Event, p: nat)
    requires Clocked(es + [e]) && Clocked(es) && LivePress(es + [e], p)
    requires LivePress(es, p) ==> Known(es, p)
    ensures Known(es + [e], p)
  {
    if p < |es| {
      LivePressBefore(es, e, p);
      KnownStill(es, e, p);
    } else {
      KnownNow(es, e);
    }
  }

  /** Every live press of the run is the known one. */
  ghost predicate AllKnown(es: seq<Event>)
    requires Clocked(es)
  {
    forall p: nat :: LivePress(es, p) ==> Known(es, p)
  }

  lemma {:induction false} AllKnownOneMore(es: seq<Event>, e: Event)
    requires Clocked(es + [e]) && Clocked(es) && AllKnown(es)
    ensures AllKnown(es + [e])
  {
    forall p: nat | LivePress(es + [e], p) ensures Known(es + [e], p) {
      KnownOneMore(es, e, p);
    }
  }

  lemma {:induction false} LivePressIsKnown(es: seq<Event>)
    requires Clocked(es)
    ensures AllKnown(es)
    decreases |es|
  {
    if es != [] {
      var before, e := es[..|es| - 1], es[|es| - 1];
      LivePressIsKnown(before);
      assert before + [e] == es;
      AllKnownOneMore(before, e);
    }
  }

  lemma {:induction false} KnownPressIsLive(es: seq<Event>) returns (p: nat)
    requires Clocked(es) && !Run(es).inReset && Run(es).pressed != 0
    ensures LivePress(es, p)
    decreases |es|
  {
    var before, e := es[..|es| - 1], es[|es| - 1];
    assert es == before + [e];
    RunStep(before, e);
    PressStep(Run(before), e);
    StepPressed(Run(before), e);
    if IsPowerDown(e) {
      LivePressNow(before, e);
      p := |before|;
    } else {
      p := KnownPressIsLive(before);
      LivePressIsKnown(before);
      LivePressBefore(before, e, p);
    }
  }

  // Main result

  /** The power key is released after a live press at least so many milliseconds ago. */
  ghost predicate ReleasedAfter(es: seq<Event>, e: Event, least: int)
    requires Clocked(es)
  {
    ReleasesPower(e) && exists p: nat :: LivePress(es, p) && e.time - es[p].time >= least
  }

  /** For every event after every run: what the release of the power key does. */
  lemma {:induction false} PowerExactly(es: seq<Event>, e: Event)
    requires Clocked(es + [e]) && Clocked(es)
    ensures Reboot in LastOutputs(es + [e]) <==> ReleasedAfter(es, e, 10001)
    ensures RequestFocus in LastOutputs(es + [e]) <==> ReleasedAfter(es, e, 2000) && !ReleasedAfter(es, e, 10001)
    ensures !Run(es).inReset && Run(es + [e]).inReset <==> RequestFocus in LastOutputs(es + [e])
    ensures Step(Run(es), e).2 == if ReleasedAfter(es, e, 2000) then 1 else 0
  {
    RunStep(es, e);
    StepPower(Run(es), e);
    LivePressIsKnown(es);
    if !Run(es).inReset && Run(es).pressed != 0 {
      var p := KnownPressIsLive(es);
    }
  }
}
