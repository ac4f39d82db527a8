/** The key handler of the power manager, as far as it decides which keys reach the recogniser. */
module ResetHandler {
  import opened ResetRules
  import opened ResetSpec
  import opened ResetRuns
  import opened ResetStreams
  import opened ResetRecogniser
  import opened ResetMeaning
  import opened ResetCompleteness

  const KET_KEYREPEAT := 0x8200

  const KED_DISCRETE_POWER_ON := 0x50
  const KED_DISCRETE_POWER_STANDBY := 0x51
  const KED_XR2V3 := 0x67
  const KED_XR5V2 := 0x68
  const KED_XR11V2 := 0x6A
  const KED_XR13 := 0x6B

  const CONTROL_KEYS := [KED_XR2V3, KED_XR5V2, KED_XR11V2, KED_XR13]

  /** A key event of the bus, with what the handler looks at when it arrives: whether the cable connection is
      lost and whether the box is on. */
  datatype KeyEvent = KeyEvent(keyType: int, keyCode: int, frontPanel: bool, time: int, connectionLost: bool, on: bool)

  predicate KnownType(e: KeyEvent) {
    e.keyType == KET_KEYUP || e.keyType == KET_KEYDOWN || e.keyType == KET_KEYREPEAT
  }

  /** The front-panel key that reboots a box without connection. */
  predicate Reboots(e: KeyEvent) {
    e.keyType == KET_KEYUP && e.keyCode == KED_POWER && e.frontPanel && e.connectionLost
  }

  /** A discrete power key that changes the state. */
  predicate Switches(e: KeyEvent) {
    e.keyType == KET_KEYUP && e.keyCode == if e.on then KED_DISCRETE_POWER_STANDBY else KED_DISCRETE_POWER_ON
  }

  /** The event reaches the recogniser. */
  predicate Passes(e: KeyEvent) {
    KnownType(e) && !Reboots(e) && !Switches(e) && e.keyCode != KED_UNDEFINEDKEY && e.keyCode !in CONTROL_KEYS
  }

  function AsEvent(e: KeyEvent): Event { Event(e.keyType, e.keyCode, e.time) }

  function Passed(raw: seq<KeyEvent>): seq<Event> {
    if raw == [] then []
    else
      var e := raw[|raw| - 1];
      Passed(raw[..|raw| - 1]) + if Passes(e) then [AsEvent(e)] else []
  }

  predicate InTimeOrder(raw: seq<KeyEvent>) {
    && (forall i :: 0 <= i < |raw| ==> raw[i].time > 0)
    && (forall i, j :: 0 <= i < j < |raw| ==> raw[i].time <= raw[j].time)
  }

  lemma {:induction false} PassedInOrder(raw: seq<KeyEvent>)
    requires InTimeOrder(raw)
    ensures Clocked(Passed(raw))
    ensures forall i :: 0 <= i < |Passed(raw)| ==> Passed(raw)[i].time <= raw[|raw| - 1].time
    ensures forall i :: 0 <= i < |Passed(raw)| ==> Passed(raw)[i].keyCode != KED_UNDEFINEDKEY
  {
    if raw != [] {
      PassedInOrder(raw[..|raw| - 1]);
    }
  }

  class Handler {
    const recogniser: Recogniser
    ghost var raw: seq<KeyEvent>

    ghost predicate Valid()
      reads this, recogniser, recogniser.expectedKeyIndex
    {
      recogniser.Valid() && InTimeOrder(raw) && recogniser.history == Passed(raw)
    }

    constructor ()
      ensures Valid() && raw == [] && fresh(recogniser) && fresh(recogniser.expectedKeyIndex)
    {
      recogniser := new Recogniser();
      raw := [];
    }

    method IsControlKey(keyCode: int) returns (found: bool)
      ensures found == (keyCode in CONTROL_KEYS)
    {
      found := false;
      for i := 0 to |CONTROL_KEYS|
        invariant !found && keyCode !in CONTROL_KEYS[..i]
      {
        if keyCode == CONTROL_KEYS[i] {
          return true;
        }
      }
    }

    /** One event of the bus. The result is the recogniser's, or 0 when the event does not reach it. */
    method IrEvent(e: KeyEvent) returns (resetState: int)
      requires Valid() && InTimeOrder(raw + [e])
      modifies this, recogniser, recogniser.expectedKeyIndex
      ensures Valid() && raw == old(raw) + [e]
      ensures recogniser.history
              == old(recogniser.history) + if Passes(e) then [AsEvent(e)] else []
      ensures !Passes(e) ==> recogniser.Abs() == old(recogniser.Abs()) && resetState == 0
      ensures Passes(e) ==> resetState == Step(old(recogniser.Abs()), AsEvent(e)).2
    {
      ghost var before := raw;
      raw := raw + [e];
      assert raw[..|raw| - 1] == before && Passed(before) + [] == Passed(before);
      PassedInOrder(raw);
      resetState := 0;
      if e.keyType != KET_KEYUP && e.keyType != KET_KEYDOWN && e.keyType != KET_KEYREPEAT {
        return;
      }
      if e.keyType == KET_KEYUP && e.keyCode == KED_POWER && e.frontPanel && e.connectionLost {
        return;
      }
      if || (e.keyType == KET_KEYUP && e.keyCode == KED_DISCRETE_POWER_ON && !e.on)
         || (e.keyType == KET_KEYUP && e.keyCode == KED_DISCRETE_POWER_STANDBY && e.on) {
        return;
      }
      if e.keyCode == KED_UNDEFINEDKEY {
        return;
      }
      var control := IsControlKey(e.keyCode);
      if !control {
        resetState := recogniser.CheckResetSequence(e.keyType, e.keyCode, e.time);
      }
    }
  }

  // Main result

  lemma {:induction false} NoCustomerAction(es: seq<Event>)
    requires Clocked(es) && forall i :: 0 <= i < |es| ==> es[i].keyCode != KED_UNDEFINEDKEY
    ensures Action(CUSTOMER) !in Outputs(es)
  {
    if es != [] {
      NoCustomerAction(es[..|es| - 1]);
      CustomerNeverFires(es);
    }
  }

  /** Whatever events the bus delivers, the customer action never runs: its sequence ends with a key that the
      handler does not pass on. */
  lemma {:induction false} CustomerNeverActs(raw: seq<KeyEvent>)
    requires InTimeOrder(raw)
    ensures Clocked(Passed(raw)) && Action(CUSTOMER) !in Outputs(Passed(raw))
  {
    PassedInOrder(raw);
    NoCustomerAction(Passed(raw));
  }

  const CUSTOMER_HOLD := [Event(KET_KEYDOWN, KED_POWER, 1), Event(KET_KEYUP, KED_POWER, 3001)]
  const CUSTOMER_REST := [Event(KET_KEYUP, KED_OK, 3002), Event(KET_KEYUP, KED_UNDEFINEDKEY, 3003)]

  lemma CustomerRest()
    ensures Continues(CUSTOMER_REST, CUSTOMER, 1, 3001)
  {
    var es := CUSTOMER_REST;
    assert Rule(CUSTOMER) == CUSTOMER_SEQ && Length(CUSTOMER) == 3;
    assert es[1..] == [es[1]] && Continues(es[1..], CUSTOMER, 2, 3002);
  }

  lemma CustomerFires()
    ensures var es := CUSTOMER_HOLD + CUSTOMER_REST; Clocked(es) && FiresOnlyAtEnd(INITIAL, es, CUSTOMER)
  {
    var down, up, es := CUSTOMER_HOLD[0], CUSTOMER_HOLD[1], CUSTOMER_HOLD + CUSTOMER_REST;
    CustomerRest();
    assert [down] + ([] + [up] + CUSTOMER_REST) == es;
    CleanEntryFires(INITIAL, down, [], up, CUSTOMER_REST, CUSTOMER);
  }

  lemma FiredOutput(es: seq<Event>, m: Mode)
    requires Clocked(es) && es != [] && Fires(es, m)
    ensures Action(m) in Outputs(es)
  {
  }

  /** Without the filter it would: POWER held for three seconds, then OK and an undefined key. */
  lemma {:induction false} CustomerActsUnfiltered()
    ensures var es := CUSTOMER_HOLD + CUSTOMER_REST; Clocked(es) && Action(CUSTOMER) in Outputs(es)
  {
    var es := CUSTOMER_HOLD + CUSTOMER_REST;
    CustomerFires();
    assert [] + es == es;
    FiresInRun([], es, CUSTOMER);
    FiredOutput(es, CUSTOMER);
  }

  // What reaches the recogniser

  /** The events that are stopped: those of no known kind, the keys that mean no key or a change of the remote, the
      front-panel power key of a box without connection, and the discrete key for the other power state. */
  lemma StoppedExactly(e: KeyEvent)
    ensures Passes(e) <==>
            && e.keyType in {0x8000, 0x8100, 0x8200}
            && e.keyCode !in {0xFE, 0x67, 0x68, 0x6A, 0x6B}
            && (e.keyType == 0x8100 ==>
                  && (e.keyCode == 0x80 ==> !e.frontPanel || !e.connectionLost)
                  && e.keyCode != if e.on then 0x51 else 0x50)
  {
  }

  /** The key of a sequence, from a remote or on a box with connection. */
  lemma SequenceKeysPass(m: Mode, j: nat, e: KeyEvent)
    requires m != CUSTOMER && j < Length(m) && e.keyType == KET_KEYUP && Translate(e.keyCode) == Rule(m)[j].key
    requires !e.frontPanel || !e.connectionLost
    ensures Passes(e)
  {
  }

  function AsEvents(es: seq<KeyEvent>): seq<Event> { seq(|es|, i requires 0 <= i < |es| => AsEvent(es[i])) }

  lemma PassedOneMore(raw: seq<KeyEvent>, e: KeyEvent)
    requires Passes(e)
    ensures Passed(raw + [e]) == Passed(raw) + AsEvents([e])
  {
    assert (raw + [e])[..|raw|] == raw;
    assert AsEvents([e]) == [AsEvent(e)];
  }

  lemma AsEventsFirst(es: seq<KeyEvent>)
    requires es != []
    ensures AsEvents(es) == AsEvents([es[0]]) + AsEvents(es[1..])
  {
  }

  lemma {:induction false} PassedAppend(raw: seq<KeyEvent>, es: seq<KeyEvent>)
    requires forall e <- es :: Passes(e)
    ensures Passed(raw + es) == Passed(raw) + AsEvents(es)
    decreases |es|
  {
    if es == [] {
      assert raw + es == raw && Passed(raw) + [] == Passed(raw);
    } else {
      PassedOneMore(raw, es[0]);
      PassedAppend(raw + [es[0]], es[1..]);
      assert raw + [es[0]] + es[1..] == raw + es;
      AsEventsFirst(es);
    }
  }

  lemma EntryEvents(d: KeyEvent, held: seq<KeyEvent>, u: KeyEvent, rest: seq<KeyEvent>)
    ensures AsEvents([d] + (held + [u] + rest)) == [AsEvent(d)] + (AsEvents(held) + [AsEvent(u)] + AsEvents(rest))
  {
  }

  lemma BusPositive(raw: seq<KeyEvent>, es: seq<KeyEvent>)
    requires InTimeOrder(raw + es)
    ensures Positive(AsEvents(es))
  {
    assert forall i :: 0 <= i < |es| ==> es[i] == (raw + es)[|raw| + i];
  }

  /** A sequence entered on the bus while reset mode is off runs its action: the power key pressed, held for two to
      ten seconds and released, and then the rest of the sequence in time, by events that the handler passes on. */
  lemma {:induction false} BusEntryFires(raw: seq<KeyEvent>, d: KeyEvent, held: seq<KeyEvent>, u: KeyEvent,
                                         rest: seq<KeyEvent>, m: Mode)
    requires var es := [d] + (held + [u] + rest); InTimeOrder(raw + es) && forall e <- es :: Passes(e)
    requires Clocked(Passed(raw)) && !Run(Passed(raw)).inReset
    requires IsPowerDown(AsEvent(d)) && LeavesPowerAlone(AsEvents(held))
    requires UpOf(AsEvent(u)) == [KeyUp(KED_POWER, u.time)] && HeldForReset(u.time - d.time)
    requires Continues(AsEvents(rest), m, 1, u.time)
    ensures var all := Passed(raw + ([d] + (held + [u] + rest))); Clocked(all) && all != [] && Fires(all, m)
  {
    var es := [d] + (held + [u] + rest);
    PassedInOrder(raw + es);
    PassedAppend(raw, es);
    EntryEvents(d, held, u, rest);
    BusPositive(raw, es);
    CleanEntryFires(Run(Passed(raw)), AsEvent(d), AsEvents(held), AsEvent(u), AsEvents(rest), m);
    FiresInRun(Passed(raw), AsEvents(es), m);
  }
}
