/** The asynchronous power transition: the key handler sets a target, a worker thread moves there. A discrete power
    key has the handler change the state itself, beside the worker and without the lock. */
module AsyncPower {

  datatype Power = Off | Standby | On | LightSleep | DeepSleep

  /** Where the key handler is. A power key goes through the first six: transitionState is read and written without
      the lock, targetState under it. A discrete power key goes through the last four, without the lock. */
  datatype Handler =
    | HIdle
    | HRead(current: Power)    // transitionState read as the current state
    | HDecided(goal: Power)    // a different new state chosen, the worker exists
    | HWrote(goal: Power)      // transitionState written, waiting for the lock
    | HLocked(goal: Power)     // holds the lock
    | HTarget(goal: Power)     // targetState written, about to signal
    | HUnlock                  // about to release the lock
    | HDiscrete(goal: Power)   // powerState read and the other state chosen, entering _SetPowerState
    | HChanging(goal: Power)   // a different powerState read there, before the hardware change
    | HChanged(goal: Power)    // powerState written, about to make transitionState equal
    | HFollowing(goal: Power)  // about to make targetState equal

  /** Where the worker thread is. Parked is inside the condition wait, without the lock. */
  datatype Worker =
    | WNone                    // not created yet
    | WTop                     // about to take the lock
    | WChecking                // holds the lock, compares powerState with targetState
    | WSetting(goal: Power)    // entering _SetPowerState with the lock held
    | WChanging(goal: Power)   // a different powerState read there, before the hardware change
    | WSet(goal: Power)        // powerState written
    | WAligning(goal: Power)   // has seen a different transitionState, about to overwrite it
    | WTargeting(goal: Power)  // about to make targetState equal to the new state
    | WUnlock
    | WParked
    | WWoken                   // signalled or woken, waiting for the lock

  datatype Phase = None | Top | Checking | Setting | Changing | Set | Aligning | Targeting | Unlock | Parked | Woken

  function PhaseOf(w: Worker): Phase {
    match w
    case WNone => None
    case WTop => Top
    case WChecking => Checking
    case WSetting(_) => Setting
    case WChanging(_) => Changing
    case WSet(_) => Set
    case WAligning(_) => Aligning
    case WTargeting(_) => Targeting
    case WUnlock => Unlock
    case WParked => Parked
    case WWoken => Woken
  }

  /** begun records the phases of the worker in which discrete changes began, spurious whether it ever woke up
      without a signal. */
  datatype State = State(power: Power, target: Power, transition: Power, handler: Handler, worker: Worker,
                         begun: set<Phase>, spurious: bool)

  predicate HandlerHolds(s: State) { s.handler.HLocked? || s.handler.HTarget? || s.handler.HUnlock? }

  predicate WorkerHolds(s: State) { !s.worker.WNone? && !s.worker.WTop? && !s.worker.WParked? && !s.worker.WWoken? }

  predicate Free(s: State) { !HandlerHolds(s) && !WorkerHolds(s) }

  /** The handler is changing the state itself. */
  predicate Discrete(h: Handler) { h.HDiscrete? || h.HChanging? || h.HChanged? || h.HFollowing? }

  /** What a discrete key asks for when it changes anything. */
  function Opposite(p: Power): Power { if p == On then Standby else On }

  ghost predicate Init(s: State) {
    s.power == s.target == s.transition && s.handler.HIdle? && s.worker.WNone? && s.begun == {} && !s.spurious
  }

  /** A power key. */
  ghost predicate KeyStep(s: State, s': State) {
    match s.handler
    case HIdle => s' == s.(handler := HRead(s.transition))
    case HRead(current) =>
      || s' == s.(handler := HIdle)  // a key that changes nothing
      || exists goal: Power :: goal != current
           && s' == s.(handler := HDecided(goal), worker := if s.worker.WNone? then WTop else s.worker)
    case HDecided(goal) => s' == s.(handler := HWrote(goal), transition := goal)
    case HWrote(goal) => Free(s) && s' == s.(handler := HLocked(goal))
    case HLocked(goal) =>
      s' == if s.target != goal then s.(target := goal, handler := HTarget(goal)) else s.(handler := HUnlock)
    case HTarget(_) => s' == s.(handler := HUnlock, worker := if s.worker.WParked? then WWoken else s.worker)
    case HUnlock => s' == s.(handler := HIdle)
    case _ => false
  }

  /** A discrete power key that changes the state. A change out of deep sleep can be ignored. */
  ghost predicate DiscreteStep(s: State, s': State) {
    match s.handler
    case HIdle => s' == s.(handler := HDiscrete(Opposite(s.power)), begun := s.begun + {PhaseOf(s.worker)})
    case HDiscrete(goal) =>
      || (s.power != goal && s' == s.(handler := HChanging(goal)))
      || ((s.power == goal || s.power == DeepSleep) && s' == s.(handler := HIdle))
    case HChanging(goal) => s' == s.(power := goal, handler := HChanged(goal))
    case HChanged(goal) => s' == s.(transition := goal, handler := HFollowing(goal))
    case HFollowing(goal) => s' == s.(target := goal, handler := HIdle)
    case _ => false
  }

  ghost predicate HandlerStep(s: State, s': State) { KeyStep(s, s') || DiscreteStep(s, s') }

  ghost predicate WorkerStep(s: State, s': State) {
    match s.worker
    case WNone => false
    case WTop => Free(s) && s' == s.(worker := WChecking)
    case WChecking => s' == s.(worker := if s.power != s.target then WSetting(s.target) else WParked)
    case WSetting(goal) =>
      || (s.power != goal && s' == s.(worker := WChanging(goal)))
      || ((s.power == goal || s.power == DeepSleep) && s' == s.(worker := WUnlock))  // nothing to do, or ignored
    case WChanging(goal) => s' == s.(power := goal, worker := WSet(goal))
    case WSet(goal) => s' == s.(worker := if s.transition != goal then WAligning(goal) else WTargeting(goal))
    case WAligning(goal) => s' == s.(transition := goal, worker := WTargeting(goal))
    case WTargeting(goal) => s' == s.(target := goal, worker := WUnlock)
    case WUnlock => s' == s.(worker := WTop)
    case WParked => s' == s.(worker := WWoken, spurious := true)
    case WWoken => Free(s) && s' == s.(worker := WUnlock)
  }

  ghost predicate Next(s: State, s': State) { HandlerStep(s, s') || WorkerStep(s, s') }

  /** Discrete changes began only before the worker existed, or while it was parked and never woke by itself. */
  predicate Safe(s: State) { s.begun <= {None} || (s.begun <= {None, Parked} && !s.spurious) }

  /** transitionState is the goal, or the worker has still to write it on its way there. */
  predicate Follows(s: State, goal: Power) {
    s.transition == goal || s.power != goal || s.worker.WSet? || s.worker.WAligning?
  }

  /** The state of a discrete change: the worker is out of the way, and the three states follow one by one. */
  predicate Alone(s: State) {
    && (s.worker.WNone? || (s.worker.WParked? && Parked in s.begun))
    && s.target == (if s.handler.HFollowing? then s.target else s.transition)
    && match s.handler
       case HChanged(goal) => s.power == goal
       case HFollowing(goal) => s.power == goal == s.transition
       case _ => s.power == s.target
  }

  /** The inductive invariant of safe runs. */
  ghost predicate Inv(s: State) {
    && !(HandlerHolds(s) && WorkerHolds(s))
    && (s.worker.WSetting? || s.worker.WChanging? ==> s.worker.goal == s.target != s.power)
    && (s.worker.WSet? || s.worker.WAligning? || s.worker.WTargeting? ==> s.worker.goal == s.target == s.power)
    && (Discrete(s.handler) ==> Alone(s))
    // no lost wake-up
    && (s.worker.WParked? ==> s.power == s.target || s.handler.HTarget? || Discrete(s.handler))
    // before the first power key nothing differs
    && (s.worker.WNone? && !Discrete(s.handler) ==>
          (s.handler.HIdle? || s.handler.HRead?) && s.power == s.target == s.transition)
    // transitionState follows the key that is being handled, or will be overwritten on the way to it
    && (s.handler.HIdle? || s.handler.HRead? || s.handler.HDecided? || s.handler.HUnlock? ==> Follows(s, s.target))
    && (s.handler.HWrote? || s.handler.HLocked? || s.handler.HTarget? ==> Follows(s, s.handler.goal))
    && (s.handler.HTarget? ==> s.target == s.handler.goal)
  }

  lemma InitInv(s: State)
    requires Init(s)
    ensures Safe(s) && Inv(s)
  {
  }

  lemma HandlerInv(s: State, s': State)
    requires Safe(s') && Inv(s) && HandlerStep(s, s')
    ensures Inv(s')
  {
  }

  lemma WorkerInv(s: State, s': State)
    requires Safe(s') && Inv(s) && WorkerStep(s, s')
    ensures Inv(s')
  {
  }

  lemma SafeBefore(s: State, s': State)
    requires Safe(s') && Next(s, s')
    ensures Safe(s)
  {
  }

  /** A run: any interleaving of the two threads. */
  ghost predicate IsRun(run: seq<State>) {
    && run != [] && Init(run[0])
    && forall i :: 0 <= i < |run| - 1 ==> Next(run[i], run[i + 1])
  }

  lemma {:induction false} RunInv(run: seq<State>)
    requires IsRun(run) && Safe(run[|run| - 1])
    ensures Inv(run[|run| - 1])
    decreases |run|
  {
    if |run| == 1 {
      InitInv(run[0]);
    } else {
      var n := |run| - 2;
      assert Next(run[n], run[n + 1]);
      SafeBefore(run[n], run[n + 1]);
      RunInv(run[..n + 1]);
      if HandlerStep(run[n], run[n + 1]) {
        HandlerInv(run[n], run[n + 1]);
      } else {
        WorkerInv(run[n], run[n + 1]);
      }
    }
  }

  /** Nothing is left to do and all three states agree. */
  predicate AgreesAtRest(s: State) {
    s.handler.HIdle? && (s.worker.WParked? || s.worker.WNone?) ==> s.power == s.target == s.transition
  }

  /** In every interleaving with safe discrete changes: the worker is parked only when there is nothing to do, or the
      handler is just about to signal it or in a discrete change, and when both are at rest all three states agree. */
  lemma {:induction false} NoLostWakeUp(run: seq<State>)
    requires IsRun(run) && Safe(run[|run| - 1])
    ensures var s := run[|run| - 1];
            && (s.worker.WParked? ==> s.power == s.target || s.handler.HTarget? || Discrete(s.handler))
            && AgreesAtRest(s)
  {
    RunInv(run);
  }

  // Convergence

  /** The worker's next step when nothing stops it. */
  function WorkerNext(s: State): State {
    match s.worker
    case WTop => s.(worker := WChecking)
    case WChecking => s.(worker := if s.power != s.target then WSetting(s.target) else WParked)
    case WSetting(goal) => s.(worker := if s.power != goal then WChanging(goal) else WUnlock)
    case WChanging(goal) => s.(power := goal, worker := WSet(goal))
    case WSet(goal) => s.(worker := if s.transition != goal then WAligning(goal) else WTargeting(goal))
    case WAligning(goal) => s.(transition := goal, worker := WTargeting(goal))
    case WTargeting(goal) => s.(target := goal, worker := WUnlock)
    case WUnlock => s.(worker := WTop)
    case WWoken => s.(worker := WUnlock)
    case _ => s
  }

  /** The number of steps the worker still needs, if the goal it has is the target. */
  function Remaining(s: State): nat {
    var round := if s.power != s.target then 9 else 1;
    match s.worker
    case WChecking => round
    case WTop => round + 1
    case WUnlock => round + 2
    case WWoken => round + 3
    case WTargeting(_) => round + 3
    case WAligning(_) => round + 4
    case WSet(_) => round + 5
    case WChanging(_) => 7
    case WSetting(_) => if s.power != s.target then 8 else 4
    case _ => 0
  }

  /** The goal of the worker is the target. */
  predicate Aimed(s: State) {
    s.worker.WSetting? || s.worker.WChanging? || s.worker.WSet? || s.worker.WAligning? || s.worker.WTargeting?
    ==> s.worker.goal == s.target
  }

  /** The worker can always go on, and comes nearer to its rest, whatever the handler has left in powerState. */
  lemma WorkerGoesOn(s: State)
    requires Aimed(s) && !s.worker.WNone? && !s.worker.WParked? && !HandlerHolds(s)
    ensures var t := WorkerNext(s);
            && WorkerStep(s, t) && Aimed(t) && !t.worker.WNone? && !HandlerHolds(t) && Remaining(t) < Remaining(s)
            && t.target == s.target && t.handler == s.handler && t.begun == s.begun && t.spurious == s.spurious
            && (t.worker.WParked? ==> t.power == t.target) && t.transition in {s.transition, s.target}
  {
  }

  /** The state in which the worker comes to rest when no more keys arrive. */
  ghost function Settled(s: State): (r: State)
    requires Safe(s) && Inv(s) && s.handler.HIdle? && !s.worker.WNone?
    ensures r.worker.WParked? && r.power == r.target == r.transition == s.target
    decreases Remaining(s)
  {
    if s.worker.WParked? then s
    else
      WorkerGoesOn(s);
      WorkerInv(s, WorkerNext(s));
      Settled(WorkerNext(s))
  }

  /** From any reachable safe state, once the handler is idle the worker alone reaches the last requested state,
      in at most twelve steps. */
  lemma {:induction false} Converges(run: seq<State>)
    requires IsRun(run) && Safe(run[|run| - 1])
    requires run[|run| - 1].handler.HIdle? && !run[|run| - 1].worker.WNone?
    ensures var s := run[|run| - 1];
            Inv(s) && Remaining(s) <= 12 && Settled(s).worker.WParked?
            && Settled(s).power == Settled(s).target == Settled(s).transition == s.target
  {
    RunInv(run);
  }

  // Convergence with changes that are skipped and with spurious wake-ups

  /** The change is ignored because a deep sleep is in progress. */
  predicate Skips(s: State, s': State) { s.worker.WSetting? && s'.worker.WUnlock? }

  /** The steps from state a on that set the thread back: skipped changes and spurious wake-ups, weighted by the
      steps they cost. */
  function Setbacks(run: seq<State>, a: nat): nat
    requires a < |run|
    decreases |run|
  {
    if |run| == a + 1 then 0
    else
      var s, s' := run[|run| - 2], run[|run| - 1];
      Setbacks(run[..|run| - 1], a) + if Skips(s, s') then 4 else if s.worker.WParked? then 5 else 0
  }

  lemma WorkerProgress(s: State, s': State)
    requires Inv(s) && s.handler.HIdle? && WorkerStep(s, s')
    ensures Remaining(s') + 1 <= Remaining(s) + if Skips(s, s') then 4 else if s.worker.WParked? then 5 else 0
    ensures s'.target == s.target
  {
  }

  /** The key handler does nothing from state a on. */
  ghost predicate IdleFrom(run: seq<State>, a: nat) {
    a < |run| && !run[a].worker.WNone? && forall i :: a <= i < |run| ==> run[i].handler.HIdle?
  }

  /** A step that leaves the handler idle is the thread's, and the thread stays. */
  lemma IdleStep(s: State, s': State)
    requires Next(s, s') && s.handler.HIdle? && s'.handler.HIdle? && !s.worker.WNone?
    ensures WorkerStep(s, s') && !s'.worker.WNone?
  {
  }

  lemma AtMostTwelve(s: State)
    requires Inv(s)
    ensures Remaining(s) <= 12
  {
  }

  lemma {:induction false} StepsBounded(run: seq<State>, a: nat)
    requires IsRun(run) && IdleFrom(run, a) && Safe(run[|run| - 1])
    ensures |run| - 1 - a + Remaining(run[|run| - 1]) <= 12 + Setbacks(run, a)
    ensures run[|run| - 1].target == run[a].target && !run[|run| - 1].worker.WNone?
    decreases |run|
  {
    if |run| == a + 1 {
      RunInv(run);
      AtMostTwelve(run[a]);
    } else {
      var before, s, s' := run[..|run| - 1], run[|run| - 2], run[|run| - 1];
      assert before[|before| - 1] == s && before[a] == run[a];
      assert Next(s, s');
      SafeBefore(s, s');
      StepsBounded(before, a);
      RunInv(before);
      IdleStep(s, s');
      WorkerProgress(s, s');
    }
  }

  /** From any reachable state of a safe run, while no key arrives, the thread takes at most twelve steps, four more
      for every change skipped during a deep sleep and five more for every spurious wake-up; whenever it is parked,
      the last requested state has been reached. */
  lemma {:induction false} ConvergesDespiteSkips(run: seq<State>, a: nat)
    requires IsRun(run) && IdleFrom(run, a) && Safe(run[|run| - 1])
    ensures |run| - 1 - a <= 12 + Setbacks(run, a)
    ensures var s := run[|run| - 1]; s.worker.WParked? ==> s.power == s.target == s.transition == run[a].target
  {
    RunInv(run);
    StepsBounded(run, a);
  }

  // Discrete changes beside the worker

  ghost predicate Reachable(s: State) { exists run: seq<State> :: IsRun(run) && run[|run| - 1] == s }

  lemma ReachInit(s: State)
    requires Init(s)
    ensures Reachable(s)
  {
    assert IsRun([s]) && [s][|[s]| - 1] == s;
  }

  lemma ReachNext(s: State, s': State)
    requires Reachable(s) && Next(s, s')
    ensures Reachable(s')
  {
    var run: seq<State> :| IsRun(run) && run[|run| - 1] == s;
    var more := run + [s'];
    forall i | 0 <= i < |more| - 1
      ensures Next(more[i], more[i + 1])
    {
      if i < |run| - 1 {
        assert more[i] == run[i] && more[i + 1] == run[i + 1];
      }
    }
    assert IsRun(more) && more[|more| - 1] == s';
  }

  /** The worker alone, whatever the handler is about to do without the lock. */
  lemma {:induction false} RunsToPark(s: State) returns (t: State)
    requires Reachable(s) && Aimed(s) && !s.worker.WNone? && !HandlerHolds(s)
    requires s.worker.WParked? ==> s.power == s.target
    ensures Reachable(t) && t.worker.WParked? && t.power == t.target == s.target
    ensures t.handler == s.handler && t.begun == s.begun && t.spurious == s.spurious
    ensures t.transition in {s.transition, s.target}
    decreases Remaining(s)
  {
    t := s;
    if !s.worker.WParked? {
      WorkerGoesOn(s);
      ReachNext(s, WorkerNext(s));
      t := RunsToPark(WorkerNext(s));
    }
  }

  /** A power key with the lock free. */
  function Asked(s: State, goal: Power): State {
    s.(target := goal, transition := goal,
       worker := if s.worker.WNone? then WTop else if s.worker.WParked? then WWoken else s.worker)
  }

  lemma KeyHandled(s: State, goal: Power)
    requires Reachable(s) && s.handler.HIdle? && Free(s) && goal != s.transition && goal != s.target
    ensures Reachable(Asked(s, goal))
  {
    var s1 := s.(handler := HRead(s.transition));
    var s2 := s.(handler := HDecided(goal), worker := if s.worker.WNone? then WTop else s.worker);
    var s3 := s2.(handler := HWrote(goal), transition := goal);
    var s4 := s3.(handler := HLocked(goal));
    var s5 := s4.(target := goal, handler := HTarget(goal));
    var s6 := s5.(handler := HUnlock, worker := if s5.worker.WParked? then WWoken else s5.worker);
    ReachNext(s, s1);
    ReachNext(s1, s2);
    ReachNext(s2, s3);
    ReachNext(s3, s4);
    ReachNext(s4, s5);
    ReachNext(s5, s6);
    ReachNext(s6, Asked(s, goal));
  }

  /** The first half of a discrete change, up to the write of powerState. */
  function Begun(s: State): State {
    s.(power := Opposite(s.power), handler := HChanged(Opposite(s.power)), begun := s.begun + {PhaseOf(s.worker)})
  }

  lemma DiscreteBegins(s: State)
    requires Reachable(s) && s.handler.HIdle?
    ensures Reachable(Begun(s))
  {
    var goal := Opposite(s.power);
    var s1 := s.(handler := HDiscrete(goal), begun := s.begun + {PhaseOf(s.worker)});
    ReachNext(s, s1);
    ReachNext(s1, s1.(handler := HChanging(goal)));
    ReachNext(s1.(handler := HChanging(goal)), Begun(s));
  }

  /** The second half, after the worker has come to rest at another target. */
  lemma DiscreteEnds(s: State) returns (t: State)
    requires Reachable(s) && s.handler.HChanged? && s.worker.WParked? && s.power == s.target != s.handler.goal
    ensures Reachable(t) && !AgreesAtRest(t) && t.begun == s.begun && t.spurious == s.spurious
  {
    var goal := s.handler.goal;
    var s1 := s.(transition := goal, handler := HFollowing(goal));
    t := s1.(target := goal, handler := HIdle);
    ReachNext(s, s1);
    ReachNext(s1, t);
  }

  /** A change that is begun while the worker is under way to another state: its write of powerState is undone by
      the worker, and its write of targetState comes when the worker is parked. */
  lemma FailsFrom(s: State) returns (t: State)
    requires Reachable(s) && s.handler.HIdle? && Aimed(s) && !s.worker.WNone? && !s.worker.WParked?
    requires Opposite(s.power) != s.target
    ensures Reachable(t) && !AgreesAtRest(t) && t.begun == s.begun + {PhaseOf(s.worker)} && t.spurious == s.spurious
  {
    DiscreteBegins(s);
    var parked := RunsToPark(Begun(s));
    t := DiscreteEnds(parked);
  }

  /** One that is begun while the worker is parked, if the worker then wakes up by itself. */
  lemma FailsFromParked(s: State) returns (t: State)
    requires Reachable(s) && s.handler.HIdle? && s.worker.WParked? && Opposite(s.power) != s.target
    ensures Reachable(t) && !AgreesAtRest(t) && t.begun == s.begun + {Parked}
  {
    DiscreteBegins(s);
    var woken := Begun(s).(worker := WWoken, spurious := true);
    ReachNext(Begun(s), woken);
    var parked := RunsToPark(woken);
    t := DiscreteEnds(parked);
  }

  /** At rest in state p, before any key. */
  function Start(p: Power): State { State(p, p, p, HIdle, WNone, {}, false) }

  /** Under way from On to DeepSleep, at one of the worker's places, with the handler idle. */
  function UnderWay(power: Power, worker: Worker): State {
    State(power, DeepSleep, DeepSleep, HIdle, worker, {}, false)
  }

  lemma ReachFirstHalf()
    ensures Reachable(UnderWay(On, WTop)) && Reachable(UnderWay(On, WChecking))
    ensures Reachable(UnderWay(On, WSetting(DeepSleep))) && Reachable(UnderWay(On, WChanging(DeepSleep)))
  {
    ReachInit(Start(On));
    KeyHandled(Start(On), DeepSleep);
    ReachNext(UnderWay(On, WTop), UnderWay(On, WChecking));
    ReachNext(UnderWay(On, WChecking), UnderWay(On, WSetting(DeepSleep)));
    ReachNext(UnderWay(On, WSetting(DeepSleep)), UnderWay(On, WChanging(DeepSleep)));
  }

  lemma ReachSecondHalf()
    ensures Reachable(UnderWay(DeepSleep, WSet(DeepSleep))) && Reachable(UnderWay(DeepSleep, WTargeting(DeepSleep)))
    ensures Reachable(UnderWay(DeepSleep, WUnlock))
  {
    ReachFirstHalf();
    ReachNext(UnderWay(On, WChanging(DeepSleep)), UnderWay(DeepSleep, WSet(DeepSleep)));
    ReachNext(UnderWay(DeepSleep, WSet(DeepSleep)), UnderWay(DeepSleep, WTargeting(DeepSleep)));
    ReachNext(UnderWay(DeepSleep, WTargeting(DeepSleep)), UnderWay(DeepSleep, WUnlock));
  }

  lemma ReachParked()
    ensures Reachable(UnderWay(DeepSleep, WParked))
  {
    ReachSecondHalf();
    ReachNext(UnderWay(DeepSleep, WUnlock), UnderWay(DeepSleep, WTop));
    ReachNext(UnderWay(DeepSleep, WTop), UnderWay(DeepSleep, WChecking));
    ReachNext(UnderWay(DeepSleep, WChecking), UnderWay(DeepSleep, WParked));
  }

  /** Woken by the key for DeepSleep, after an earlier one for On. */
  lemma ReachWoken() returns (s: State)
    ensures Reachable(s) && s.handler.HIdle? && s.worker.WWoken? && s.power == On && s.target == DeepSleep
    ensures s.begun == {} && !s.spurious
  {
    ReachInit(Start(DeepSleep));
    KeyHandled(Start(DeepSleep), On);
    var parked := RunsToPark(Asked(Start(DeepSleep), On));
    KeyHandled(parked, DeepSleep);
    s := Asked(parked, DeepSleep);
  }

  /** Before any discrete change and any spurious wake-up. */
  function At(power: Power, target: Power, transition: Power, handler: Handler, worker: Worker): State {
    State(power, target, transition, handler, worker, {}, false)
  }

  /** While the worker changes to On, the key for DeepSleep has written transitionState and waits for the lock. */
  lemma ReachOvertaken()
    ensures Reachable(At(DeepSleep, On, DeepSleep, HWrote(DeepSleep), WChanging(On)))
  {
    ReachInit(Start(DeepSleep));
    KeyHandled(Start(DeepSleep), On);
    ReachNext(At(DeepSleep, On, On, HIdle, WTop), At(DeepSleep, On, On, HRead(On), WTop));
    ReachNext(At(DeepSleep, On, On, HRead(On), WTop), At(DeepSleep, On, On, HDecided(DeepSleep), WTop));
    ReachNext(At(DeepSleep, On, On, HDecided(DeepSleep), WTop), At(DeepSleep, On, DeepSleep, HWrote(DeepSleep), WTop));
    var wrote := At(DeepSleep, On, DeepSleep, HWrote(DeepSleep), WTop);
    ReachNext(wrote, wrote.(worker := WChecking));
    ReachNext(wrote.(worker := WChecking), wrote.(worker := WSetting(On)));
    ReachNext(wrote.(worker := WSetting(On)), wrote.(worker := WChanging(On)));
  }

  /** The worker aligns transitionState with On. */
  lemma ReachAligned()
    ensures Reachable(At(On, On, On, HWrote(DeepSleep), WTop))
  {
    var s0 := At(DeepSleep, On, DeepSleep, HWrote(DeepSleep), WChanging(On));
    var s1 := s0.(power := On, worker := WSet(On));
    var s2 := s1.(transition := On, worker := WTargeting(On));
    ReachOvertaken();
    ReachNext(s0, s1);
    ReachNext(s1, s1.(worker := WAligning(On)));
    ReachNext(s1.(worker := WAligning(On)), s2);
    ReachNext(s2, s2.(worker := WUnlock));
    ReachNext(s2.(worker := WUnlock), s2.(worker := WTop));
  }

  /** Then the key sets its target. */
  lemma ReachMisaligned()
    ensures Reachable(At(On, DeepSleep, On, HIdle, WTop))
  {
    var s2 := At(On, On, On, HWrote(DeepSleep), WTop);
    var s3 := s2.(handler := HLocked(DeepSleep));
    var s4 := s3.(target := DeepSleep, handler := HTarget(DeepSleep));
    ReachAligned();
    ReachNext(s2, s3);
    ReachNext(s3, s4);
    ReachNext(s4, s4.(handler := HUnlock));
    ReachNext(s4.(handler := HUnlock), At(On, DeepSleep, On, HIdle, WTop));
  }

  lemma ReachAligning()
    ensures Reachable(At(DeepSleep, DeepSleep, On, HIdle, WAligning(DeepSleep)))
  {
    var s := At(On, DeepSleep, On, HIdle, WTop);
    var t := At(DeepSleep, DeepSleep, On, HIdle, WSet(DeepSleep));
    ReachMisaligned();
    ReachNext(s, s.(worker := WChecking));
    ReachNext(s.(worker := WChecking), s.(worker := WSetting(DeepSleep)));
    ReachNext(s.(worker := WSetting(DeepSleep)), s.(worker := WChanging(DeepSleep)));
    ReachNext(s.(worker := WChanging(DeepSleep)), t);
    ReachNext(t, t.(worker := WAligning(DeepSleep)));
  }

  /** Every phase in which the worker is under way is reached with the handler idle, a power key pending that a
      discrete key can cross. */
  lemma ReachPhase(phase: Phase) returns (s: State)
    requires phase !in {None, Parked}
    ensures Reachable(s) && s.handler.HIdle? && PhaseOf(s.worker) == phase && Aimed(s)
    ensures Opposite(s.power) != s.target && s.begun == {} && !s.spurious
  {
    ReachFirstHalf();
    ReachSecondHalf();
    ReachAligning();
    var woken := ReachWoken();
    s := match phase
      case Top => UnderWay(On, WTop)
      case Checking => UnderWay(On, WChecking)
      case Setting => UnderWay(On, WSetting(DeepSleep))
      case Changing => UnderWay(On, WChanging(DeepSleep))
      case Set => UnderWay(DeepSleep, WSet(DeepSleep))
      case Aligning => At(DeepSleep, DeepSleep, On, HIdle, WAligning(DeepSleep))
      case Targeting => UnderWay(DeepSleep, WTargeting(DeepSleep))
      case Unlock => UnderWay(DeepSleep, WUnlock)
      case _ => woken;
  }

  /** A run whose only discrete change begins in the given phase, and which ends at rest in disagreement. */
  lemma CrossedRun(phase: Phase) returns (run: seq<State>)
    requires phase !in {None, Parked}
    ensures IsRun(run) && run[|run| - 1].begun == {phase} && !run[|run| - 1].spurious && !AgreesAtRest(run[|run| - 1])
  {
    var s := ReachPhase(phase);
    var t := FailsFrom(s);
    run :| IsRun(run) && run[|run| - 1] == t;
  }

  lemma WokenRun() returns (run: seq<State>)
    ensures IsRun(run) && run[|run| - 1].begun == {Parked} && !AgreesAtRest(run[|run| - 1])
  {
    ReachParked();
    var t := FailsFromParked(UnderWay(DeepSleep, WParked));
    run :| IsRun(run) && run[|run| - 1] == t;
  }

  /** Discrete changes that begin only in the given phases of the worker leave the three states in agreement at
      rest, in every run, exactly when they begin before the worker exists. */
  lemma {:induction false} AgreeExactly(phases: set<Phase>)
    ensures (forall run: seq<State> :: IsRun(run) && run[|run| - 1].begun <= phases ==> AgreesAtRest(run[|run| - 1]))
            <==> phases <= {None}
  {
    if phases <= {None} {
      forall run: seq<State> | IsRun(run) && run[|run| - 1].begun <= phases
        ensures AgreesAtRest(run[|run| - 1])
      {
        NoLostWakeUp(run);
      }
    } else {
      var phase :| phase in phases && phase != None;
      var run: seq<State>;
      if phase == Parked {
        run := WokenRun();
      } else {
        run := CrossedRun(phase);
      }
      assert run[|run| - 1].begun <= phases;
    }
  }

  /** In runs without spurious wake-ups the worker may also be parked. */
  lemma {:induction false} AgreeExactlyUnwoken(phases: set<Phase>)
    ensures (forall run: seq<State> ::
               IsRun(run) && run[|run| - 1].begun <= phases && !run[|run| - 1].spurious
               ==> AgreesAtRest(run[|run| - 1]))
            <==> phases <= {None, Parked}
  {
    if phases <= {None, Parked} {
      forall run: seq<State> | IsRun(run) && run[|run| - 1].begun <= phases && !run[|run| - 1].spurious
        ensures AgreesAtRest(run[|run| - 1])
      {
        NoLostWakeUp(run);
      }
    } else {
      var phase :| phase in phases && phase !in {None, Parked};
      var run := CrossedRun(phase);
      assert run[|run| - 1].begun <= phases;
    }
  }

  // What a discrete key does

  /** A discrete key is handled from step i to step j, and the worker stays where it is. */
  ghost predicate HandledAlone(run: seq<State>, i: nat, j: nat) {
    && IsRun(run) && i < j < |run| && run[i].handler.HIdle?
    && forall k :: i < k <= j ==> Discrete(run[k].handler) && run[k].worker == run[i].worker && run[k] != run[k - 1]
  }

  lemma WorkerOrHandler(s: State, s': State)
    requires Next(s, s') && s'.worker == s.worker && s' != s && Discrete(s'.handler)
    ensures DiscreteStep(s, s')
  {
  }

  /** What has been set so far by a discrete key that began in state s. */
  predicate SetSoFar(s: State, t: State) {
    var goal := if s.power == On then Standby else On;
    && Discrete(t.handler) && t.handler.goal == goal
    && t.power == (if t.handler.HChanged? || t.handler.HFollowing? then goal else s.power)
    && t.transition == (if t.handler.HFollowing? then goal else s.transition)
    && t.target == s.target
  }

  /** A discrete key asks for Standby when the box is On and for On otherwise; it sets the power state first and then
      the transition state. */
  lemma {:induction false} DiscreteKeySets(run: seq<State>, i: nat, j: nat)
    requires HandledAlone(run, i, j)
    ensures SetSoFar(run[i], run[j])
    decreases j
  {
    assert Next(run[j - 1], run[j]);
    if i < j - 1 {
      DiscreteKeySets(run, i, j - 1);
      WorkerOrHandler(run[j - 1], run[j]);
    } else {
      WorkerOrHandler(run[i], run[j]);
    }
  }

  /** When it is through, all three states are the one asked for, or the change was ignored and nothing is set. */
  lemma {:induction false} DiscreteKeyEnds(run: seq<State>, i: nat, j: nat)
    requires HandledAlone(run, i, j) && j + 1 < |run|
    requires run[j + 1].handler.HIdle? && run[j + 1].worker == run[i].worker
    ensures var s, t := run[i], run[j + 1]; var goal := if s.power == On then Standby else On;
            || t.power == t.target == t.transition == goal
            || (t.power == s.power == DeepSleep && t.target == s.target && t.transition == s.transition)
  {
    DiscreteKeySets(run, i, j);
    assert Next(run[j], run[j + 1]);
  }

  // What the thread does

  /** In every run a change that the thread has taken up is left undone only while the box is in deep sleep, or when it
      is in the wanted state already. */
  lemma {:induction false} SkippedOnlyAsleep(run: seq<State>, i: nat)
    requires IsRun(run) && i + 1 < |run| && run[i].worker.WSetting? && run[i + 1].worker.WUnlock?
    ensures run[i].power in {DeepSleep, run[i].worker.goal} && run[i + 1].power == run[i].power
    ensures run[i + 1].target == run[i].target && run[i + 1].transition == run[i].transition
  {
    assert Next(run[i], run[i + 1]);
  }

  /** The thread carries out a change from step i to step j, and the handler stays where it is. */
  ghost predicate ChangedAlone(run: seq<State>, i: nat, j: nat) {
    && IsRun(run) && i < j < |run| && run[i].worker.WChanging?
    && forall k :: i < k <= j ==> run[k].handler == run[i].handler && run[k] != run[k - 1]
                                  && (run[k].worker.WSet? || run[k].worker.WAligning? || run[k].worker.WTargeting?)
  }

  lemma OnlyWorker(s: State, s': State)
    requires Next(s, s') && s'.handler == s.handler && s' != s
    ensures WorkerStep(s, s')
  {
  }

  lemma {:induction false} ThreadSets(run: seq<State>, i: nat, j: nat)
    requires ChangedAlone(run, i, j)
    ensures var goal := run[i].worker.goal; var t := run[j];
            && t.worker.goal == goal == t.power && t.target == run[i].target
            && (t.worker.WTargeting? ==> t.transition == goal)
    decreases j
  {
    assert Next(run[j - 1], run[j]);
    OnlyWorker(run[j - 1], run[j]);
    if i < j - 1 {
      ThreadSets(run, i, j - 1);
    }
  }

  /** When it is through with a change and nothing else happened meanwhile, all three states are the wanted one. */
  lemma {:induction false} ThreadEnds(run: seq<State>, i: nat, j: nat)
    requires ChangedAlone(run, i, j) && j + 1 < |run|
    requires run[j + 1].worker.WUnlock? && run[j + 1].handler == run[i].handler
    ensures var t := run[j + 1]; t.power == t.target == t.transition == run[i].worker.goal
  {
    ThreadSets(run, i, j);
    assert Next(run[j], run[j + 1]);
    OnlyWorker(run[j], run[j + 1]);
  }

  // The handler comes back

  /** The steps to the end of a key. */
  function HandlerLeft(h: Handler): nat {
    match h
    case HIdle => 0
    case HRead(_) => 6
    case HDecided(_) => 5
    case HWrote(_) => 4
    case HLocked(_) => 3
    case HTarget(_) => 2
    case HUnlock => 1
    case HDiscrete(_) => 4
    case HChanging(_) => 3
    case HChanged(_) => 2
    case HFollowing(_) => 1
  }

  /** Every key is handled in at most six steps of the handler, which can always go on but for the lock. */
  lemma HandlerEnds(s: State, s': State)
    requires HandlerStep(s, s') && !s.handler.HIdle?
    ensures HandlerLeft(s'.handler) < HandlerLeft(s.handler) <= 6
  {
  }

  lemma HandlerGoesOn(s: State)
    requires !s.handler.HIdle? && (s.handler.HWrote? ==> Free(s))
    ensures exists s' :: HandlerStep(s, s')
  {
    match s.handler {
      case HRead(_) => assert HandlerStep(s, s.(handler := HIdle));
      case HDecided(goal) => assert HandlerStep(s, s.(handler := HWrote(goal), transition := goal));
      case HWrote(goal) => assert HandlerStep(s, s.(handler := HLocked(goal)));
      case HLocked(goal) =>
        assert HandlerStep(s, if s.target != goal then s.(target := goal, handler := HTarget(goal))
                              else s.(handler := HUnlock));
      case HTarget(_) =>
        assert HandlerStep(s, s.(handler := HUnlock, worker := if s.worker.WParked? then WWoken else s.worker));
      case HUnlock => assert HandlerStep(s, s.(handler := HIdle));
      case HDiscrete(goal) =>
        assert HandlerStep(s, if s.power == goal then s.(handler := HIdle) else s.(handler := HChanging(goal)));
      case HChanging(goal) => assert HandlerStep(s, s.(power := goal, handler := HChanged(goal)));
      case HChanged(goal) => assert HandlerStep(s, s.(transition := goal, handler := HFollowing(goal)));
      case HFollowing(goal) => assert HandlerStep(s, s.(target := goal, handler := HIdle));
    }
  }
}
