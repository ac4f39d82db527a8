/** The bootloader pattern: one fault-tolerant set after a reboot, its retry thread, and synchronous sets. */
module BootloaderPattern {

  const ATTEMPTS := 12

  type Pattern = int

  datatype Thread = First | Retry | Sync(id: nat)

  /** What the log records: the retry permission granted and withdrawn, and every call to the
      manufacturer library with its outcome. */
  datatype Event = Allowed | Withdrawn(id: nat) | Wrote(who: Thread, pattern: Pattern) | Failed(who: Thread)

  datatype Owner = Unlocked | Held(who: Thread)

  /** The fault-tolerant call. */
  datatype Main = MTry | MFailed | MLocked | MAllowed | MFork | MDone

  /** The retry thread; left is its counter of remaining retries. */
  datatype Retrier =
    | RNone
    | RSleep(left: nat)            // before the lock is taken
    | RLocked(left: nat)           // before the flag is read
    | RTry(left: nat)              // has seen the flag clear
    | RTried(ok: bool, left: nat)  // before the lock is released
    | RTest(ok: bool, left: nat)   // evaluating the loop condition
    | RAbort                       // leaving the loop, still with the lock
    | RDone

  /** A synchronous set. It takes the lock only to withdraw the permission. */
  datatype Caller = CLock(pattern: Pattern) | CLocked(pattern: Pattern) | CWithdrawn(pattern: Pattern)
                  | CWrite(pattern: Pattern) | CDone

  /** invalid is invalidateAsyncBootloaderPattern; silent is enableSilentRebootSupport; begun records the phases
      of the fault-tolerant call in which synchronous sets began. */
  datatype State = State(silent: bool, pattern: Pattern, initial: Pattern, stored: Pattern, invalid: bool, lock: Owner,
                         main: Main, retrier: Retrier, callers: map<nat, Caller>, begun: set<Main>, log: seq<Event>)

  ghost predicate Init(s: State) {
    && s.stored == s.initial && !s.invalid && s.lock.Unlocked? && s.main.MTry? && s.retrier.RNone?
    && s.callers == map[] && s.begun == {} && s.log == []
  }

  /** One call to the library with the result it reports: nothing at all on a platform without support. */
  ghost predicate CanReport(s: State, ok: bool) { s.silent || ok }

  function Set(s: State, who: Thread, pattern: Pattern, ok: bool): State {
    if !s.silent then s
    else if ok then s.(stored := pattern, log := s.log + [Wrote(who, pattern)])
    else s.(log := s.log + [Failed(who)])
  }

  ghost predicate MainStep(s: State, s': State) {
    match s.main
    case MTry =>
      exists ok: bool ::
        CanReport(s, ok) && s' == Set(s, First, s.pattern, ok).(main := if ok then MDone else MFailed)
    case MFailed => s.lock.Unlocked? && s' == s.(lock := Held(First), main := MLocked)
    case MLocked => s' == s.(invalid := false, log := s.log + [Allowed], main := MAllowed)
    case MAllowed => s' == s.(lock := Unlocked, main := MFork)
    case MFork => s' == s.(retrier := RSleep(ATTEMPTS), main := MDone)
    case MDone => false
  }

  ghost predicate RetryStep(s: State, s': State) {
    match s.retrier
    case RNone => false
    case RSleep(left) => s.lock.Unlocked? && s' == s.(lock := Held(Retry), retrier := RLocked(left))
    case RLocked(left) => s' == s.(retrier := if !s.invalid then RTry(left) else RAbort)
    case RTry(left) =>
      exists ok: bool :: CanReport(s, ok) && s' == Set(s, Retry, s.pattern, ok).(retrier := RTried(ok, left))
    case RTried(ok, left) => s' == s.(lock := Unlocked, retrier := RTest(ok, left))
    case RTest(ok, left) => s' == s.(retrier := if !ok && left > 1 then RSleep(left - 1) else RDone)
    case RAbort => s' == s.(lock := Unlocked, retrier := RDone)
    case RDone => false
  }

  /** The caller id advances; one that is not there yet may start at any time, with any pattern. */
  ghost predicate CallerStep(s: State, id: nat, s': State) {
    if id !in s.callers then
      exists p: Pattern :: s' == s.(callers := s.callers[id := CLock(p)], begun := s.begun + {s.main})
    else
      match s.callers[id]
      case CLock(p) => s.lock.Unlocked? && s' == s.(lock := Held(Sync(id)), callers := s.callers[id := CLocked(p)])
      case CLocked(p) =>
        s' == s.(invalid := true, log := s.log + [Withdrawn(id)], callers := s.callers[id := CWithdrawn(p)])
      case CWithdrawn(p) => s' == s.(lock := Unlocked, callers := s.callers[id := CWrite(p)])
      case CWrite(p) =>
        exists ok: bool :: CanReport(s, ok) && s' == Set(s, Sync(id), p, ok).(callers := s.callers[id := CDone])
      case CDone => false
  }

  ghost predicate Next(s: State, s': State) {
    MainStep(s, s') || RetryStep(s, s') || exists id: nat :: CallerStep(s, id, s')
  }

  // What a log says

  /** The permission was withdrawn since it was last granted. */
  predicate Revoked(log: seq<Event>) {
    log != [] &&
    var last := log[|log| - 1];
    last.Withdrawn? || (!last.Allowed? && Revoked(log[..|log| - 1]))
  }

  function LastWritten(log: seq<Event>, initial: Pattern): Pattern {
    if log == [] then initial
    else var last := log[|log| - 1]; if last.Wrote? then last.pattern else LastWritten(log[..|log| - 1], initial)
  }

  /** The pattern of the last successful synchronous set, or none. */
  function LastSync(log: seq<Event>, none: Pattern): Pattern {
    if log == [] then none
    else
      var last := log[|log| - 1];
      if last.Wrote? && last.who.Sync? then last.pattern else LastSync(log[..|log| - 1], none)
  }

  predicate SyncWrote(log: seq<Event>) { exists i :: 0 <= i < |log| && log[i].Wrote? && log[i].who.Sync? }

  predicate ByRetry(e: Event) { (e.Wrote? || e.Failed?) && e.who.Retry? }

  /** The outcomes of the retry thread's attempts. */
  function Attempts(log: seq<Event>): seq<bool> {
    if log == [] then []
    else
      var last := log[|log| - 1];
      Attempts(log[..|log| - 1]) + if ByRetry(last) then [last.Wrote?] else []
  }

  lemma LogOneMore(log: seq<Event>, e: Event, initial: Pattern)
    ensures Revoked(log + [e]) == (e.Withdrawn? || (!e.Allowed? && Revoked(log)))
    ensures LastWritten(log + [e], initial) == if e.Wrote? then e.pattern else LastWritten(log, initial)
    ensures LastSync(log + [e], initial) == if e.Wrote? && e.who.Sync? then e.pattern else LastSync(log, initial)
    ensures Attempts(log + [e]) == Attempts(log) + if ByRetry(e) then [e.Wrote?] else []
    ensures SyncWrote(log + [e]) <==> SyncWrote(log) || (e.Wrote? && e.who.Sync?)
  {
    assert (log + [e])[..|log|] == log;
    assert (log + [e])[|log|] == e;
    if SyncWrote(log) {
      var i :| 0 <= i < |log| && log[i].Wrote? && log[i].who.Sync?;
      assert (log + [e])[i] == log[i];
    }
  }

  /** Every attempt of the retry thread was made with the permission in force. */
  ghost predicate Obedient(log: seq<Event>) {
    forall j :: 0 <= j < |log| && ByRetry(log[j]) ==> !Revoked(log[..j])
  }

  lemma ObedientOneMore(log: seq<Event>, e: Event)
    requires Obedient(log) && (ByRetry(e) ==> !Revoked(log))
    ensures Obedient(log + [e])
  {
    var more := log + [e];
    forall j | 0 <= j < |more| && ByRetry(more[j])
      ensures !Revoked(more[..j])
    {
      assert more[..j] == log[..j];
      assert log[..|log|] == log;
    }
  }

  /** Entry i withdraws the permission and no later entry grants it. */
  predicate WithdrawnFor(log: seq<Event>, i: nat) {
    i < |log| && log[i].Withdrawn? && forall k :: i < k < |log| ==> !log[k].Allowed?
  }

  lemma {:induction false} RevokedMeaning(log: seq<Event>)
    ensures Revoked(log) <==> exists i: nat :: WithdrawnFor(log, i)
  {
    if log != [] {
      var n := |log| - 1;
      RevokedMeaning(log[..n]);
      assert WithdrawnFor(log, n) <==> log[n].Withdrawn?;
      forall i: nat | i < n
        ensures WithdrawnFor(log, i) <==> WithdrawnFor(log[..n], i) && !log[n].Allowed?
      {
        assert log[..n][i] == log[i];
        if WithdrawnFor(log[..n], i) && !log[n].Allowed? {
          forall k | i < k < |log|
            ensures !log[k].Allowed?
          {
            if k < n {
              assert log[..n][k] == log[k];
            }
          }
        }
      }
    }
  }

  // The invariant

  predicate MainHolds(s: State) { s.main.MLocked? || s.main.MAllowed? }

  predicate RetryHolds(s: State) { s.retrier.RLocked? || s.retrier.RTry? || s.retrier.RTried? || s.retrier.RAbort? }

  predicate CallerHolds(c: Caller) { c.CLocked? || c.CWithdrawn? }

  ghost predicate Locking(s: State) {
    && (MainHolds(s) <==> s.lock == Held(First))
    && (RetryHolds(s) <==> s.lock == Held(Retry))
    && (forall id <- s.callers :: CallerHolds(s.callers[id]) <==> s.lock == Held(Sync(id)))
    && (s.lock.Held? && s.lock.who.Sync? ==> s.lock.who.id in s.callers)
  }

  /** How far the retry thread is, in terms of the attempts it made. */
  ghost predicate Counted(s: State) {
    var tried := Attempts(s.log);
    && |tried| <= ATTEMPTS
    && (forall i :: 0 <= i < |tried| - 1 ==> !tried[i])
    && match s.retrier
       case RNone => tried == []
       case RSleep(left) => 0 < left <= ATTEMPTS && |tried| == ATTEMPTS - left && (tried != [] ==> !tried[|tried| - 1])
       case RLocked(left) => 0 < left <= ATTEMPTS && |tried| == ATTEMPTS - left && (tried != [] ==> !tried[|tried| - 1])
       case RTry(left) => 0 < left <= ATTEMPTS && |tried| == ATTEMPTS - left && (tried != [] ==> !tried[|tried| - 1])
       case RTried(ok, left) => 0 < left <= ATTEMPTS && |tried| == ATTEMPTS - left + 1 && tried[|tried| - 1] == ok
       case RTest(ok, left) => 0 < left <= ATTEMPTS && |tried| == ATTEMPTS - left + 1 && tried[|tried| - 1] == ok
       case RAbort => s.invalid
       case RDone => s.invalid || |tried| == ATTEMPTS || (tried != [] && tried[|tried| - 1])
  }

  ghost predicate Recorded(s: State) {
    && s.invalid == Revoked(s.log)
    && s.stored == LastWritten(s.log, s.initial)
    && Obedient(s.log)
    && (s.retrier.RTry? ==> !s.invalid)
    && (!s.retrier.RNone? ==> s.main.MDone? && s.silent)
    && (!s.silent ==> s.main.MTry? || s.main.MDone?)
  }

  /** The phases before the grant is under way. */
  const UNSAFE: set<Main> := {MTry, MFailed}

  /** What holds when no synchronous set began in one of them. */
  ghost predicate Orderly(s: State) {
    && (s.callers != map[] ==> s.main !in UNSAFE)
    && (s.main.MLocked? ==> forall id <- s.callers :: s.callers[id].CLock?)
    && (forall id <- s.callers ::
          s.callers[id].CWithdrawn? || s.callers[id].CWrite? || s.callers[id].CDone? ==> s.invalid)
    && (SyncWrote(s.log) ==>
          s.main !in UNSAFE && !s.main.MLocked? && s.invalid && s.stored == LastSync(s.log, s.initial))
  }

  ghost predicate Inv(s: State) {
    Locking(s) && Counted(s) && Recorded(s) && (s.begun !! UNSAFE ==> Orderly(s))
  }

  lemma InitInv(s: State)
    requires Init(s)
    ensures Inv(s)
  {
  }

  lemma SetInv(s: State, who: Thread, pattern: Pattern, ok: bool)
    requires Recorded(s) && (who.Retry? ==> !s.invalid)
    ensures var r := Set(s, who, pattern, ok);
            && r.invalid == Revoked(r.log) && r.stored == LastWritten(r.log, r.initial) && Obedient(r.log)
            && Attempts(r.log) == Attempts(s.log) + (if s.silent && who.Retry? then [ok] else [])
            && (SyncWrote(r.log) <==> SyncWrote(s.log) || (s.silent && ok && who.Sync?))
            && LastSync(r.log, r.initial) == if s.silent && ok && who.Sync? then pattern else LastSync(s.log, s.initial)
  {
    var e := if ok then Wrote(who, pattern) else Failed(who);
    LogOneMore(s.log, e, s.initial);
    if s.silent {
      ObedientOneMore(s.log, e);
    }
  }

  lemma MainLocking(s: State, s': State)
    requires Locking(s) && Recorded(s) && MainStep(s, s')
    ensures Locking(s')
  {
  }

  lemma MainLog(s: State, s': State)
    requires Recorded(s) && MainStep(s, s')
    ensures Recorded(s') && Attempts(s'.log) == Attempts(s.log) && (SyncWrote(s'.log) <==> SyncWrote(s.log))
  {
    match s.main {
      case MTry =>
        SetInv(s, First, s.pattern, true);
        SetInv(s, First, s.pattern, false);
      case MLocked =>
        LogOneMore(s.log, Allowed, s.initial);
        ObedientOneMore(s.log, Allowed);
      case _ =>
    }
  }

  lemma MainInv(s: State, s': State)
    requires Inv(s) && MainStep(s, s')
    ensures Inv(s')
  {
    MainLocking(s, s');
    MainLog(s, s');
  }

  lemma RetryLocking(s: State, s': State)
    requires Locking(s) && RetryStep(s, s')
    ensures Locking(s')
  {
  }

  lemma RetryTriesCounted(s: State, s': State)
    requires Counted(s) && Recorded(s) && RetryStep(s, s') && s.retrier.RTry?
    ensures Counted(s')
  {
    var ok :| CanReport(s, ok) && s' == Set(s, Retry, s.pattern, ok).(retrier := RTried(ok, s.retrier.left));
    SetInv(s, Retry, s.pattern, ok);
  }

  lemma RetryCounted(s: State, s': State)
    requires Counted(s) && Recorded(s) && RetryStep(s, s')
    ensures Counted(s')
  {
    if s.retrier.RTry? {
      RetryTriesCounted(s, s');
    }
  }

  lemma RetryLog(s: State, s': State)
    requires Recorded(s) && RetryStep(s, s')
    ensures Recorded(s') && (SyncWrote(s'.log) <==> SyncWrote(s.log))
    ensures s.invalid ==> s'.stored == s.stored && LastSync(s'.log, s.initial) == LastSync(s.log, s.initial)
  {
    if s.retrier.RTry? {
      SetInv(s, Retry, s.pattern, true);
      SetInv(s, Retry, s.pattern, false);
    }
  }

  lemma RetryInv(s: State, s': State)
    requires Inv(s) && RetryStep(s, s')
    ensures Inv(s')
  {
    RetryLocking(s, s');
    RetryCounted(s, s');
    RetryLog(s, s');
  }

  lemma CallerLocking(s: State, id: nat, s': State)
    requires Locking(s) && CallerStep(s, id, s')
    ensures Locking(s')
  {
  }

  /** What a synchronous set does to the log and to what is read from it. */
  lemma CallerLog(s: State, id: nat, s': State)
    requires Recorded(s) && CallerStep(s, id, s')
    ensures Attempts(s'.log) == Attempts(s.log)
    ensures s'.invalid == Revoked(s'.log) && s'.stored == LastWritten(s'.log, s.initial) && Obedient(s'.log)
    ensures SyncWrote(s'.log) ==> SyncWrote(s.log) || (id in s.callers && s.callers[id].CWrite?)
    ensures s.stored == LastSync(s.log, s.initial) ==> s'.stored == LastSync(s'.log, s.initial)
    ensures id in s.callers && s.callers[id].CWrite? && SyncWrote(s'.log) && !SyncWrote(s.log)
            ==> s'.stored == LastSync(s'.log, s.initial)
  {
    if id in s.callers {
      match s.callers[id] {
        case CLocked(_) =>
          LogOneMore(s.log, Withdrawn(id), s.initial);
          ObedientOneMore(s.log, Withdrawn(id));
        case CWrite(p) =>
          SetInv(s, Sync(id), p, true);
          SetInv(s, Sync(id), p, false);
        case _ =>
      }
    }
  }

  lemma CallerOrderly(s: State, id: nat, s': State)
    requires Locking(s) && Recorded(s) && Orderly(s) && CallerStep(s, id, s') && s'.begun !! UNSAFE
    ensures Orderly(s')
  {
    CallerLog(s, id, s');
  }

  lemma CallerRecorded(s: State, id: nat, s': State)
    requires Locking(s) && Recorded(s) && CallerStep(s, id, s')
    ensures Recorded(s')
  {
    CallerLog(s, id, s');
  }

  lemma CallerCounted(s: State, id: nat, s': State)
    requires Recorded(s) && Counted(s) && CallerStep(s, id, s')
    ensures Counted(s')
  {
    CallerLog(s, id, s');
  }

  lemma CallerInv(s: State, id: nat, s': State)
    requires Inv(s) && CallerStep(s, id, s')
    ensures Inv(s')
  {
    CallerLocking(s, id, s');
    CallerRecorded(s, id, s');
    CallerCounted(s, id, s');
    assert s.begun <= s'.begun;
    if s'.begun !! UNSAFE {
      CallerOrderly(s, id, s');
    }
  }

  /** A run: any interleaving of the call, its retry thread and any number of synchronous sets. */
  ghost predicate IsRun(run: seq<State>) {
    && run != [] && Init(run[0])
    && forall i :: 0 <= i < |run| - 1 ==> Next(run[i], run[i + 1])
  }

  lemma {:induction false} RunInv(run: seq<State>)
    requires IsRun(run)
    ensures Inv(run[|run| - 1])
    decreases |run|
  {
    if |run| == 1 {
      InitInv(run[0]);
    } else {
      var n := |run| - 2;
      assert Next(run[n], run[n + 1]);
      RunInv(run[..n + 1]);
      if MainStep(run[n], run[n + 1]) {
        MainInv(run[n], run[n + 1]);
      } else if RetryStep(run[n], run[n + 1]) {
        RetryInv(run[n], run[n + 1]);
      } else {
        var id: nat :| CallerStep(run[n], id, run[n + 1]);
        CallerInv(run[n], id, run[n + 1]);
      }
    }
  }

  // Main results

  /** The retry thread never calls the library after a synchronous set withdrew its permission, whatever
      the order of the calls: between the two there is always the fault-tolerant call granting it. */
  lemma {:induction false} NoStaleRetry(run: seq<State>, i: nat, j: nat)
    requires IsRun(run)
    requires var log := run[|run| - 1].log; i < j < |log| && log[i].Withdrawn? && ByRetry(log[j])
    ensures var log := run[|run| - 1].log; exists k :: i < k < j && log[k].Allowed?
  {
    RunInv(run);
    var log := run[|run| - 1].log;
    assert !Revoked(log[..j]);
    RevokedMeaning(log[..j]);
    assert !WithdrawnFor(log[..j], i) && log[..j][i].Withdrawn?;
    var k :| i < k < j && log[..j][k].Allowed?;
    assert log[k].Allowed?;
  }

  /** The pattern of the last successful synchronous set is not the one stored. */
  ghost predicate Lost(s: State) { SyncWrote(s.log) && s.stored != LastSync(s.log, s.initial) }

  /** When no synchronous set began before the fault-tolerant call had the lock for its grant, the stored pattern
      is the one last successfully set synchronously, at every moment after the first such set. */
  lemma {:induction false} LastSyncStays(run: seq<State>)
    requires IsRun(run) && run[|run| - 1].begun !! UNSAFE
    ensures !Lost(run[|run| - 1])
  {
    RunInv(run);
  }

  /** At most twelve attempts, none after a success; a retry thread that has ended either used them all,
      or succeeded, or lost its permission. */
  lemma {:induction false} AttemptsBounded(run: seq<State>)
    requires IsRun(run)
    ensures var s := run[|run| - 1]; var tried := Attempts(s.log);
            && |tried| <= 12
            && (forall i :: 0 <= i < |tried| - 1 ==> !tried[i])
            && (s.retrier.RDone? ==> |tried| == 12 || (tried != [] && tried[|tried| - 1]) || Revoked(s.log))
  {
    RunInv(run);
  }

  // Which patterns are stored

  /** The call and its retry thread have written nothing but pattern p. */
  ghost predicate OwnPattern(s: State, p: Pattern) {
    s.pattern == p && forall j :: 0 <= j < |s.log| && s.log[j].Wrote? && !s.log[j].who.Sync? ==> s.log[j].pattern == p
  }

  /** How the first attempt of the call ended. */
  ghost predicate FirstEnded(s: State) {
    s.silent && !s.main.MTry? ==>
      if s.main.MDone? && s.retrier.RNone? then Wrote(First, s.pattern) in s.log else Failed(First) in s.log
  }

  /** A step appends at most one entry to the log. */
  predicate Grows(s: State, s': State) {
    && s'.pattern == s.pattern && s'.initial == s.initial && s'.silent == s.silent
    && (s'.log == s.log || (|s'.log| == |s.log| + 1 && s'.log[..|s.log|] == s.log))
  }

  lemma CallerGrows(s: State, id: nat, s': State)
    requires CallerStep(s, id, s')
    ensures Grows(s, s')
  {
  }

  lemma ThreadGrows(s: State, s': State)
    requires MainStep(s, s') || RetryStep(s, s')
    ensures Grows(s, s')
  {
  }

  lemma LogGrows(s: State, s': State)
    requires Next(s, s')
    ensures Grows(s, s')
  {
    if MainStep(s, s') || RetryStep(s, s') {
      ThreadGrows(s, s');
    } else {
      var id: nat :| CallerStep(s, id, s');
      CallerGrows(s, id, s');
    }
  }

  lemma OwnPatternStep(s: State, s': State, p: Pattern)
    requires OwnPattern(s, p) && Next(s, s')
    ensures OwnPattern(s', p)
  {
    LogGrows(s, s');
    forall j | 0 <= j < |s'.log| && s'.log[j].Wrote? && !s'.log[j].who.Sync?
      ensures s'.log[j].pattern == p
    {
      if j < |s.log| {
        assert s'.log[j] == s'.log[..|s.log|][j];
      }
    }
  }

  lemma FirstEndedStep(s: State, s': State)
    requires FirstEnded(s) && Recorded(s) && Next(s, s')
    ensures FirstEnded(s')
  {
    LogGrows(s, s');
    assert forall e :: e in s.log ==> e in s'.log by {
      forall e | e in s.log ensures e in s'.log {
        assert s'.log != s.log ==> e in s'.log[..|s.log|];
      }
    }
    if MainStep(s, s') && s.main.MTry? && s.silent {
      assert s'.log[|s.log|] in s'.log;
    }
  }

  /** In every run whatever the fault-tolerant call or its retry thread stores is the pattern it was called with, and
      a retry thread exists only after the first attempt failed. */
  lemma {:induction false} OwnWrites(run: seq<State>)
    requires IsRun(run)
    ensures OwnPattern(run[|run| - 1], run[0].pattern) && FirstEnded(run[|run| - 1])
    ensures run[|run| - 1].initial == run[0].stored
    decreases |run|
  {
    if |run| > 1 {
      var n := |run| - 2;
      assert Next(run[n], run[n + 1]);
      OwnWrites(run[..n + 1]);
      RunInv(run[..n + 1]);
      OwnPatternStep(run[n], run[n + 1], run[0].pattern);
      FirstEndedStep(run[n], run[n + 1]);
      LogGrows(run[n], run[n + 1]);
    }
  }

  predicate AnyWritten(log: seq<Event>) { exists j :: 0 <= j < |log| && log[j].Wrote? }

  lemma {:induction false} LastWrittenIs(log: seq<Event>, initial: Pattern, p: Pattern)
    requires forall j :: 0 <= j < |log| && log[j].Wrote? ==> log[j].pattern == p
    ensures LastWritten(log, initial) == if AnyWritten(log) then p else initial
    decreases |log|
  {
    if log != [] {
      var n := |log| - 1;
      LastWrittenIs(log[..n], initial, p);
      assert forall j :: 0 <= j < n ==> log[..n][j] == log[j];
      assert AnyWritten(log) <==> AnyWritten(log[..n]) || log[n].Wrote? by {
        if AnyWritten(log[..n]) {
          var j :| 0 <= j < n && log[..n][j].Wrote?;
          assert log[j].Wrote?;
        }
      }
    }
  }

  lemma {:induction false} TriedWrites(log: seq<Event>)
    requires true in Attempts(log)
    ensures AnyWritten(log)
    decreases |log|
  {
    var n := |log| - 1;
    if true in Attempts(log[..n]) {
      TriedWrites(log[..n]);
      var j :| 0 <= j < n && log[..n][j].Wrote?;
      assert log[j].Wrote?;
    } else {
      assert log[n].Wrote?;
    }
  }

  /** The call is through: without a retry thread, or with one that has had a success. */
  predicate Through(s: State) { s.silent && s.main.MDone? && (s.retrier.RNone? || true in Attempts(s.log)) }

  /** When nothing but the fault-tolerant call has written, the stored pattern is the requested one once the call is
      through, and at every moment it is that one or still the initial one. */
  lemma {:induction false} RequestedIsStored(run: seq<State>)
    requires IsRun(run) && !SyncWrote(run[|run| - 1].log)
    ensures var s := run[|run| - 1];
            && s.stored == (if AnyWritten(s.log) then run[0].pattern else run[0].stored)
            && (Through(s) ==> s.stored == run[0].pattern)
  {
    var s := run[|run| - 1];
    RunInv(run);
    OwnWrites(run);
    LastWrittenIs(s.log, s.initial, run[0].pattern);
    if Through(s) {
      if true in Attempts(s.log) {
        TriedWrites(s.log);
      } else {
        var j :| 0 <= j < |s.log| && s.log[j] == Wrote(First, s.pattern);
      }
    }
  }

  /** The caller id began with pattern q. */
  ghost predicate BeganWith(run: seq<State>, id: nat, q: Pattern) {
    exists i :: 0 <= i < |run| - 1 && id !in run[i].callers
                && id in run[i + 1].callers && run[i + 1].callers[id] == CLock(q)
  }

  ghost predicate CallersBegan(run: seq<State>, s: State) {
    forall id <- s.callers :: !s.callers[id].CDone? ==> BeganWith(run, id, s.callers[id].pattern)
  }

  ghost predicate WritesBegan(run: seq<State>, s: State) {
    forall j :: 0 <= j < |s.log| && s.log[j].Wrote? && s.log[j].who.Sync? ==>
      BeganWith(run, s.log[j].who.id, s.log[j].pattern)
  }

  lemma BeganStays(run: seq<State>, s': State, id: nat, q: Pattern)
    requires BeganWith(run, id, q)
    ensures BeganWith(run + [s'], id, q)
  {
    var i :| 0 <= i < |run| - 1 && id !in run[i].callers
             && id in run[i + 1].callers && run[i + 1].callers[id] == CLock(q);
    var more := run + [s'];
    assert more[i] == run[i] && more[i + 1] == run[i + 1];
  }

  /** A caller under way was there with the same pattern, or begins with it. */
  lemma CallerStays(s: State, s': State)
    requires Next(s, s')
    ensures forall id <- s'.callers :: !s'.callers[id].CDone? ==>
              if id in s.callers then !s.callers[id].CDone? && s.callers[id].pattern == s'.callers[id].pattern
              else s'.callers[id].CLock?
  {
  }

  /** Only a caller that is about to write writes, and only its pattern. */
  lemma CallerWrites(s: State, s': State)
    requires Next(s, s') && |s'.log| > |s.log|
    requires s'.log[|s.log|].Wrote? && s'.log[|s.log|].who.Sync?
    ensures var e := s'.log[|s.log|]; e.who.id in s.callers && s.callers[e.who.id] == CWrite(e.pattern)
  {
  }

  lemma CallersBeganStep(run: seq<State>, s': State)
    requires run != [] && CallersBegan(run, run[|run| - 1]) && Next(run[|run| - 1], s')
    ensures CallersBegan(run + [s'], s')
  {
    var s, more := run[|run| - 1], run + [s'];
    CallerStays(s, s');
    forall id <- s'.callers | !s'.callers[id].CDone?
      ensures BeganWith(more, id, s'.callers[id].pattern)
    {
      if id in s.callers {
        BeganStays(run, s', id, s.callers[id].pattern);
      } else {
        assert more[|run| - 1] == s && more[|run|] == s';
      }
    }
  }

  lemma WritesBeganStep(run: seq<State>, s': State)
    requires run != [] && CallersBegan(run, run[|run| - 1]) && WritesBegan(run, run[|run| - 1])
    requires Next(run[|run| - 1], s')
    ensures WritesBegan(run + [s'], s')
  {
    var s, n := run[|run| - 1], |run[|run| - 1].log|;
    LogGrows(s, s');
    forall j | 0 <= j < |s'.log| && s'.log[j].Wrote? && s'.log[j].who.Sync?
      ensures BeganWith(run + [s'], s'.log[j].who.id, s'.log[j].pattern)
    {
      if j < n {
        assert s'.log[j] == s'.log[..n][j];
      } else {
        CallerWrites(s, s');
      }
      BeganStays(run, s', s'.log[j].who.id, s'.log[j].pattern);
    }
  }

  /** In every run a synchronous set writes only the pattern it was called with. */
  lemma {:induction false} SyncWrites(run: seq<State>)
    requires IsRun(run)
    ensures CallersBegan(run, run[|run| - 1]) && WritesBegan(run, run[|run| - 1])
    decreases |run|
  {
    if |run| > 1 {
      var before, s' := run[..|run| - 1], run[|run| - 1];
      SyncWrites(before);
      assert Next(run[|run| - 2], s');
      CallersBeganStep(before, s');
      WritesBeganStep(before, s');
      assert before + [s'] == run;
    }
  }

  lemma UnsupportedStep(s: State, s': State)
    requires Next(s, s') && !s'.silent
    ensures !s.silent
    ensures s.main.MTry? || s.main.MDone? ==> s'.stored == s.stored && s'.initial == s.initial
    ensures s.retrier.RNone? && (s.main.MTry? || s.main.MDone?) ==> s'.retrier.RNone?
    ensures s.main.MTry? || s.main.MDone? ==> s'.log == s.log || exists id: nat :: s'.log == s.log + [Withdrawn(id)]
  {
  }

  /** Platforms without silent reboot support never touch the stored pattern and never start a retry thread. */
  lemma {:induction false} NoSupportNoWrites(run: seq<State>)
    requires IsRun(run) && !run[|run| - 1].silent
    ensures var s := run[|run| - 1];
            s.stored == s.initial && s.retrier.RNone? && forall i :: 0 <= i < |s.log| ==> s.log[i].Withdrawn?
    decreases |run|
  {
    if |run| > 1 {
      var n := |run| - 2;
      assert Next(run[n], run[n + 1]);
      UnsupportedStep(run[n], run[n + 1]);
      NoSupportNoWrites(run[..n + 1]);
      RunInv(run[..n + 1]);
    }
  }

  /** The steps the retry thread can still take. */
  function RetryWork(s: State): nat {
    match s.retrier
    case RNone => 5 * ATTEMPTS
    case RSleep(left) => 5 * left
    case RLocked(left) => if left == 0 then 3 else 5 * left - 1
    case RTry(left) => if left == 0 then 2 else 5 * left - 2
    case RTried(_, left) => if left == 0 then 2 else 5 * left - 3
    case RTest(_, left) => if left == 0 then 1 else 5 * left - 4
    case RAbort => 1
    case RDone => 0
  }

  ghost function RetrySteps(run: seq<State>): nat {
    if |run| <= 1 then 0
    else
      var n := |run| - 2;
      RetrySteps(run[..n + 1]) + if RetryStep(run[n], run[n + 1]) && run[n] != run[n + 1] then 1 else 0
  }

  lemma OwnWork(s: State, s': State)
    requires Counted(s) && RetryStep(s, s')
    ensures RetryWork(s') + 1 <= RetryWork(s)
  {
  }

  lemma OthersWork(s: State, s': State)
    requires Recorded(s) && Next(s, s') && !RetryStep(s, s')
    ensures RetryWork(s') <= RetryWork(s)
  {
  }

  lemma RetryWorkStep(s: State, s': State)
    requires Counted(s) && Recorded(s) && Next(s, s')
    ensures RetryWork(s') + (if RetryStep(s, s') && s != s' then 1 else 0) <= RetryWork(s)
  {
    if RetryStep(s, s') {
      OwnWork(s, s');
    } else {
      OthersWork(s, s');
    }
  }

  /** The retry thread ends: however the others are scheduled, it takes at most sixty steps. */
  lemma {:induction false} RetryEnds(run: seq<State>)
    requires IsRun(run)
    ensures RetrySteps(run) + RetryWork(run[|run| - 1]) <= 60
    decreases |run|
  {
    if |run| > 1 {
      var n := |run| - 2;
      assert Next(run[n], run[n + 1]);
      RunInv(run[..n + 1]);
      RetryWorkStep(run[n], run[n + 1]);
      RetryEnds(run[..n + 1]);
    }
  }

  // Sets begun before the grant

  /** Every two neighbours are a step apart. */
  ghost predicate Chain(run: seq<State>) { forall i :: 0 <= i < |run| - 1 ==> Next(run[i], run[i + 1]) }

  lemma ChainAppend(a: seq<State>, b: seq<State>)
    requires Chain(a) && Chain(b) && a != [] && b != [] && Next(a[|a| - 1], b[0])
    ensures Chain(a + b)
  {
    var c := a + b;
    forall i | 0 <= i < |c| - 1
      ensures Next(c[i], c[i + 1])
    {
      if i < |a| - 1 {
        assert c[i] == a[i] && c[i + 1] == a[i + 1];
      } else if i >= |a| {
        assert c[i] == b[i - |a|] && c[i + 1] == b[i - |a| + 1];
      }
    }
  }

  /** The fault-tolerant call for pattern p in phase m, before any synchronous set. */
  function Before(p: Pattern, m: Main, log: seq<Event>): State {
    State(true, p, 0, 0, false, Unlocked, m, RNone, map[], {}, log)
  }

  /** A synchronous set of q from its beginning to its end, all of it in phase m. */
  function SyncPart(p: Pattern, q: Pattern, m: Main, log: seq<Event>): seq<State> {
    var withdrawn := log + [Withdrawn(0)];
    [ State(true, p, 0, 0, false, Unlocked, m, RNone, map[0 := CLock(q)], {m}, log),
      State(true, p, 0, 0, false, Held(Sync(0)), m, RNone, map[0 := CLocked(q)], {m}, log),
      State(true, p, 0, 0, true, Held(Sync(0)), m, RNone, map[0 := CWithdrawn(q)], {m}, withdrawn),
      State(true, p, 0, 0, true, Unlocked, m, RNone, map[0 := CWrite(q)], {m}, withdrawn),
      State(true, p, 0, q, true, Unlocked, m, RNone, map[0 := CDone], {m}, withdrawn + [Wrote(Sync(0), q)]) ]
  }

  /** After it the fault-tolerant call, whose first attempt failed, grants the retry, which succeeds. */
  function GrantPart(p: Pattern, q: Pattern, m: Main, log: seq<Event>): seq<State> {
    var allowed := log + [Allowed];
    [ State(true, p, 0, q, true, Unlocked, MFailed, RNone, map[0 := CDone], {m}, log),
      State(true, p, 0, q, true, Held(First), MLocked, RNone, map[0 := CDone], {m}, log),
      State(true, p, 0, q, false, Held(First), MAllowed, RNone, map[0 := CDone], {m}, allowed),
      State(true, p, 0, q, false, Unlocked, MFork, RNone, map[0 := CDone], {m}, allowed),
      State(true, p, 0, q, false, Unlocked, MDone, RSleep(ATTEMPTS), map[0 := CDone], {m}, allowed),
      State(true, p, 0, q, false, Held(Retry), MDone, RLocked(ATTEMPTS), map[0 := CDone], {m}, allowed),
      State(true, p, 0, q, false, Held(Retry), MDone, RTry(ATTEMPTS), map[0 := CDone], {m}, allowed),
      State(true, p, 0, p, false, Held(Retry), MDone, RTried(true, ATTEMPTS), map[0 := CDone], {m},
            allowed + [Wrote(Retry, p)]) ]
  }

  lemma SyncChain(p: Pattern, q: Pattern, m: Main, log: seq<Event>)
    ensures Chain(SyncPart(p, q, m, log)) && Next(Before(p, m, log), SyncPart(p, q, m, log)[0])
  {
    var part := SyncPart(p, q, m, log);
    var s := Before(p, m, log);
    assert part[0] == s.(callers := s.callers[0 := CLock(q)], begun := s.begun + {m});
    assert CallerStep(s, 0, part[0]);
    forall i | 0 <= i < 4
      ensures CallerStep(part[i], 0, part[i + 1])
    {
      if i == 3 {
        assert CanReport(part[3], true);
        assert part[4] == Set(part[3], Sync(0), q, true).(callers := part[3].callers[0 := CDone]);
      }
    }
  }

  lemma GrantStep(p: Pattern, q: Pattern, m: Main, log: seq<Event>, i: nat)
    requires i < 7
    ensures var part := GrantPart(p, q, m, log); MainStep(part[i], part[i + 1]) || RetryStep(part[i], part[i + 1])
  {
    var part := GrantPart(p, q, m, log);
    if i == 6 {
      assert CanReport(part[6], true);
      assert part[7] == Set(part[6], Retry, p, true).(retrier := RTried(true, ATTEMPTS));
    }
  }

  lemma GrantChain(p: Pattern, q: Pattern, m: Main, log: seq<Event>)
    ensures Chain(GrantPart(p, q, m, log))
  {
    forall i | 0 <= i < 7
      ensures Next(GrantPart(p, q, m, log)[i], GrantPart(p, q, m, log)[i + 1])
    {
      GrantStep(p, q, m, log, i);
    }
  }

  lemma GrantLoses(p: Pattern, q: Pattern, m: Main, log: seq<Event>)
    requires p != q && SyncWrote(log) && LastSync(log, 0) == q
    ensures Lost(GrantPart(p, q, m, log)[7])
  {
    LogOneMore(log, Allowed, 0);
    LogOneMore(log + [Allowed], Wrote(Retry, p), 0);
  }

  /** Begun and done while the first attempt of the fault-tolerant call is still to fail. */
  lemma OverlapLosesPattern(p: Pattern, q: Pattern) returns (run: seq<State>)
    requires p != q
    ensures IsRun(run) && run[|run| - 1].begun == {MTry} && Lost(run[|run| - 1])
  {
    var start, sync := [Before(p, MTry, [])], SyncPart(p, q, MTry, []);
    var log := [] + [Withdrawn(0)] + [Wrote(Sync(0), q)] + [Failed(First)];
    var grant := GrantPart(p, q, MTry, log);
    SyncChain(p, q, MTry, []);
    GrantChain(p, q, MTry, log);
    ChainAppend(start, sync);
    assert MainStep(sync[4], grant[0]) by {
      assert CanReport(sync[4], false);
      assert grant[0] == Set(sync[4], First, p, false).(main := MFailed);
    }
    ChainAppend(start + sync, grant);
    run := start + sync + grant;
    LogOneMore([] + [Withdrawn(0)], Wrote(Sync(0), q), 0);
    LogOneMore([] + [Withdrawn(0)] + [Wrote(Sync(0), q)], Failed(First), 0);
    GrantLoses(p, q, MTry, log);
  }

  /** Begun and done between that failure and the lock. */
  lemma FailureGapLosesPattern(p: Pattern, q: Pattern) returns (run: seq<State>)
    requires p != q
    ensures IsRun(run) && run[|run| - 1].begun == {MFailed} && Lost(run[|run| - 1])
  {
    var start := [Before(p, MTry, []), Before(p, MFailed, [Failed(First)])];
    var sync := SyncPart(p, q, MFailed, [Failed(First)]);
    var log := [Failed(First)] + [Withdrawn(0)] + [Wrote(Sync(0), q)];
    var grant := GrantPart(p, q, MFailed, log);
    assert MainStep(start[0], start[1]) by {
      assert CanReport(start[0], false);
      assert start[1] == Set(start[0], First, p, false).(main := MFailed);
    }
    SyncChain(p, q, MFailed, [Failed(First)]);
    GrantChain(p, q, MFailed, log);
    assert sync[4] == grant[0];
    ChainAppend(start, sync);
    ChainAppend(start + sync, grant[1..]);
    run := start + sync + grant[1..];
    LogOneMore([Failed(First)] + [Withdrawn(0)], Wrote(Sync(0), q), 0);
    GrantLoses(p, q, MFailed, log);
  }

  /** Synchronous sets begun only in the given phases of the fault-tolerant call never lose their pattern, in any
      run, exactly when those are phases from the taking of the lock on. */
  lemma {:induction false} SafePhasesExactly(phases: set<Main>)
    ensures (forall run: seq<State> :: IsRun(run) && run[|run| - 1].begun <= phases ==> !Lost(run[|run| - 1]))
            <==> phases !! UNSAFE
  {
    if phases !! UNSAFE {
      forall run: seq<State> | IsRun(run) && run[|run| - 1].begun <= phases
        ensures !Lost(run[|run| - 1])
      {
        LastSyncStays(run);
      }
    } else if MTry in phases {
      var run := OverlapLosesPattern(1, 2);
      assert run[|run| - 1].begun <= phases;
    } else {
      var run := FailureGapLosesPattern(1, 2);
      assert run[|run| - 1].begun <= phases;
    }
  }
}
