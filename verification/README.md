# Proofs about the set-top-box managers

These Dafny files model the algorithms with state in the power, device-update, display, and remote-control
managers, and prove what they keep over whole runs. `dafny verify dfyconfig.toml` checks everything.

| files | what they model |
|---|---|
| `reset_rules.dfy`, `reset_spec.dfy`, `reset_runs.dfy`, `reset_recogniser.dfy`, `reset_meaning.dfy`, `reset_completeness.dfy`, `reset_exact.dfy`, `reset_power.dfy`, `reset_handler.dfy` | the reset key sequences: five matchers on one key stream, a power-hold gate, moving time limits, media focus and progress events |
| `thermal_spec.dfy`, `thermal_monitor.dfy`, `thermal_history.dfy`, `thermal_safety.dfy`, `thermal_clock.dfy` | the thermal poll loop: deep-sleep zone, reboot zone, processor clock, grace intervals that can change between polls and inside one |
| `json_builder.dfy`, `json_parser.dfy` | the JSON tree that the tokenizer callbacks build in the heap |
| `async_power.dfy` | the key handler, with power keys and discrete power keys, and the power-transition thread |
| `bootloader.dfy` | the bootloader pattern: one fault-tolerant set, its retry thread, synchronous sets |
| `settings_image.dfy`, `settings.dfy`, `settings_bytes.dfy` | the settings file as bytes, its migration and its synchronisation with the hardware |
| `standby_ports.dfy` | the five-slot table of standby ports and the video ports it governs |
| `resolution.dfy` | the choice of a resolution on hot plug |
| `key_repeat.dfy` | the key handler and the key-repeat thread of the remote-control manager |

Code that changes fields is a class whose methods are proved against functions on values (`Step`, `Loaded`,
`Rule`, ...); runs, histories and theorems are stated about those functions. The two protocols between threads
are step relations, and their results hold for every interleaving.

## What is not as one might expect

- The reset machines are not all at their start outside reset mode. An action restarts all of them in the middle of
  the loop over them, so later ones keep index 1 (`ResetStreams.StaleAfterAction`). Non-zero indices are equal at
  every step boundary all the same (`ResetRuns.UniformEverywhere`), and every session starts with all five at 1
  (`ResetStreams.SessionStart`).
- The customer action never runs, but only because the key handler keeps undefined keys from the recogniser
  (`ResetHandler.CustomerNeverActs`, `CustomerActsUnfiltered`).
- A reset machine does not look again at a key it did not expect, so an action needs more than its sequence at the end
  of the session: the keys before it have to be failed attempts at the same sequence, and all in time
  (`ResetExact.FiresExactly`).
- Deep sleep comes before reboot exactly when there is no reboot check, or the deep-sleep check is enabled and is not
  slower or is forced no later than the reboot zone can be entered (`ThermalOrder.SleepFirstExactly`). This holds with
  changes of the interval between polls. The call that changes it takes no lock, and inside a poll it can break the
  order whatever the intervals: `ThermalOrder.SafeChangesExactly` says for which changes it does. A zone is
  active exactly when some reading entered it only if safe is at most concern, or concern is never below critical
  (`ThermalHistory.ZoneExact`).
- A bound on the number of polls until a request needs polls at least p seconds apart
  (`ThermalTiming.RequestByPoll`); polls at most p apart bound the time instead (`RequestByTime`), and two quick
  polls make no request (`FrequentPollsWait`). When it is made exactly: `RequestExactly`.
- A null inside an array replaces the whole member (`JsonSpec.StoredExactly`), the empty string reads like false.
- A discrete power key has the key handler change the state itself, without the mutex. The power, target and transition
  states agree at rest in every run exactly when such changes begin only before the transition thread exists
  (`AsyncPower.AgreeExactly`), or also while it is parked if it never wakes up by itself (`AgreeExactlyUnwoken`). In
  other phases a pending power key and a discrete one can leave the box in one state and its target at another
  (`CrossedRun`).
- A synchronous bootloader pattern can be lost exactly when the set begins before the fault-tolerant call has taken
  the lock for its retry: during its first attempt or between the failure of that and the lock
  (`BootloaderPattern.SafePhasesExactly`).
- A box that boots to standby with a current file, on a platform that does not tell its power state, does not save
  the standby state (`Settings.SavedExactly`). Two different builds take each other's file without migration exactly
  when each adds one field and they are not the same (`Settings.TakenAsOwnExactly`); then a timeout is read as a flag
  (`SameLengthDifferentField`) and a flag with its fill bytes as a timeout (`FlagBecomesTimeout`).
- A port name of 16 characters is stored cut to 15 and never found again (`StandbyTable.ReadsBackExactly`). On a
  sleeping box an update that the full table refuses still enables its port, and a flag other than 0 and 1 is
  stored as on but disables it (`StandbyPorts.AgreesExactly`). An update that falls into a power change, after the pass
  over the ports, is judged by the old power state and can leave its port enabled in Off or against its setting:
  exactly when, say `StandbyPorts.PortsGuarded` and `PortsFollow`.
- Disabling 4K looks only at the persisted name (`Resolution.Disabled4KExactly`), so a choice can change when it is
  persisted itself (`Resolution.StableExactly`).
- The release of an RF key whose remote is lost is made up exactly when the repeat thread notices the press and the
  repeat interval is not 0 or the last repeat is just due (`KeyRepeat.ReleasedExactly`). A press is not noticed in a
  timed wait, after one that a signal has ended, and between two rounds of the thread without a lock when no repeat was
  posted in the round before: its signal is lost (`MissedPress`).
- A timed wait of the repeat thread that ends spuriously counts as a release, so the key is never given up
  (`KeyRepeat.WokenForNothing`).
- The hold of the power key is measured from the latest press of the power family, but an earlier short release or a
  session makes the press forgotten, and a release after more than ten seconds does not (`ResetPower.PowerExactly`).

## Model

| member | source | states |
|---|---|---|
| ResetRules.RuleShape | power/reset.c:183-203 | POWER stands first in every sequence, otherwise only last; the keys between ask for 2000 ms; nothing is the terminator before the end |
| ResetSpec.AdvanceUniform | power/reset.c:351-415 | a released key that completes nothing leaves all non-zero machine indices equal, however the machines restart |
| ResetSpec.SessionInv | power/reset.c:538-579 | a key in reset mode keeps the invariant, action or not: indices below the terminator, focus, clock and reset mode in step |
| ResetSpec.StepInv | power/reset.c:419-581 | every key event keeps the invariant of the recogniser |
| ResetRuns.Run | power/reset.c:419-581 | in every run with a positive, non-decreasing clock: reset mode, held focus and a non-zero current time coincide, non-zero indices are equal, no index reaches a terminator |
| ResetRuns.UniformEverywhere | power/reset.c:351-415 | at every step boundary of every run, inside and outside reset mode, all non-zero machine indices are equal; outside they are 0 or 1 |
| ResetRecogniser.Recogniser.constructor | power/reset.c:183-211 | the statics start as the empty run says |
| ResetRecogniser.Recogniser.ResetResetState | power/reset.c:246-275 | everything back to the start; focus released and -1 broadcast exactly if held and announced |
| ResetRecogniser.Recogniser.AcceptKey | power/reset.c:351-404 | a machine on its expected key: progress once for each level, advance, action and restart of all at the end, time limit |
| ResetRecogniser.Recogniser.CheckResetModeSequence | power/reset.c:323-417 | one machine on one key: progress, advance, action, time limit, or restart without looking at the key again |
| ResetRecogniser.Recogniser.CheckMachines | power/reset.c:544-563 | the five machines in order equal the closed form in which the first completed mode acts and later machines start afresh |
| ResetRecogniser.Recogniser.TranslateVariant | power/reset.c:427-436 | the two remote variants become POWER and OK, every other code stays |
| ResetRecogniser.Recogniser.OpenSession | power/reset.c:504-520 | entering reset mode: all machines at exactly 1, focus requested, 10 s limit |
| ResetRecogniser.Recogniser.ReleasePowerKey | power/reset.c:470-537 | what the length of the hold decides: reboot, session, or nothing |
| ResetRecogniser.Recogniser.CheckTimeOut | power/reset.c:438-449 | a late key ends the session before it is looked at |
| ResetRecogniser.Recogniser.CheckSessionKey | power/reset.c:538-579 | a key in reset mode, and the end of the session when no machine is under way |
| ResetRecogniser.Recogniser.DispatchKey | power/reset.c:451-580 | the cases on key type and reset mode |
| ResetRecogniser.Recogniser.CheckResetSequence | power/reset.c:419-581 | after every call the fields and all outputs are those of the reference run over the whole key history |
| ResetRecogniser.LoopStep | power/reset.c:351-415 | one more machine in the loop, also after an action earlier in it |
| ResetStreams.StepEffect | power/reset.c:419-581 | every key event has one of six effects, each with its exact outputs |
| ResetStreams.RunStreams | power/reset.c:246-275 | over every run the progress stream is groups of positive values each closed by one -1, an unfinished one only in reset mode; focus requests and releases strictly alternate |
| ResetStreams.OnePerEvent | power/reset.c:353-393 | one key event runs at most one action and broadcasts at most one positive progress value |
| ResetStreams.SessionStart | power/reset.c:500-520 | whatever was left over, a session starts with all five indices at 1 and only a focus request |
| ResetStreams.StaleAfterAction | power/reset.c:371-393 | an action leaves reset mode, and exactly the machines after it keep index 1 when the last key was POWER |
| ResetMeaning.KeyUpMeaning | power/reset.c:351-415 | index j keeps meaning: the last j released keys of the session are the first j of the sequence |
| ResetMeaning.StepOpens | power/reset.c:470-525 | reset mode is entered exactly by a power release 2000 to 10000 ms after the latest power-family press |
| ResetMeaning.RunHistory | power/reset.c:419-581 | in every run the state is what the history since the opening release says |
| ResetMeaning.InResetSince | power/reset.c:500-525 | reset mode has been on without a break since the release that opened the session |
| ResetMeaning.FiringSound | power/reset.c:323-581 | action m runs only when the last keys released in the session, the opening release first, spell the sequence of m, the first gap at most 10000 ms, later ones at most 2000 ms, after a hold of 2000 to 10000 ms |
| ResetMeaning.CustomerNeverFires | power/reset.c:198-199 | a key stream without undefined keys never runs the customer action |
| ResetExact.MatcherMeaning | power/reset.c:323-417 | a machine is at index j exactly when the last j keys are its first j and it was at its start before them |
| ResetExact.StartExactly | power/reset.c:412-416 | it is at its start exactly when the keys fall into failed attempts: some first keys, then another key than the next |
| ResetExact.SessionGoesOnExactly | power/reset.c:438-579 | a session goes on exactly while its keys are in time, no machine is through and some machine is under way |
| ResetExact.FiresExactly | power/reset.c:323-581 | for every event after every run: it runs action m if and only if reset mode is on, it is a released key within the limit of the last key that moved a machine, and the session's keys are failed attempts at the sequence of m and then the sequence |
| ResetExact.ProgressExactly | power/reset.c:353-366 | for every event after every run: it announces progress level if and only if a released key in time moves a machine on from that index, and that index was not announced last |
| ResetExact.EndExactly | power/reset.c:246-275 | for every event after every run: focus is given back exactly when the session ends, and its end is announced exactly when some progress was |
| ResetPower.StepPower | power/reset.c:470-537 | from every state: a release of POWER after more than 10 s reboots, after 2 to 10 s opens a session, and only these two report 1 |
| ResetPower.PowerExactly | power/reset.c:470-537 | for every event after every run the same if and only if, measured from the latest power-family press, unless reset mode or an earlier short release made it forgotten |
| ResetHandler.Handler.IrEvent | power/pwrMgr.c:789-944 | which events reach the recogniser: its history is always the passed part of the raw stream |
| ResetHandler.CustomerNeverActs | power/pwrMgr.c:857-858 | for every raw event stream the customer action never runs |
| ResetHandler.CustomerActsUnfiltered | power/reset.c:198-199 | without the filter it would run: a concrete stream |
| ResetHandler.StoppedExactly | power/pwrMgr.c:800-944 | which events do not reach the recogniser, key by key |
| ResetHandler.SequenceKeysPass | power/pwrMgr.c:789-944 | every key of every sequence but the customer's passes, unless it is the front-panel power key without connection |
| ResetHandler.BusEntryFires | power/pwrMgr.c:789-944 | a sequence entered in time on the bus, after any raw stream that left reset mode off, runs its action |
| ResetCompleteness.PathAdvance | power/reset.c:183-203 | along the sequence of m exactly the machines that agree with it so far move on, and only m completes at its end |
| ResetCompleteness.SequenceFires | power/reset.c:323-417 | from any point of the sequence the rest in time, with presses and repeats in between, runs only m, at the last key |
| ResetCompleteness.CleanEntryFires | power/reset.c:419-581 | from every state outside reset mode that keeps the invariant, a hold of 2 to 10 s and the rest of a sequence in time run exactly its action at the last key and none before |
| ResetCompleteness.FiresInRun | power/reset.c:419-581 | the same in terms of runs: after any run the last of such events runs the action |
| ThermalMonitor.Monitor.DeepSleepIfNeeded | power/therm_mgr.c:309-356 | the deep-sleep zone and its requests for one reading, with the interval as it is found at each of the two looks at it |
| ThermalMonitor.Monitor.RebootIfNeeded | power/therm_mgr.c:263-306 | the reboot zone and its requests for one reading, with the interval as it is found at each of the two looks at it |
| ThermalMonitor.Monitor.DeclockIfNeeded | power/therm_mgr.c:359-434 | speed, timer and clock command for one reading |
| ThermalMonitor.Monitor.PollThermalLevels | power/therm_mgr.c:453-501 | the statics are those of the whole input history, a change of the interval inside the poll included; the outputs come in the order deep sleep, reboot, clock |
| ThermalMonitor.Monitor.SetOvertempGraceInterval | power/therm_mgr.c:587-610 | between polls: both intervals change together, a negative one is refused |
| ThermalMonitor.Monitor.CallAt | power/therm_mgr.c:587-598 | the same call inside a poll, at one of three places |
| ThermalHistory.ActiveZone | power/therm_mgr.c:275-289 | an active zone was entered by a reading in [concern, critical) and every later one was at least safe |
| ThermalHistory.ZoneExact | power/therm_mgr.c:275-289 | active exactly when such a reading exists, for all histories, if and only if safe <= concern or critical <= concern |
| ThermalHistory.ZonesOfRun | power/therm_mgr.c:263-356 | in every run both zones are functions of the readings that found them enabled |
| ThermalHistory.RequestsOfPoll | power/therm_mgr.c:275-305 | forced and graced requests of a poll, for every change of the interval inside it: exactly when |
| ThermalHistory.IntervalInForce | power/therm_mgr.c:587-598 | after every run both intervals are those of the last accepted change, between polls or inside one |
| ThermalOrder.PollOrder | power/therm_mgr.c:486-490 | while deep sleep leads, a poll that asks for reboot asks for deep sleep, for all intervals that put deep sleep first and all safe changes inside the poll |
| ThermalOrder.Coverage | power/therm_mgr.c:263-356 | at every point of a run with safe changes inside polls deep sleep leads, or was asked for since the reboot zone was entered |
| ThermalOrder.DeepSleepFirst | power/therm_mgr.c:263-356 | every reboot request has a deep-sleep request in the same poll or since the reboot zone was entered, through all changes of the interval between polls and all safe ones inside them, for all initial intervals that put deep sleep first |
| ThermalOrder.UnequalIntervals | power/therm_mgr.c:263-356 | for all other intervals and ordered thresholds some run without any change asks for a reboot with deep sleep untried |
| ThermalOrder.SleepFirstExactly | power/therm_mgr.c:263-356 | deep sleep is tried before every reboot of every run, with changes between polls and safe ones inside them, if and only if there is no reboot check, or a deep-sleep check that is not slower or is forced by the reboot concern threshold |
| ThermalOrder.UnsafeChange | power/therm_mgr.c:587-598 | for every unsafe change inside a poll some run with this change alone inside a poll asks for a reboot with deep sleep untried |
| ThermalOrder.SafeChangesExactly | power/therm_mgr.c:486-490 | with changes inside polls limited to given ones, deep sleep is tried first in every run from intervals that put it first if and only if those of the given changes that find such intervals are safe |
| ThermalOrder.GracedMeaning | power/therm_mgr.c:291-305 | a request after grace: some entry at least the compared interval ago, all readings since at least safe, across changes of the interval |
| ThermalTiming.RequestExactly | power/therm_mgr.c:339-355 | in every run, for both zones: from the poll that enters the zone, while the readings stay hot and the interval is not changed, a poll makes the request exactly when the interval has passed |
| ThermalTiming.RequestByPoll | power/therm_mgr.c:339-355 | in every run, polls at least p apart: the request comes by the poll number ceil(grace / p) after the entry, and with every later one |
| ThermalTiming.RequestByTime | power/therm_mgr.c:339-355 | in every run, polls at most p apart: the first request comes less than grace + p seconds after the entry |
| ThermalTiming.FrequentPollsWait | power/therm_mgr.c:339-355 | polls at most p apart do not bound the number of polls: a concrete run, for both zones |
| ThermalClock.FasterOnlyAfterGrace | power/therm_mgr.c:382-430 | in every run a faster speed only when every reading at or above concern is at least the grace interval old |
| ThermalClock.NormalOnlyAfterSafe | power/therm_mgr.c:415-430 | from scaled to normal only when all readings since the last timer reset, a grace interval ago, were at most safe |
| ThermalClock.StaysSlow | power/therm_mgr.c:371-392 | within the grace interval of a critical reading the speed is minimal, of a concerning one not normal |
| ThermalClock.ClockOfRun | power/therm_mgr.c:359-434 | the clock of the monitor is this clock over all its readings |
| ThermalClock.RisesExactly | power/therm_mgr.c:393-430 | a reading makes the processor faster if and only if it is not hot, the grace interval has passed, and it is safe or the speed is minimal; and to which speed |
| ThermalClock.FallsExactly | power/therm_mgr.c:371-392 | a reading makes it slower if and only if it is critical above minimal speed or concerning at normal speed; and to which speed |
| ThermalClock.MinimalSince | power/therm_mgr.c:371-413 | at minimal speed the timer runs since the last hot reading |
| ThermalClock.ReturnsToNormal | power/therm_mgr.c:415-430 | whatever came before, after a grace interval of safe readings the speed is normal |
| ThermalClock.CommandExactly | power/therm_mgr.c:371-430 | every input commands a speed if and only if it changes the speed of the monitor, and then the new one |
| ThermalClock.CommandedSpeed | power/therm_mgr.c:359-434 | in every run the speed of the monitor is the last one commanded, or the initial one |
| ThermalClock.OutputsInOrder | power/therm_mgr.c:486-493 | the outputs of an input: deep sleep before reboot before the clock, forced before graced, each at most once |
| JsonSpec.ItemsInList | deviceUpdateMgr/jsonParser.h:81-102 | the events of the items of an array append exactly them to the innermost open list, at any depth |
| JsonSpec.MemberRoundTrip | deviceUpdateMgr/jsonParser.h:59-102 | the events of one member store its value under its key and leave no list open |
| JsonSpec.DocumentRoundTrip | deviceUpdateMgr/jsonParser.cpp:37-138 | the event stream of a flat document yields its dictionary, last duplicate first, with nothing open |
| JsonSpec.StoredExactly | deviceUpdateMgr/jsonParser.h:70 | the events of a member store what it reads as exactly when no null stands inside an array |
| JsonSpec.ScalarsReadAs | deviceUpdateMgr/jsonParser.cpp:37-88 | the exact value stored for every text, number, boolean and null |
| JsonSpec.OpenIsUnfinished | deviceUpdateMgr/jsonParser.h:81-92 | in every stream a member whose array is still open has no finished value |
| JsonParser.ConsistentRepresents | deviceUpdateMgr/jsonParser.h:49-53 | a finished heap tree reads as its value, all of it in the finished nodes |
| JsonParser.CoupledClose | deviceUpdateMgr/jsonParser.h:94-102 | closing the innermost list turns its owner into a finished value and keeps the tree coupled |
| JsonParser.Parser.NewString | deviceUpdateMgr/jsonParser.h:60-69 | a new node at the end of the current list or in the dictionary; finished values unchanged |
| JsonParser.Parser.NewBool | deviceUpdateMgr/jsonParser.h:71-79 | the same for a boolean |
| JsonParser.Parser.NewNull | deviceUpdateMgr/jsonParser.h:70 | a null goes to the dictionary whatever list is open |
| JsonParser.Parser.NewArray | deviceUpdateMgr/jsonParser.h:81-92 | a fresh list becomes the current one, its parent is remembered |
| JsonParser.Parser.EndArray | deviceUpdateMgr/jsonParser.h:94-102 | the parent becomes current again, or none |
| JsonParser.Parser.ParseNumber | deviceUpdateMgr/jsonParser.cpp:57-68 | a number is stored as its text |
| JsonParser.Parser.ParseString | deviceUpdateMgr/jsonParser.cpp:70-88 | the strings "true" and "false" become booleans |
| JsonParser.Parser.Callback | deviceUpdateMgr/jsonParser.cpp:37-138 | every callback follows the value-level step, and no finished value changes |
| JsonParser.Parser.Parse | deviceUpdateMgr/jsonParser.cpp:140-152 | a stream of events follows the value-level run |
| JsonParser.Parser.ParseDocument | deviceUpdateMgr/jsonParser.cpp:37-138 | after a flat document the heap under the dictionary reads as the document, the current list is null, the stack empty |
| AsyncPower.HandlerInv | power/pwrMgr.c:843-852 | every step of the key handler, the unlocked ones of a discrete power key included, keeps the invariant of runs with safe discrete changes |
| AsyncPower.WorkerInv | power/pwrMgr.c:2037-2056 | every step of the thread keeps it, the unlocked write of transitionState and spurious wake-ups included |
| AsyncPower.NoLostWakeUp | power/pwrMgr.c:2037-2097 | in every interleaving with safe discrete changes the thread is parked without a signal or a discrete change on the way only when power and target agree; at rest all three states agree |
| AsyncPower.CrossedRun | power/pwrMgr.c:1138-1149 | for every phase of the thread except absent and parked, a run with one discrete change begun in it that ends at rest in disagreement |
| AsyncPower.AgreeExactly | power/pwrMgr.c:843-852 | discrete changes begun only in given phases of the thread leave the three states in agreement at rest in every run, if and only if the phases are at most the one before the thread exists |
| AsyncPower.AgreeExactlyUnwoken | power/pwrMgr.c:2051-2051 | the same for runs without spurious wake-ups: if and only if the thread does not exist or is parked |
| AsyncPower.Converges | power/pwrMgr.c:1138-1149 | from every state reachable with safe discrete changes, with the handler idle, the thread alone reaches the last target, in at most twelve steps |
| AsyncPower.ConvergesDespiteSkips | power/pwrMgr.c:2037-2056 | with changes skipped during a deep sleep and spurious wake-ups: at most twelve steps, four more for each skip and five for each wake-up, and parked only at the last target |
| AsyncPower.SkippedOnlyAsleep | power/pwrMgr.c:1095-1106 | in every run a change the thread has taken up is left undone only in deep sleep or when there is nothing to do |
| AsyncPower.ThreadEnds | power/pwrMgr.c:1138-1149 | a change the thread carries out undisturbed leaves all three states at its goal |
| AsyncPower.DiscreteKeyEnds | power/pwrMgr.c:825-852 | a discrete key handled undisturbed leaves all three states at Standby if the box was On and at On otherwise, or nothing changed in deep sleep |
| AsyncPower.HandlerEnds | power/pwrMgr.c:2058-2097 | every key is handled in at most six steps of the handler |
| AsyncPower.HandlerGoesOn | power/pwrMgr.c:2058-2097 | the handler can always go on, but for the lock |
| BootloaderPattern.RevokedMeaning | power/productTraits.cpp:120-126 | the retry thread lacks permission exactly when a synchronous set withdrew it after it was last granted |
| BootloaderPattern.MainInv | power/productTraits.cpp:174-190 | every step of the fault-tolerant call keeps the invariant |
| BootloaderPattern.RetryInv | power/productTraits.cpp:148-172 | every step of the retry thread keeps it |
| BootloaderPattern.CallerInv | power/productTraits.cpp:120-126 | every step of any number of synchronous sets keeps it |
| BootloaderPattern.NoStaleRetry | power/productTraits.cpp:148-172 | in every interleaving no retry follows a withdrawal unless the fault-tolerant call granted permission in between |
| BootloaderPattern.LastSyncStays | power/productTraits.cpp:120-126 | when no synchronous set began before the fault-tolerant call held the lock for its grant, the stored pattern is the last successful synchronous one |
| BootloaderPattern.OwnWrites | power/productTraits.cpp:174-190 | in every run the fault-tolerant call and its retry thread write only the pattern of the call, and a retry thread exists only after a failed first attempt |
| BootloaderPattern.RequestedIsStored | power/productTraits.cpp:148-190 | when no synchronous set has written, the stored pattern is the requested one from the first successful attempt on, and so once the call is through; before that it is the initial one |
| BootloaderPattern.SyncWrites | power/productTraits.cpp:120-126 | in every run a synchronous set writes only the pattern it began with |
| BootloaderPattern.AttemptsBounded | power/productTraits.cpp:152-169 | at most twelve attempts, none after a success; the thread ends by success, withdrawal, or using them up |
| BootloaderPattern.RetryEnds | power/productTraits.cpp:153-169 | the retry thread takes at most sixty steps in any interleaving |
| BootloaderPattern.NoSupportNoWrites | power/productTraits.cpp:132-133 | without silent reboot support nothing is ever written and no thread is started |
| BootloaderPattern.OverlapLosesPattern | power/productTraits.cpp:178-186 | a set begun during the first attempt can be overwritten: a run |
| BootloaderPattern.FailureGapLosesPattern | power/productTraits.cpp:179-184 | one begun between the failure and the lock can be, too: a run |
| BootloaderPattern.SafePhasesExactly | power/productTraits.cpp:174-190 | sets begun only in given phases of the fault-tolerant call never lose their pattern, in any run, if and only if none of the phases is one of these two |
| Settings.Store.Sync | power/pwrMgr.c:1757-1781 | up to ten attempts; the power state becomes the wanted one if the platform reaches it, else the platform's |
| Settings.Store.LoadOld | power/pwrMgr.c:1544-1575 | a version 0 file: converted, or refused when too short |
| Settings.Store.LoadEqual | power/pwrMgr.c:1579-1610 | a file of the current length: taken, nothing written; the last known power state is its power word |
| Settings.Store.LoadShorter | power/pwrMgr.c:1610-1649 | a shorter file: completed from the globals and written |
| Settings.Store.LoadLonger | power/pwrMgr.c:1650-1690 | a longer file: cut to the current length |
| Settings.Store.Create | power/pwrMgr.c:1713-1737 | new settings over an unusable file |
| Settings.Store.Load | power/pwrMgr.c:1536-1737 | memory, file and globals as functions of the file; the last known power state on its words: the power word of a version 1 file, off or on for version 0, unchanged for an unusable file |
| Settings.Store.InitSettings | power/pwrMgr.c:1523-1828 | the whole initialisation, with the platform's say and the last known power state on the words of the file |
| Settings.Store.WriteSettings | power/pwrMgr.c:1831-1856 | the settings over the front of the file |
| SettingsImage.GetPut | power/pwrMgr.c:117-129 | a stored field reads back and no other field or byte changes |
| Settings.MemoryIsCurrent | power/pwrMgr.c:1523-1828 | for every file, memory holds version 1 and the current length afterwards, even if nothing can be written |
| Settings.SavedExactly | power/pwrMgr.c:1579-1610 | for every file the saved settings equal those in memory, exactly unless a current file meets boot to standby and a platform that does not tell its state |
| Settings.OneBootSettles | power/pwrMgr.c:1523-1828 | for every file one initialisation leaves a version 1 file of the current length, taken by the equal-length path |
| Settings.SecondBootQuiet | power/pwrMgr.c:1523-1828 | the next boot on an agreeing platform changes neither file nor settings, from any memory |
| Settings.WriteThenInit | power/pwrMgr.c:1831-1856 | saved settings come back byte for byte, over any file and into any memory |
| Settings.CrossBuild | power/pwrMgr.c:1577-1690 | the file of one build is taken by every other one with power state and LED settings kept |
| Settings.OtherFiles | power/pwrMgr.c:1895-1908 | what version 0 and unusable files turn into |
| Settings.FoundPowerIs | power/pwrMgr.c:1544-1690 | the power state found in a file, byte by byte, for every usable file |
| SettingsBytes.LoadedHeader | power/pwrMgr.c:1579-1690 | the header words after loading a usable version 1 file |
| SettingsBytes.LoadedGlobals | power/pwrMgr.c:1625-1640 | the fields that a shorter file lacks hold the globals |
| SettingsBytes.LoadedBytes | power/pwrMgr.c:1579-1690 | every other byte of the settings is the file's where it was read, and memory's elsewhere |
| SettingsBytes.CreatedBytes | power/pwrMgr.c:1713-1737 | every byte of new settings |
| SettingsBytes.UnwritableBytes | power/pwrMgr.c:1610-1737 | every byte after a migration that cannot be written |
| SettingsBytes.GlobalsFromFile | power/pwrMgr.c:1590-1598 | what the globals become from the bytes of a file of the current length |
| SettingsBytes.FileBytes | power/pwrMgr.c:1523-1828 | the file's length afterwards and every byte behind the settings |
| SettingsBytes.SyncedExactly | power/pwrMgr.c:1757-1781 | the settings follow the platform's state after the first attempt that succeeds, or the tenth |
| Settings.TakenAsOwnExactly | power/pwrMgr.c:1579-1600 | a build takes another's file by the equal-length path exactly when both add one field |
| Settings.SameLengthDifferentField | power/pwrMgr.c:1590-1598 | the build with the flag reads the other's timeout as its flag |
| Settings.FlagBecomesTimeout | power/pwrMgr.c:1590-1598 | the build with the timeout reads the other's flag and fill bytes as its timeout |
| StandbyTable.MatchMeaning | power/pwrMgr.c:341-341 | which names the comparison finds: those shorter than the slot with the same letters in any case |
| StandbyTable.Table.Lookup | power/pwrMgr.c:332-347 | the value of the map, for every name |
| StandbyTable.Table.Update | power/pwrMgr.c:1445-1471 | the map after an update, for every name: changed, added, cut, or refused |
| StandbyTable.TableHistory | power/pwrMgr.c:1445-1471 | after any updates with fitting names entries are without duplicates, hold the last value given, and are complete up to five names |
| StandbyTable.KeptExactly | power/pwrMgr.c:1459-1471 | a name has an entry exactly when it was given while fewer than five were known |
| StandbyTable.LookupAfter | power/pwrMgr.c:332-347 | lookup after any updates: the last value, unless the table was full when the name came |
| StandbyTable.ReadsBackExactly | power/pwrMgr.c:1462-1463 | a setting reads back exactly when its name is shorter than the slot |
| StandbyTable.LongNames | power/pwrMgr.c:1459-1467 | a name too long for the slot: every setting afterwards, and the slot it takes |
| StandbyTable.EmptyName | power/pwrMgr.c:1445-1471 | what the empty name reads and writes |
| StandbyPorts.Ports.SetAVPortsPowerState | power/pwrMgr.c:1910-1951 | the enabled ports for a power state |
| StandbyPorts.Ports.SetPowerState | power/pwrMgr.c:1067-1139 | a power change, with an update between the pass over the ports and the write of the state |
| StandbyPorts.Ports.SetStandbyVideoState | power/pwrMgr.c:1433-1496 | table, port and result of an update |
| StandbyPorts.Ports.GetStandbyVideoState | power/pwrMgr.c:1498-1521 | the setting of a known port, -1 for others |
| StandbyPorts.PortsGuarded | power/pwrMgr.c:1910-1935 | in every orderly run: no port is ever enabled in Off, and none asleep whose setting is off, if and only if no update inside a power change enables its port on the way from sleep to Off or turns off an enabled one on the way from On to sleep |
| StandbyPorts.PortsFollow | power/pwrMgr.c:1433-1496 | in every orderly run with flags 0 and 1, as long as no Off came since the last On: ports always follow their settings asleep and are enabled in On, if and only if no update inside a power change disables its port on the way to On or changes its setting on the way from On to sleep |
| StandbyPorts.AgreesExactly | power/pwrMgr.c:1473-1489 | when one update on a sleeping box leaves port and setting in agreement: exactly |
| StandbyPorts.OnlyOnEnables | power/pwrMgr.c:1910-1951 | a power change enables ports only on the way to On, and then all; on the way to sleep exactly those with setting on stay |
| StandbyPorts.PowerOfRun | power/pwrMgr.c:1138-1138 | in every run the power state is that of the last change |
| Resolution.HdmiSearch | dsmgr/dsMgr.c:608-699 | the five passes equal a four-case rule; neither the third nor the fifth ever decides |
| Resolution.SetResolution | dsmgr/dsMgr.c:563-750 | the whole choice equals the rule, for all lists and a valid default index |
| Resolution.RedundantPasses | dsmgr/dsMgr.c:648-698 | the third pass succeeds only where the second does, the fifth exactly where the second does |
| Resolution.ChosenIsListed | dsmgr/dsMgr.c:705-734 | on HDMI the choice is one the display lists, exactly unless nothing there is usable or 4K is overridden |
| Resolution.StableExactly | dsmgr/dsMgr.c:608-734 | persisting the choice and choosing again gives the same name, exactly unless 4K is disabled, the choice was 4K and the default is not it |
| Resolution.Disabled4KExactly | dsmgr/dsMgr.c:724-734 | when a 4K resolution is chosen although 4K is disabled: exactly |
| Resolution.SetExactly | dsmgr/dsMgr.c:563-632 | nothing is set exactly for a DVI device or an empty list on HDMI; compatibility is forced exactly when the display lists the persisted name |
| Resolution.HdmiChoice | dsmgr/dsMgr.c:608-710 | on HDMI the persisted name, else the common one listed last, else 480p, else the default |
| Resolution.PlatformChoice | dsmgr/dsMgr.c:700-726 | on analogue ports the persisted name if the platform has it, else the default; on all others the default |
| Resolution.Disabling4K | dsmgr/dsMgr.c:729-740 | disabling 4K changes the choice exactly for persisted names that begin with 2160, to the default |
| KeyRepeat.KeyHandler.InputKey | ir/irMgr.c:869-960 | the ordinary way out: a different key going down is preceded by the release of the one held |
| KeyRepeat.KeyHandler.KeyCallback | ir/irMgr.c:450-479 | presses and releases set the held key, repeats from the remote are ignored |
| KeyRepeat.KeyHandler.RfMark | ir/irMgr.c:1629-1636 | the counters that an RF event sets |
| KeyRepeat.KeyHandler.Signal | ir/irMgr.c:461-461 | a signal ends the thread's wait, and is lost when it does not wait |
| KeyRepeat.KeyHandler.SetRepeatInterval | ir/irMgr.c:279-285 | the repeat interval as it is set, at any time |
| KeyRepeat.KeyHandler.EndWait | ir/irMgr.c:1244-1250 | a wait ends by a signal, spuriously, or because its time is up |
| KeyRepeat.KeyHandler.BeginRound | ir/irMgr.c:1237-1278 | what the thread waits for once it has the lock |
| KeyRepeat.KeyHandler.AfterWait | ir/irMgr.c:1250-1340 | what the thread posts and where it goes after a wait |
| KeyRepeat.KeyHandler.CountRepeat | ir/irMgr.c:1292-1322 | the counting and judging of an RF repeat step by step, the RF handler's unlocked counters beside it |
| KeyRepeat.PostsWellFormed | ir/irMgr.c:869-960 | in every run a posted repeat follows a press or repeat of the same key, a press comes only when no other key is held, and the repeat counter stays at most six, seven while it is judged |
| KeyRepeat.KeyPosts | ir/irMgr.c:869-960 | after every run a press posts exactly the release of another key posted last and still down, with its own code and source, and then itself; a release posts itself; repeats from the remote and keys set apart post nothing |
| KeyRepeat.ThreadPosts | ir/irMgr.c:1261-1334 | after every run a step of the thread posts at most one repeat of the held key, or its release when it is lost |
| KeyRepeat.AwaitedExactly | ir/irMgr.c:1629-1636 | in every run an RF release is awaited exactly since an RF key was marked down or repeating, with no release marked or made up since |
| KeyRepeat.IntervalSet | ir/irMgr.c:279-285 | in every run the interval is the one set last |
| KeyRepeat.HeldKey | ir/irMgr.c:450-479 | in every run the key held is the one pressed last and not released or given up since |
| KeyRepeat.RfRepeatsBounded | ir/irMgr.c:1292-1322 | without a word from the RF remote at most six RF repeats are posted, whatever else happens; seven if its last word fell between the counting and the judgement of a repeat |
| KeyRepeat.LostRemote | ir/irMgr.c:1230-1346 | an RF press with its mark that finds the thread parked, and then silence: one IR repeat, six RF repeats, one release, and the thread parked with no key held |
| KeyRepeat.OneRepeat | ir/irMgr.c:1261-1278 | the same with interval 0: one repeat, and the thread parked with the key held |
| KeyRepeat.MissedPress | ir/irMgr.c:1256-1257 | a press that the thread does not notice, in a timed wait or without the lock after a round without a repeat, gets nothing more posted, and the thread parks with the key held |
| KeyRepeat.ReleasedExactly | ir/irMgr.c:1230-1346 | for every state in which the callback can begin: after an RF press and silence the release is made up if and only if an RF key asks for it, the thread notices the press, and the interval is not 0 or the last repeat is just due |
| KeyRepeat.RfReleasedExactly | ir/irMgr.c:1230-1346 | with the mark of the RF handler before it: if and only if the thread notices the press and the interval is not 0 |
| KeyRepeat.WokenForNothing | ir/irMgr.c:1250-1284 | a timed wait that ends spuriously counts as a release: the key is never given up |
| KeyRepeat.HeldIrKey | ir/irMgr.c:1324-1333 | a held IR key repeats without bound |
| KeyRepeat.GivenUpExactly | ir/irMgr.c:1292-1311 | a repeating key is given up exactly when an RF key is waiting for its release |

## Left out

- The key handler beyond the choice of the keys for the recogniser, and the builds that filter other keys.
- Bus calls, event marshalling, scripts, logging, LEDs and front-panel text; their effects are outputs or results chosen by the environment.
- The results of the reset functions, which the source ignores, and the builds without the warehouse sequence or with a long-press factory reset.
- The wait state, the timer variable and the blinking LEDs of the reset code, which nothing sets in the default build.
- Clocks are one sample per key event or poll, positive and non-decreasing; wall-clock jumps are not modelled.
- The five consecutive calls of the reset matcher appear as one loop in the same order, and the test for an all-zero session stands beside it.
- The comment in the thermal code about a later start of one timer: the defaults of both intervals are equal in the code, which is what is modelled; the intervals are parameters.
- Thermal logging, the broadcast of level changes and the reading of configuration values.
- The JSON tokenizer and objects nested in objects, whose keys the callbacks flatten; a null in an array is modelled.
- The memory that the JSON parser never frees.
- Calls of the power-state service other than those of the key handler and the transition thread: bus calls, the handlers of radio remotes and the deep-sleep timers, which bypass the mutex too. Also a failing thread creation and the write of the power state just before a reboot on loss of the cable connection; the build is the one with power-key sensitivity improvement.
- AsyncPower.Converges: follows the thread without skipped changes and spurious wake-ups, which AsyncPower.ConvergesDespiteSkips counts.
- ThermalMonitor.Monitor.PollThermalLevels: the two writes of the grace-interval call count as one step, and at most one call falls between the first and the last look of a poll at the intervals.
- BootloaderPattern.LastSyncStays: a call to the manufacturer library that reports failure is taken to have stored nothing.
- The choice of the bootloader pattern by power state in the product traits, and the display synchronisation by reboot reason, which releases its lock before acting.
- Settings.Store.InitSettings: a file that cannot be opened, a failing truncation after a successful write, and writes that fail for some calls only are not modelled; the ports, lights and timers set beside it are not part of it.
- StandbyPorts.Ports.SetAVPortsPowerState: audio ports and exceptions of the device library are not modelled; a ux controller, which would set the ports itself, is absent.
- Wake-up from deep sleep and its status query in the power change.
- StandbyPorts.Ports.SetPowerState: at most one update falls into a power change, and it comes after the pass over the ports; during the pass it has the effect of one before or after it on its own port.
- Resolution.SetResolution: a missing port handle, on which the source returns at once, and the separate call for the very first resolution are not modelled.
- KeyRepeat.KeyHandler.InputKey: the LAST key with its timer, the variants of XR15 and XR16 remotes and control events, which take other ways out; codes set apart post nothing here.
- The reset and thermal copies under pwrmgr2, the port trait handler of dsmgr and the parser copy under vrexmgr, which repeat the modelled code.
- Deep-sleep entry and wake-up, the mfr, sysmgr, disk and receiver managers, and uinput: mostly calls into platform code.
