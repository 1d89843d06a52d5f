# Verified model of SOC-IQ's core

A Dafny model of the parts of SOC-IQ whose correctness is not visible from reading one function:
protocols that several processes or threads run at once, state machines around a child process,
fixed-width arithmetic, and analysis code that has to be deterministic. Every property is proved for
all inputs, all runs or all reachable states of the model. `dafny verify dfyconfig.toml` checks the
whole project.

## What is modelled

- **Schema migrations** (`MigrationRunner`, `MigrationDiscovery`, `MigrationInterleaving`). Any number of
  processes, of builds that know different prefixes of one catalogue, migrate one database. The runner is
  a method with its loop, other processes committing at every point where it holds no lock; the whole
  system is a step machine over committed state, a lock holder and one program counter for each runner.
- **Duplicate reports** (`InvestigationRepository`, `ReportRace`). The check, insert, resolve, reload
  protocol around a table with a UNIQUE name, with deletes in between.
- **Event broker** (`EventBroker`, `BrokerRuns`, `BrokerWakeups`). The bounded drop-oldest queue as a class with ghost
  histories, all concurrent runs of publish, subscribe, unsubscribe, close and shutdown, and the wake-ups of
  blocked consumers.
- **Sidecar supervision** (`Lifecycle`, `Sidecar`, `LifecycleEvents`, `RestartPolicy`, `TimerTokens`,
  `Handshake`, `CivilCalendar`, `Rfc3339`). The lifecycle and the owner of the child process under
  arbitrary process behaviour, the numbering of events, backoff and attempt accounting, single-use timer
  tokens, the handshake line, and the hand-written calendar conversion of timestamps.
- **Deterministic analysis** (`Correlation`, `CorrelationLaws`, `CorrelationReport`, `CorrelationOrder`,
  `CorrelationEvidence`, `Enrichment`, `Scoring`, `RiskExplanation`).
- **Storage** (`IsoTimestamp`, `Timeline`, `AtomicWrite`, `Settings`). Timeline rows ordered by text, and
  files that are replaced atomically.

`Basics`, `Ordering`, `Sequences` and `Decimal` hold what these share: options, text order, the stable sort,
sums, decimal fields.

What comes from outside is a parameter and may be anything: which database accesses succeed, what other
processes do meanwhile, how a child process behaves and what the clock says, how a provider answers, which
file operations fail, what the text normalisers return. Where a fixed width matters (64-bit seconds,
128-bit products, 32-bit counters, 64-bit tokens) it is written out.

## Results that are not what the code or its comments suggest

- The coverage figures do not add up when a rate limit strikes among the domains: the URLs still waiting
  are left out (app/threat_intel/service.py:462, unlike line 470). `Enrichment.CoverageLaw` gives the exact
  condition and shortfall.
- The backoff is not the doubling it is documented to be for a base of one millisecond under a cap beyond
  2^63 ms; `RestartPolicy.BackoffIsDoubling` and `RestartPolicy.OutOfReach` say exactly when.
- A timeline of timestamps with different UTC offsets is not listed in time order, and the domain class
  accepts any aware datetime although its message says UTC (app/timeline/domain.py:369).
  `IsoTimestamp.TextOrderNeedsOneOffset` is the exact condition.
- Text order of the event timestamps ends with the year 9999 (`Rfc3339.TextOrderRange`).
- `shutdown` of the broker may return while a concurrent unsubscribe has removed but not yet closed its
  subscription (`BrokerRuns.ShutdownCanReturnFirst`); all are closed exactly when no such call is left
  (`BrokerRuns.AllClosedAfterShutdown`).
- A delete at the wrong moment makes `analyze_report` raise any of its three RuntimeErrors
  (`ReportRace.DeleteCanRaise`, `ReportRace.DeleteCanRaiseConflict`, `ReportRace.DeleteCanRaiseSaved`); without
  deletes none of them is possible (`ReportRace.WithoutDeletesAllAgree`).
- A legacy key in a settings file is lost by a returning `load` exactly when the file has an unknown field
  or cannot be read at that moment, for then it is reset to the defaults (`Settings.SettingsRepository.Load`,
  with the runs `Settings.UnknownFieldLosesKey` and `Settings.ReadErrorLosesKey`). A file whose JSON is
  neither an object nor an array makes `load` raise an exception it does not catch
  (app/settings/repository.py:107, `Settings.NoObjectRaises`).
- A notification that goes to a consumer whose timeout has just run out can leave another one blocked beside
  a queued event (`BrokerWakeups.WakeupCanBeLost`). This cannot happen if and only if a subscription has at
  most one consumer or none of its consumers gives `get` a timeout (`BrokerWakeups.ServedForAllRuns`);
  `BrokerWakeups.StepServed` says which single moves do it.
- The right side of a threat-intelligence link is not meant to count as extracted evidence, but it does for a value
  that is also listed under a category of the name it carries (`CorrelationEvidence.CorrelatedExactly`).

## Model

| member | source | states |
|---|---|---|
| MigrationInterleaving.MigrationsCommittedOnceInOrder | app/database/migration_runner.py:262-395 | in every state of every interleaving of any number of runners, each knowing a prefix of one catalogue, the committed migrations are exactly the catalogue's from the starting version to the recorded one, each once, strictly increasing; their statements are the only change; an existing version table has one row |
| MigrationInterleaving.EveryRunnerTerminates | app/database/migration_runner.py:302-388 | whatever the schedule, a runner makes at most as many moves as its own remaining migrations cost |
| MigrationInterleaving.OutcomeOfRunner | app/database/migration_runner.py:286-395 | success is exactly the runner's latest known version and the database is at least there; a refusal means the database is newer; the missing-row error never occurs |
| MigrationInterleaving.FailuresAreReal | app/database/migration_runner.py:315-388 | in every interleaving a runner ends busy if and only if one of its steps failed while it was waiting for the lock, and ends with a failed migration if and only if one of its steps failed while it was executing or committing |
| MigrationInterleaving.UnhinderedOutcome | app/database/migration_runner.py:286-395 | in every interleaving a finished runner whose own accesses all succeeded returned its latest version, or refuses a database that others have made newer |
| MigrationInterleaving.LoneRunnerMigrates | app/database/migration_runner.py:286-395 | from the start, a runner left alone finishes within the steps its pending migrations cost: it refuses a newer database and leaves it as it is, and otherwise returns its latest version with exactly the migrations in between committed |
| MigrationInterleaving.UpToDateNeverWaits | app/database/migration_runner.py:300-311 | a build that knows no migration above the database it finds never takes or waits for the lock, in any interleaving: its first step refuses a newer database, or returns |
| MigrationInterleaving.SomeoneCanMove | app/database/migration_runner.py:313-388 | no deadlock: as long as a runner is unfinished, some runner can move |
| MigrationInterleaving.OnlyCommitChanges | app/database/migration_runner.py:310-388 | a step changes what is committed only if it is a successful COMMIT, and then it commits the next migration that is still pending; failed and refused runs change nothing |
| MigrationInterleaving.StepInv | app/database/migration_runner.py:273-284 | the invariant: work done under the lock always builds on what is committed, and the lock has one holder |
| MigrationInterleaving.RankDecreases | app/database/migration_runner.py:302-388 | every step uses up the mover's own bound and raises nobody else's |
| MigrationRunner.ApplyMigrations | app/database/migration_runner.py:262-395 | the loop as written, other processes committing whenever it has no lock: it ends, returns its latest version or names a failure that really occurred, and the strictly ordered log grows by migrations that were pending, those marked as its own being of its own list |
| MigrationRunner.ApplyNext | app/database/migration_runner.py:302-388 | one turn of the loop: a busy lock, and only that, stops it as busy; only a committing turn adds an own entry to the log, as the last one; it was still pending under the lock, and the pending part of the list shrinks |
| MigrationInterleaving.TurnAlone | app/database/migration_runner.py:302-388 | in the step machine, a runner that finds the lock free and takes its steps commits exactly the migrated database, as the method does |
| MigrationRunner.ExecuteMigration | app/database/migration_runner.py:360-388 | the transaction yields the migrated database if all statements, the version update and the COMMIT succeed, and nothing otherwise |
| MigrationRunner.CommitKeepsConsistent | app/database/migration_runner.py:206-244 | committing the next pending migration of a shorter list extends the committed range of the whole catalogue by exactly that migration |
| MigrationRunner.BetweenNext | app/database/migration_runner.py:333-341 | the first migration above the current version in a build's own list is the next one of the common catalogue |
| MigrationRunner.NothingPending | app/database/migration_runner.py:343-353 | nothing pending and not newer means exactly at the latest version |
| MigrationDiscovery.DiscoverMigrations | app/database/migration_runner.py:79-137 | migrations are found exactly if every SQL file name is well formed and no two versions clash, and are then all of the files, strictly ordered; otherwise the error is that of the first offending file in name order, with its name or the version claimed twice |
| MigrationDiscovery.WellFormedMatches | app/database/migration_runner.py:51 | a name is accepted exactly if it is four digits, an underscore, a word and the suffix |
| MigrationDiscovery.VersionReadsBack | app/database/migration_runner.py:108-127 | a file named after a version in four digits is a migration of that version |
| MigrationDiscovery.ListingInNameOrder | app/database/migration_runner.py:99 | the directory is gone through in the text order of the names |
| MigrationDiscovery.FailureIsFinal | app/database/migration_runner.py:112-126 | an error at one file means that the whole directory is not fine |
| MigrationDiscovery.SortedVersionsAreOrdered | app/database/migration_runner.py:119-137 | distinct versions make the sorted list strictly increasing |
| ReportRace.OneRowOneCreator | app/database/repository.py:165-315 | in every interleaving of calls and deletes there is at most one row per name, a row is reported as new only by the call that inserted it, and that call gets its own content |
| ReportRace.WithoutDeletesAllAgree | app/analyzer.py:168-197 | without deletes no RuntimeError fires and all finished calls for a name hold the same row; a name stored before is always reported as existing |
| ReportRace.WithoutDeletesOneCreates | app/analyzer.py:401-435 | without deletes exactly one of the finished calls for a new name reports it as new |
| ReportRace.StoredNameNeverInserts | app/analyzer.py:168-197 | without deletes a call for a name stored before never tries an insert: it checks, searches and reports the row as existing |
| ReportRace.DeleteCanRaise | app/analyzer.py:168-197 | among any other calls, a call for a stored name raises when that row is deleted between its check and its search: one delete is enough |
| ReportRace.DeleteCanRaiseConflict | app/database/repository.py:250-280 | among any other calls, a call that lost the insert of a new name to another one raises when that row is deleted before the search |
| ReportRace.DeleteCanRaiseSaved | app/analyzer.py:401-435 | among any other calls, a call for a new name raises when its row is deleted between insert and load |
| ReportRace.RunInv | app/database/repository.py:165-315 | what every call knows about the table stays true under all steps of all others |
| InvestigationRepository.Repository.SaveResolvingConflict | app/database/repository.py:165-315 | the record is reported as created exactly if the insert was accepted, and is then the row just inserted; a resolved conflict gives the id of a row of that name; failing needs a delete between the two accesses |
| InvestigationRepository.Repository.AnalyzeReport | app/analyzer.py:168-435 | the call is its accesses one after the other with the actions of others in between, and its result and table are exactly theirs; a result is a stored row of that name, a new one carries the caller's content, and without deletes it never fails |
| ReportRace.CallIsDriven | app/analyzer.py:168-435 | a call among all the others of the step machine is that same sequence of accesses |
| ReportRace.OthersAreActions | app/database/repository.py:165-315 | what all other calls and deletes do between two accesses is a list of inserts and deletes on the table |
| InvestigationRepository.Repository.Insert | app/database/repository.py:201-250 | the UNIQUE constraint: refused with nothing changed exactly if the name exists |
| InvestigationRepository.Repository.Delete | app/database/repository.py:662-709 | removes the one row with the id, if any, and nothing else |
| InvestigationRepository.RowIsFound | app/database/repository.py:317-368 | a stored row is what the searches by name and by id return |
| BrokerRuns.DeliveredExactlyOnce | app/application/broker.py:189-253 | in every concurrent run a publication was offered exactly once to the subscriptions whose registration came before its snapshot and whose removal did not, and to no others; it was accepted unless the subscription was closed |
| BrokerRuns.PublisherOrderKept | app/application/broker.py:222-253 | publications of one thread reach each subscriber in order, and what it accepted is what it was offered while open; after the first ignored offer all are ignored |
| BrokerRuns.RegisteredInWindow | app/application/broker.py:189-273 | in every run a subscription is registered exactly between a step that registers it and the next that removes it |
| BrokerRuns.TargetsOfSnapshot | app/application/broker.py:240-253 | the targets of a publication are what was registered at its snapshot, and stay so |
| BrokerRuns.SnapshotOf | app/application/broker.py:222-253 | every publication has a step at which its snapshot was taken |
| BrokerRuns.ShutdownClosesAll | app/application/broker.py:255-273 | after shutdown nobody is registered, and every subscription ever handed out is closed or about to be closed by a call still running |
| BrokerRuns.AllClosedAfterShutdown | app/application/broker.py:255-273 | after shutdown every subscription is closed if and only if no running call still has an open one to close |
| BrokerRuns.CallAdvances | app/application/broker.py:210-273 | a thread in the middle of a publish, unsubscribe or shutdown can always make a step that brings it nearer to the end, and that step changes nothing for the other threads |
| BrokerRuns.AllCallsCanFinish | app/application/broker.py:210-273 | every run can be continued, without new calls, until no call is under way; then every publication has been offered to all its targets, and after a shutdown every subscription is closed |
| BrokerRuns.QueueIsSequential | app/application/broker.py:86-166 | however the threads interleave, the queue of each subscription is that of a new subscription, open or closed from the start, after one operation at a time |
| BrokerRuns.ShutdownCanReturnFirst | app/application/broker.py:210-220 | a run in which shutdown returns before a concurrent unsubscribe has closed its subscription |
| BrokerRuns.SecondShutdownReturnsFirst | app/application/broker.py:262-273 | a run in which a second shutdown returns while the first is still closing |
| BrokerWakeups.BlockedAreServed | app/application/broker.py:105-133 | in every state of a run the events queued while a consumer is blocked are no more than the consumers already woken, if and only if no move of it loses a wake-up |
| BrokerWakeups.StepServed | app/application/broker.py:105-133 | a single move leaves an event unserved exactly if it notifies a waiter whose timeout has run out, while another is blocked, there is room in the queue and every queued event already has its consumer |
| BrokerWakeups.ServedForAllRuns | app/application/broker.py:112-133 | every run of a new subscription is served if and only if it has at most one consumer or none of its consumers gives get a timeout |
| BrokerWakeups.NobodyBlockedAfterClose | app/application/broker.py:127-166 | in no state of any run is a consumer blocked on a closed subscription |
| BrokerWakeups.LeavesAfterClose | app/application/broker.py:127-166 | whoever still waits on a closed subscription leaves with its next turn, with an event only if there is one and it has not timed out |
| BrokerWakeups.LeavesForAReason | app/application/broker.py:127-133 | a consumer stops waiting only with an event, or because the queue is closed and empty, or because it gave a timeout that has run out |
| BrokerWakeups.RunIsOps | app/application/broker.py:105-166 | the queue behind any run is that of the subscription after the puts, takes, drains and closes of the run |
| BrokerWakeups.WakeupCanBeLost | app/application/broker.py:127-129 | for any two consumers of any number, the first of which gives a timeout, a run that leaves the second blocked beside a queued event with nobody woken |
| BrokerRuns.StepInv | app/application/broker.py:189-273 | every step of every thread keeps the invariant over queues, offers, threads and reachability |
| EventBroker.HistoryFaithful | app/application/broker.py:105-166 | over any operations of any threads the queue is the newest accepted events within capacity, delivered positions increase, and accepted = delivered + queued + dropped |
| EventBroker.PerformFaithful | app/application/broker.py:105-166 | each operation keeps that law |
| EventBroker.PutEffect | app/application/broker.py:105-115 | after any operations, a put on an open queue adds one event as long as there is room; on a full queue it keeps the size and exactly one event is dropped; on a closed one it does nothing |
| EventBroker.OtherEffect | app/application/broker.py:117-166 | after any operations, a take delivers one event if there is one, a drain all of them, a close none, and none of them drops or accepts anything |
| EventBroker.DropsAreFullPuts | app/application/broker.py:105-115 | over any operations the dropped count is exactly the number of puts that found the queue open and full |
| EventBroker.PutsAlone | app/application/broker.py:105-115 | after puts alone a new queue holds the last events, as many as fit, and all others are counted as dropped |
| EventBroker.Subscription.PutEvent | app/application/broker.py:105-115 | a closed queue ignores the event, a full one drops its oldest, and the history records it |
| EventBroker.Subscription.Get | app/application/broker.py:117-133 | whatever others do during the waits, the call itself takes at most the event it returns, the oldest one once it finds one; nothing is returned exactly after a timed-out wait or when closed and empty, and then the queue is as the others left it |
| EventBroker.GetIsDetermined | app/application/broker.py:127-133 | what others do and which waits time out settles how long a call waits, what it returns and what it leaves |
| EventBroker.Subscription.GetNowait | app/application/broker.py:135-141 | the oldest event, or nothing from an empty queue, without waiting |
| EventBroker.Subscription.Drain | app/application/broker.py:143-149 | returns exactly the queued events in order and leaves the queue empty |
| EventBroker.Subscription.Close | app/application/broker.py:151-166 | closing discards no queued event |
| EventBroker.Broker.Subscribe | app/application/broker.py:189-208 | a new subscription with the capacity of the broker, no events and no history, registered unless the broker is shut down, in which case it is closed |
| EventBroker.Broker.Unsubscribe | app/application/broker.py:210-220 | removes and closes that subscription, keeping its queue |
| EventBroker.Broker.Publish | app/application/broker.py:222-253 | every registered open subscription gets the event once; nobody else changes |
| EventBroker.Broker.Shutdown | app/application/broker.py:255-273 | empties the registry and closes every subscription in it |
| CivilCalendar.CivilInverse | src-tauri/src/events.rs:389-409 | every valid date from the epoch on is what the conversion gives for its own day number |
| CivilCalendar.CivilOrdinal | src-tauri/src/events.rs:389-409 | the date computed for a day is the date that many days after 1970-01-01 in the calendar |
| CivilCalendar.CivilValid | src-tauri/src/events.rs:389-409 | the date is a valid Gregorian date for every day number |
| CivilCalendar.CivilNext | src-tauri/src/events.rs:389-409 | consecutive days give successor dates |
| CivilCalendar.CivilEpoch | src-tauri/src/events.rs:389-392 | day 0 is 1970-01-01 |
| CivilCalendar.YearOfEraBracket | src-tauri/src/events.rs:396-399 | the division formula for the year of the era finds the year that holds the day; no unsigned subtraction in it goes below zero |
| CivilCalendar.OrdinalOrder | src-tauri/src/events.rs:389-409 | day numbers order dates and are different for different dates |
| Rfc3339.FormatParses | src-tauri/src/events.rs:389-409 | before the year 10000 the text (RFC 3339, section 5.6) reads back as the second it was printed from |
| Rfc3339.FormatLayout | src-tauri/src/events.rs:405-408 | up to the year 9999 the text has twenty characters, with the separators of RFC 3339 in their places and digits elsewhere |
| Rfc3339.FormatText | src-tauri/src/events.rs:405-408 | for every second the text is year, month, day, hour, minute and second with their separators |
| Rfc3339.FormatOrder | src-tauri/src/events.rs:389-409 | before the year 10000 text order is time order |
| Rfc3339.TextOrderRange | src-tauri/src/events.rs:389-409 | text order is time order up to a second exactly if it lies before the year 10000 |
| Rfc3339.FormatOrderFails | src-tauri/src/events.rs:405-408 | the two adjacent seconds at which the order breaks |
| Sidecar.Drive | src-tauri/src/sidecar.rs:166-334 | over any calls in any order the child handle is held exactly while running, the state history is lawful, and no process is let go alive and unkilled |
| Sidecar.SidecarProcess.Start | src-tauri/src/sidecar.rs:177-243 | outside NOT_STARTED nothing happens; otherwise the error, state, port and history for every behaviour of the process, and a child that is never spawned, exited, killed and reaped, or held |
| Sidecar.SidecarProcess.AwaitReady | src-tauri/src/sidecar.rs:221-243 | the loop takes a bounded number of turns, each of which looks at the exit first, then at the health, then at the clock; no turn before the last saw an exit, a healthy answer or the limit passed, and the last one says which of them ended it |
| Sidecar.SidecarProcess.Shutdown | src-tauri/src/sidecar.rs:271-314 | a running child is killed and let go, the result says whether its exit was seen, and it is given up only after an error of the wait or when the limit has passed; a sidecar that is not running is left alone |
| Sidecar.SidecarProcess.AwaitExit | src-tauri/src/sidecar.rs:287-313 | bounded polls; success exactly when the last one saw the exit; no earlier poll was past the limit, and giving up needs an error or the limit passed |
| Sidecar.SidecarProcess.PollForCrash | src-tauri/src/sidecar.rs:322-334 | the step to CRASHED is never refused; without an exit nothing changes |
| Sidecar.SidecarProcess.Reset | src-tauri/src/sidecar.rs:166-168 | only a terminal state returns to NOT_STARTED |
| Sidecar.SleepsAdd | src-tauri/src/sidecar.rs:221-243 | a clock that advances by the pause each turn has advanced by n pauses after n turns |
| Lifecycle.Lifecycle.Transition | sidecar-core/src/state.rs:130-139 | permitted transitions are made and recorded, others refused with nothing changed |
| Lifecycle.ComesFrom | sidecar-core/src/state.rs:60-82 | where each state of a history comes from: a launch goes through starting to running or to an end, and from running to a crash or through stopping |
| Lifecycle.EveryWayIsOpen | sidecar-core/src/state.rs:60-82 | each of the five ways a launch can go is a history, and after each the next launch can begin |
| Lifecycle.Supervisor.Report | sidecar-core/src/supervisor.rs:79-196 | every event method makes its one transition and reports its outcome, or refuses |
| Lifecycle.Supervisor.RequestShutdown | sidecar-core/src/supervisor.rs:150-157 | a supervisor that is not running is left alone and says in which state |
| LifecycleEvents.NumbersAreExact | src-tauri/src/events.rs:180-198 | below the wrap, events are numbered 1, 2, 3 and each state change carries the number of launches so far, which is at least 1; it names the states before and after it |
| LifecycleEvents.ChangeFollowsLaunch | src-tauri/src/events.rs:104-111 | no lawful state change comes before the first launch, so the lower bound of 1 never acts |
| LifecycleEvents.SequenceRepeats | src-tauri/src/events.rs:93-95 | two events share a number exactly if a multiple of 2^64 events lies between them |
| LifecycleEvents.HistoryIsLawful | src-tauri/src/events.rs:180-185 | the notices of any lifecycle history are a lawful stream |
| LifecycleEvents.Emit | src-tauri/src/events.rs:86-198 | the payloads of a stream of state and restart events |
| RestartPolicy.BackoffIsDoubling | sidecar-core/src/restart.rs:145-151 | the shift-and-saturate backoff equals the doubling recurrence for all attempts exactly if the base is 0 or the limited shift reaches the cap; attempt 0 counts as attempt 1 |
| RestartPolicy.OutOfReach | sidecar-core/src/restart.rs:145-151 | that fails only for a base of 1 ms under a cap above 2^63 ms |
| RestartPolicy.BackoffMonotone | sidecar-core/src/restart.rs:145-151 | delays never fall and never exceed the configured cap |
| RestartPolicy.NeverSaturates | sidecar-core/src/restart.rs:147-148 | the 128-bit product is never cut off |
| RestartPolicy.FallsBehind | sidecar-core/src/restart.rs:145-151 | where the cap is out of reach, attempt 65 falls behind the recurrence and is the first one that does |
| RestartPolicy.Supervise | sidecar-core/src/restart.rs:238-275 | when attempts are recorded only after Retry, retries in each window are numbered 1 to the maximum, Exhausted reports exactly the maximum, and the 32-bit counter never overflows |
| RestartPolicy.RetriedWithinMaximum | sidecar-core/src/restart.rs:238-275 | a failure is retried exactly if it is among the first maxAttempts in a row; the retry carries its number and the doubling delay as far as the limited shift reaches |
| TimerTokens.AcceptedIffOpen | sidecar-core/src/restart.rs:367-375 | a token is accepted exactly if that object issued it in its last begin and nothing accepted, cancelled or superseded it since |
| TimerTokens.BeginReply | sidecar-core/src/restart.rs:347-456 | a begin gets the next token in turn, counting from 1, and is refused exactly if its object does not supersede and has a token open |
| TimerTokens.AcceptedOnce | sidecar-core/src/restart.rs:367-375 | below 2^64 tokens each token is accepted at most once, on any number of objects |
| TimerTokens.AcceptedByIssuer | sidecar-core/src/restart.rs:465-473 | a token is accepted only by the object that issued it |
| TimerTokens.NeverAfterCancelOrBegin | sidecar-core/src/restart.rs:347-387 | a token is dead once its object was cancelled or began anew |
| TimerTokens.TokensAreUnique | sidecar-core/src/restart.rs:300-312 | until the shared counter comes round no token is issued twice |
| TimerTokens.PlaySchedules | sidecar-core/src/restart.rs:318-388 | any number of restart schedules answer any calls as the table of slots says |
| TimerTokens.PlayWindows | sidecar-core/src/restart.rs:426-485 | any number of stability windows answer any calls as the table of slots says |
| TimerTokens.RestartSchedule.TryBegin | sidecar-core/src/restart.rs:347-354 | refused, with no token used, while a restart is pending |
| TimerTokens.StabilityWindow.Begin | sidecar-core/src/restart.rs:452-456 | always issues a fresh token and supersedes the pending one |
| Handshake.PrintedPortParses | sidecar-core/src/startup.rs:61-86 | parsing undoes printing for every port, whatever white space comes around it |
| Handshake.HandshakeDecides | sidecar-core/src/startup.rs:61-86 | the accepted lines are exactly the trimmed numerals of value 1 to 65535; 0 and 65536 to 2^32 - 1 are invalid output, everything else a handshake failure |
| Handshake.ParseU32Is | sidecar-core/src/startup.rs:70-72 | the 32-bit parser accepts exactly the numerals below 2^32, a leading plus allowed |
| Handshake.TrimOf | sidecar-core/src/startup.rs:62 | trimming undoes any padding with white space |
| Handshake.TrimParts | sidecar-core/src/startup.rs:62 | what is trimmed is white space and nothing else |
| Enrichment.CoverageLaw | app/threat_intel/service.py:518-533 | requested = succeeded + failed + skipped exactly unless a rate limit struck among the domains with URLs waiting; the shortfall is the number of URLs |
| Enrichment.EnrichResults | app/threat_intel/service.py:332-549 | the four loops are one pass over all values that ends at the first rate limit, rejected key or unhandled exception; the provider is asked about the values up to that one, each once and in order, and about no others; lists are in input order, and every counter is accounted for |
| Enrichment.EnrichSection | app/threat_intel/service.py:340-516 | one category's loop, its remainders and its questions included; after a stop it asks nothing |
| Enrichment.EndIsUnique | app/threat_intel/service.py:340-516 | there is exactly one point where the pass ends |
| Enrichment.FlagsAreExact | app/threat_intel/service.py:336-548 | an exception propagates exactly if the first lookup that is not harmless ends in one; otherwise the two flags say whether it was a rate limit or a rejected key |
| Enrichment.AllOkIsExact | app/threat_intel/service.py:518-523 | the status is OK exactly if there are values and each gave a record or was invalid |
| Enrichment.ListsByKind | app/threat_intel/service.py:340-548 | each list of the report holds the records found for values of its own kind before the end of the pass, and no others |
| Enrichment.RecordInPlace | app/threat_intel/service.py:340-348 | records stand in the order of their lookups |
| Enrichment.CountsAre | app/threat_intel/service.py:340-516 | the transient failures and the skipped values are counted once each |
| Enrichment.EndIsDetermined | app/threat_intel/service.py:340-516 | outcomes that agree up to the stop allow the same report |
| Enrichment.CoverageCanFail | app/threat_intel/service.py:454-462 | one domain, one URL and a rate limit at once: of two requested indicators one is accounted for |
| Enrichment.PassAccounted | app/threat_intel/service.py:340-516 | each lookup that does not stop the pass is a record, a failure or a skipped value |
| CorrelationLaws.ConnectedIffSameForm | app/services/correlation_service.py:252-302 | two values of a category are connected by duplicate results exactly if their normalised forms are equal |
| CorrelationLaws.StarsPartition | app/services/correlation_service.py:252-302 | each value occurs as the right side of a result or as the canonical one of its form, so there are as many results as values less normalised forms: a star forest |
| CorrelationLaws.DuplicateJoinsOneForm | app/services/correlation_service.py:262-300 | the left side of a duplicate result is the least value of the group, the right side one of the same form |
| CorrelationLaws.DuplicateReaches | app/services/correlation_service.py:262-300 | every value that is not canonical is paired with the canonical one |
| CorrelationReport.CorrelatedAtMostTotal | app/services/correlation_service.py:203-227 | the correlated evidence is never more than the evidence there is |
| CorrelationEvidence.CorrelatedExactly | app/services/correlation_service.py:206-220 | an extracted value counts as correlated exactly if its category holds another value of its form, or a domain and URL go together by the host, or there is a record about it; a value of a category named like the right side of links counts if a linked value equals it |
| CorrelationEvidence.FiguresAddUp | app/services/correlation_service.py:160-229 | the report holds every relation of the three rules and no other, and counts them |
| CorrelationEvidence.ResultsInOrder | app/services/correlation_service.py:160-229 | duplicates come first and links last, and within a kind relations are in the text order of their four names and values |
| CorrelationEvidence.HostsSpelledOut | app/services/correlation_service.py:308-389 | exactly which host relations there are and what they say: the host is the domain, or ends in a dot and the domain |
| CorrelationEvidence.LinksSpelledOut | app/services/correlation_service.py:391-481 | exactly which links there are and what they say: the last record about an extracted value, with its verdict and ratio or the defaults |
| CorrelationEvidence.FormsCompared | app/services/correlation_service.py:50-148 | a domain is compared without one trailing dot, a URL in its own form, any other value trimmed and in lower case |
| CorrelationReport.HostsExactly | app/services/correlation_service.py:323-372 | host results are exactly the pairs of an extracted domain and an extracted URL whose host is it or below it |
| CorrelationReport.LinksExactly | app/services/correlation_service.py:440-481 | links are exactly the extracted values with a record |
| CorrelationReport.RecordIsLast | app/services/correlation_service.py:445-449 | of several records about a value the last one is used; records without a value are skipped |
| CorrelationOrder.ReportIgnoresOrder | app/services/correlation_service.py:160-227 | the report is the same under any permutation of the categories and of the values in them |
| CorrelationOrder.ResultsAreCanonical | app/services/correlation_service.py:188-201 | however the results are collected, sorting gives the same list, and it is sorted by the five-part key |
| CorrelationOrder.TiesAreTheSame | app/services/correlation_service.py:193-201 | results that tie on the five-part key are equal |
| Correlation.Correlate | app/services/correlation_service.py:160-227 | the report of the loops is the specified one |
| Correlation.CorrelateDuplicates | app/services/correlation_service.py:235-302 | grouping and pairing in sorted category order |
| Correlation.GroupValues | app/services/correlation_service.py:254-260 | the dictionary of groups and the order of its keys |
| Correlation.CorrelateDomainUrlHosts | app/services/correlation_service.py:308-372 | all matching pairs in order |
| Correlation.CorrelateLinksForCategory | app/services/correlation_service.py:422-481 | one link for each value that has a record, in order |
| Correlation.CountCorrelated | app/services/correlation_service.py:215-220 | counts the extracted values that some result mentions on either side |
| Timeline.QueryIsChronological | app/timeline/repository.py:200-220 | ordering by timestamp text and row number gives the events oldest first, ties in insertion order, when their timestamps share an offset |
| Timeline.QueryOrder | app/timeline/repository.py:213 | for rows of any offsets the query orders by the local clock, then by the printed offset, then by row number |
| Timeline.ChronologicalOrder | app/timeline/repository.py:213 | the listed order is by instant, and stable |
| Timeline.RowRoundTrip | app/timeline/repository.py:72-99 | a stored row decodes to the event that was appended |
| Timeline.TimelineRepository.Append | app/timeline/repository.py:105-179 | fails exactly for an unknown investigation or an id in use and then changes nothing; otherwise the event is added last |
| Timeline.TimelineRepository.ListForInvestigation | app/timeline/repository.py:181-220 | decoding never fails; with one common offset the result is chronological |
| Timeline.TimelineRepository.DeleteInvestigation | app/database/migrations/0003_add_timeline_events.sql:93-95 | deleting an investigation removes its rows and no others |
| IsoTimestamp.SameOffsetOrder | app/timeline/repository.py:151 | for timestamps of one offset, UTC included, text order is time order although the fraction is left out at zero microseconds |
| IsoTimestamp.TextOrderNeedsOneOffset | app/timeline/repository.py:213 | text order is time order between two offsets exactly if they are equal |
| IsoTimestamp.IsoOrder | app/timeline/repository.py:213 | in general text order is the order of the local clocks, then of the printed offsets |
| IsoTimestamp.Misordered | app/timeline/repository.py:213 | for any two different offsets, timestamps that are stored in the wrong order |
| IsoTimestamp.IsoParses | app/timeline/repository.py:84 | the stored text reads back as the datetime |
| IsoTimestamp.IsoText | app/timeline/repository.py:151 | the stored text is date, time, the fraction unless it is zero, and the offset |
| IsoTimestamp.OffsetIs | app/timeline/repository.py:151 | the offset is printed with its sign, as hours and minutes |
| AtomicWrite.AtomicWrite | app/reporting/atomic_write.py:38-91 | with a failure or crash at any step the target is the complete old or the complete new file and nothing else changes but a temporary file; after an exception the target is the old one, and a temporary file is left only if closing or removing it was what failed |
| AtomicWrite.FillAndReplace | app/reporting/atomic_write.py:82-91 | filling, moving into place and cleaning up keep every state on disk intact; it succeeds exactly if no call failed, a failure is undone, and where a flush is asked for it comes right before the move |
| Settings.SettingsRepository.Save | app/settings/repository.py:146-204 | the file is replaced atomically, flushed right before it is moved into place; every state on disk has the old file or one without the API key; it raises exactly if a file operation failed |
| Settings.SettingsRepository.Load | app/settings/repository.py:80-144 | exactly when the file is rewritten, with what, which settings are returned, and when it raises; the key returned is what the store holds if it is in reach then, and otherwise empty; a legacy key in a file is kept by a returning load if and only if the file could be read and has no unknown field, and always by one that raises |
| Settings.SettingsRepository.MoveLegacyKey | app/settings/repository.py:133-141 | the file is rewritten without the key exactly if the store took it; otherwise file and store are as they were |
| Settings.SettingsRepository.PopulateKey | app/settings/repository.py:252-280 | the key is what the store holds if this call reaches it, and otherwise empty |
| Settings.SettingsRepository.SaveThenLoad | app/settings/repository.py:80-204 | if no file operation fails, both return, the saved theme and export directory come back with the key of the store, and of the files only the settings file has changed, to the saved text |
| Settings.SettingsRepository.LoadSaved | app/settings/repository.py:80-144 | a file that was saved from some settings and can be read loads as them, with the key of the store, and nothing on disk changes |
| Settings.KeyNeverSaved | app/settings/repository.py:175-176 | popping the key from the dictionary makes the text the same for every API key |
| Settings.FieldsOverrideDefaults | app/settings/repository.py:95-131 | exactly which documents are of use, and their settings: the defaults with the fields of the file in their place |
| Settings.LegacyKeyIsMoved | app/settings/repository.py:80-144 | with nothing failing, a plain-text key goes from the file into the store, is returned, and is in the file no more |
| Settings.SavedIsUsable | app/settings/repository.py:95-113 | a saved file reads back as the same settings without a legacy key |
| Settings.UnknownFieldLosesKey | app/settings/repository.py:105-131 | a run of load in which nothing fails and the key of a file with an unknown field is gone |
| Settings.ReadErrorLosesKey | app/settings/repository.py:94-131 | a run of load in which only the reading fails and the key of a file in good order is gone |
| Settings.NoObjectRaises | app/settings/repository.py:107-131 | a run of load that raises on JSON that is neither an object nor an array |
| Scoring.MoreEvidenceNoLower | app/scoring/engine.py:59-99 | with no negative detection, more IOCs and records never lower score or severity |
| Scoring.OneMoreRecord | app/scoring/engine.py:209-254 | a further record of any kind changes the sum by five points for each malicious verdict, two for each suspicious one, and the amount of a negative reputation; it lowers the sum exactly if that is negative |
| Scoring.OneMoreValue | app/scoring/engine.py:29-40 | a further value of a category raises the sum by the weight of the category, and a CVE by ten more |
| Scoring.KnownWeights | app/scoring/engine.py:29-40 | the weight of each known category; any other weighs nothing |
| Scoring.ScoreInRange | app/scoring/engine.py:371-421 | the score is from 0 to 100, values outside are clamped to the nearer end, and the severity says in which of the four bands the sum lies |
| Scoring.ScoreByTable | app/scoring/engine.py:168-207 | counted by category or by weight table, the IOC points are the same |
| Scoring.IocScoreMonotone | app/scoring/engine.py:168-207 | no category with fewer values, no lower IOC score |
| Scoring.Calculate | app/scoring/engine.py:59-166 | the clamped sum, its grade and parts, the rounded confidence, and exactly which reasons are recorded |
| Scoring.ConfidenceInRange | app/scoring/engine.py:319-369 | the rounded confidence lies in 0..1, above one half only if the check finished, and is full exactly if it finished with 40 values or more |
| Scoring.ConfidenceShares | app/scoring/engine.py:319-369 | before rounding each value adds one fortieth, up to forty, and an unfinished check leaves half |
| Scoring.ConfidenceNoLower | app/scoring/engine.py:319-369 | more values, or a check that finished, never lower the rounded confidence |
| Scoring.CalculateThreatScore | app/scoring/engine.py:256-291 | the points of all four categories together |
| RiskExplanation.BuildIocCategories | app/services/risk_explanation_service.py:233-300 | the breakdown is verified exactly if the stored score is what the engine computes from the same IOCs |
| RiskExplanation.BreakdownAddsUp | app/services/risk_explanation_service.py:258-300 | filtered, weighted and re-sorted, the breakdown adds up to the engine's IOC score |
| RiskExplanation.BreakdownLists | app/services/risk_explanation_service.py:258-293 | it lists exactly the categories that hold values, most points first |
| RiskExplanation.BreakdownOrder | app/services/risk_explanation_service.py:288-293 | of two entries the earlier has more points, or as many and the smaller name |
| RiskExplanation.EntrySpelledOut | app/services/risk_explanation_service.py:262-284 | what an entry says: count, points, and which categories are of high, medium and low significance |
| Ordering.SortCanonical | app/services/correlation_service.py:193-201 | sorting by a key whose ties are equal forgets the input order |
| Sequences.SortStable | app/timeline/repository.py:213 | sorting keeps the order of elements that tie |

## Left out

- HTTP, sockets, Tauri commands and event delivery, the OS keystore and environment variables: foreign calls.
- SQLite: a database is rows, a write lock, atomic commit and rollback, and constraints; SQL text, splitting
  a script into statements, and the check for an existing table are not modelled.
- `sqlite3.Connection.commit` interrupted by power loss, and the ordering of writes on disk: a crash is one
  of the process, after any file operation.
- The real timer threads and `src-tauri/src/lib.rs`: all sequences of calls are covered instead.
- Verdict mapping (`_format_verdict`), `aggregate`, single-category enrichment: short branches.
- Scoring.Calculate: which way the rounding of the confidence goes when the exact number lies halfway between
  two hundredths. In binary floating point that depends on the number; here it may go either way.
- The condition variable is that of Python's threading module, where a waiter
  whose timeout has run out can be notified until it has the lock again.
- Trimming, lower-casing, `urlparse` and URL hosts in correlation: arbitrary functions. The JSON library: any
  functions that read back what they wrote. Numbers with a fractional or exotic form that `int()` accepts in a
  detection record are taken as integers.
- Logging, narratives, reason sentences and error texts: a reason is the data its sentence is built from.
- The second reading of the clock after a kill in `start`, and durations below a millisecond.
- UTC offsets that are not whole minutes, and the forms `fromisoformat` accepts beyond those `isoformat` writes.
- The default export directory, which the source resolves on the machine, is a fixed text.
- The singleton broker, `subscription()` as a context manager, and `subscriber_count`.
- `save_api_key`, `has_api_key`, and failures of `mkdir` and `exists`, which come before anything is written.
- List, search and dashboard queries of the investigation repository: plain filters.
- Atomicity between the two counters of one lifecycle event: events are numbered as if built one at a time.
- Timeline metadata as JSON text, and the validation of summaries, sources and metadata keys.
- Exporters, templates, the desktop and web front ends, packaging scripts: presentation.
- Sidecar.SidecarProcess.Shutdown: after a wait that failed the process was sent a kill but its exit was not
  confirmed, and the handle is given up, as in the source.
- BrokerRuns.ShutdownClosesAll: a subscription that a running call is about to close may still be open when
  `shutdown` returns, as BrokerRuns.ShutdownCanReturnFirst shows.
