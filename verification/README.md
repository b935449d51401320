# ChainRemote agent: state machines and their proofs

ChainRemote is a remote-support agent for shop computers. This project models the parts of the agent, and of
the panel it talks to, that keep state across reboots, clock jumps, lost messages and crashes, and proves what
they promise over whole runs. Code that changes state in the source is a class or a method with a loop here, proved against a
function; the theorems are about those functions. `dafny verify dfyconfig.toml` checks everything.

| file | what it models |
|---|---|
| `Sched.dfy`, `SchedRuns.dfy` | the scheduled-access window: one marker, opened by a grant, closed by end time, cap, idleness or command |
| `SchedClose.dfy`, `Dedupe.dfy` | the close command between panel and agent, with losses, redeliveries and deaths: safety |
| `ClosePanel.dfy`, `SchedDelivery.dfy` | the panel's columns, and whether a close request gets through |
| `Token.dfy` | token recovery of the heartbeat, with the panel that issues the tokens |
| `Cleanup.dfy`, `CleanupQueue.dfy` | the disk-cleanup command and the automatic cleanup, and when the panel drops a cleanup request |
| `Cadence.dfy`, `CloseLatency.dfy` | the heartbeat loop and its nap, and how long a close request takes |
| `FileTree.dfy`, `TempCleaner.dfy`, `SizeScan.dfy` | the Temp cleaner and the time-limited folder sizes |
| `Overlay.dfy`, `Migrate.dfy` | the migration from the old RustDesk installation |
| `PeerStore.dfy` | the per-account connection records |
| `Firewall.dfy` | disarm reports between watcher thread and heartbeat |
| `Direct.dfy`, `Decimal.dfy`, `Spacing.dfy` | the age of a direct-connect failure, stored as decimal text |

Clock readings, file and network results and what other threads do are parameters of the operations, or
events of a run; theorems hold for all of them. No proof relies on automatic induction, which every lemma
switches off. Times, lengths and counters are unbounded integers: no i64 or
u64 addition of the source overflows, except that stamps are parsed with the range check of u64 and
subtractions that saturate in the source do so here.

## What the code does not keep

Some promises of the source's comments are false of its code. Each has a lemma here with the failing case and
the exact condition under which the promise holds.

- Idleness is said to count only after a first session in the window. A session of the window before, ended
  after a new grant, starts the idle clock of the new window (`StaleSessionEndKillsPendingWindow`; all cases:
  `OpenIff`).
- `in_session` is one flag: two overlapping sessions make an idle window pass again
  (`OverlappingSessionsReviveIdleWindow`, `StepCommutesIff`).
- `status` is a query, yet on a clock that jumps back it can lose a window (`PollObservableIff`,
  `PollObservableWhenClockJumpsBack`).
- A request to close a window is said to stay queued until a report says it is closed. The panel drops it as
  well when a report tells of an end it does not know: a cancel right after the grant is wiped out by the very
  report that announces the window, and the window stays open (`CancelRightAfterGrantIsDropped`; exactly when:
  `RequestStaysQueuedIff`, `FirstExchangeClosesIff`). Pressing again helps (`PressingAgainCloses`).
- A request to close the window is remembered only after the window is cleared. If the process dies in between,
  a redelivery can close a window granted since (`DeathLetsRedeliveryClose`, `RedeliveryNeverCloses`).
- An agent is said to recover from any lost or replaced token by itself. One installed without a key never does
  while the panel has a token for it (`KeylessNeverRecovers`, `SelfStabilises`): a lost reply to its first
  registration locks it out (`LostFirstReplyLocksOut`).
- The panel means to drop only the cleanup request that a result is of. It goes by the time the result carries:
  a click made while an older or an automatic cleanup runs is dropped and never carried out
  (`ClickDuringCleanupDroppedIff`, `AutomaticResultDropsClickIff`), and a request handled by an agent whose
  clock is behind is never drained (`HandledRequestDrainedIff`).
- A crash of the migration after the old service has been deleted, on a machine without old user data, makes
  the next start take it for a clean installation: service data and registry values not copied yet never are
  (`LateCrashLosesServiceData`, `CrashRecoversIff`).
- A cleanup request is remembered only after its cleanup, so a death in it repeats it (`DeathRepeatsCleanup`,
  `ManualCleanupRunsOnce`), and its result is saved only after that, so a death in between makes a redelivery
  send the result of an older request (`DeathSendsOlderResult`, `RedeliveryResends`). An automatic cleanup
  overwrites the one saved result as well.
- The bytes of the recycle bin are reported as freed before it is emptied, also when that fails
  (`FullBinReportedAsFreed`, `ReportIsTrueIff`).
- A disarm that lands while a flagged report is under way is acknowledged with it and never reported itself
  (`LandingInFlightLostIff`).
- Connection records are said to be put aside, not deleted. The owner option advances even when a rename fails,
  and the archive that was not brought back is then deleted by the next switch (`FailedRestoreLosesArchive`,
  `RunRemovesIff`). Parked records are said to come back to their own account only. A folder that could not be
  put away is filed under the next account by the switch after that (`FailedParkHandsRecordsOver`,
  `RecordsStayHomeIff`, `FailedSwitchIsolatesIff`). Accounts whose names differ only in punctuation share one
  archive folder (`SwitchShowsForeignRecordsIff`).

Where comments and code disagree the code is followed: idleness closes after 15 minutes
(src/server/connection.rs speaks of 30), `dir_size_budgeted` stops below depth 16 (the comment of
`measured_top_dirs` says depth is not limited), and `rename_legacy` is applied to files and folders at every
level (a comment says top level only).

## Model

| member | source | states |
|---|---|---|
| SchedRuns.LazyExpiryRefinesEager | src/chainremote_sched.rs:136-164 | for every run whose callers keep their side (clock does not go back, starts noted only under an open window, ends only for noted sessions, one at a time), `is_open` answers exactly as a machine that drops the window in the very second that end, cap or idle limit is reached |
| SchedRuns.StepCommutesIff | src/chainremote_sched.rs:197-212 | for every marker, time and operation: expiring late agrees with expiring at once, except exactly when a session note lands on a window that is over by idleness alone |
| SchedRuns.OverlappingSessionsReviveIdleWindow | src/chainremote_sched.rs:197-212 | with two overlapping sessions the lazy machine answers open where the eager one has closed |
| SchedRuns.SkewBisimulation | src/chainremote_sched.rs:103-126 | two machines whose clocks differ by any constant, given the same HQ inputs and operations, answer alike at every step of every run |
| SchedRuns.OpenExactlyInHqTime | src/chainremote_sched.rs:103-164 | from a grant until the first session end, and through any polls, `is_open` holds exactly while HQ time is in [max(start, hq_now), min(end, hq_now + 24 h)) |
| SchedRuns.OpenIff | src/chainremote_sched.rs:136-212 | between two grants, on a clock that does not go back, whatever sessions are noted and however often anyone looks, `is_open` holds exactly when hours and session notes so far allow it and no earlier `is_open` has found the window started and idle |
| SchedRuns.StaleSessionEndKillsPendingWindow | src/chainremote_sched.rs:154-161 | the promise that idleness counts only after a session in the window fails: after a grant, any polls and session starts, one session end and any polls, the window is open exactly in its HQ hours and for 15 minutes after that end, whether or not a session of this window has started |
| SchedRuns.OpenOnlyUnderAGrant | src/chainremote_sched.rs:105-164 | for every run and every clock, an open answer comes from a grant that was not replaced or cleared, within its clipped hours and within 24 hours of it |
| SchedRuns.CapCheckNeverFires | src/chainremote_sched.rs:149-153 | in every reachable state the explicit cap check is false wherever the end check has not closed the window already |
| SchedRuns.OnlyAGrantReopens | src/chainremote_sched.rs:136-164 | on a clock that does not go back, once open then closed stays closed until the next grant, whatever sessions are noted |
| SchedRuns.StatusPollingUnobservable | src/chainremote_sched.rs:166-195 | removing any set of `status` and `is_active_now` calls from a run changes no answer of the calls that remain, on a clock that does not go back |
| SchedRuns.PollObservableIff | src/chainremote_sched.rs:176-195 | for every clock: one more poll anywhere in a run changes a later answer if and only if it looks after the end of the window that is there and without it some operation before the next grant would still tell of a window |
| SchedRuns.PollObservableWhenClockJumpsBack | src/chainremote_sched.rs:176-190 | the shortest case: a look at one moment changes the answer at another exactly when the window is over at the first and lets in at the second, so only on a clock that has jumped back |
| SchedRuns.OpenActiveShown | src/chainremote_sched.rs:166-195 | open implies active implies shown, and active but not open is idleness, exactly |
| SchedRuns.LookDropsIff | src/chainremote_sched.rs:136-190 | what `is_open` and `status` drop, in seconds and on the fields of the window: over, a day old, 15 minutes idle |
| SchedRuns.LimitsInSeconds | src/chainremote_sched.rs:36-58 | the limits on both sides: open at 14:59 idle minutes and closed at 15, cut to a day, closed at a day |
| Sched.Granted | src/chainremote_sched.rs:105-125 | a granted window lies within now and now + 24 h and starts with no session noted |
| Sched.MarkerFile.Grant | src/chainremote_sched.rs:105-131 | the marker after a grant, computed step by step as the source does |
| Sched.MarkerFile.IsOpen | src/chainremote_sched.rs:136-164 | answer and marker afterwards, in all branches |
| Sched.MarkerFile.Status | src/chainremote_sched.rs:176-190 | answer and marker afterwards, in all branches |
| Sched.MarkerFile.IsActiveNow | src/chainremote_sched.rs:193-195 | answer from a second clock reading, marker as `status` leaves it |
| Sched.MarkerFile.NoteSessionStart | src/chainremote_sched.rs:198-203 | stops the idle clock of a marker that exists |
| Sched.MarkerFile.NoteSessionEnd | src/chainremote_sched.rs:206-212 | starts the idle clock of a marker that exists |
| SchedClose.RedeliveryNeverCloses | src/chainremote_heartbeat.rs:594-621 | under any losses, redeliveries and deaths each request is cleared for and remembered at most once, and cleared for once more for each death in the middle of that; a reply with a request leaves the agent, so a window granted since, alone if and only if that request has been remembered, and such a death is possible only before it has |
| SchedClose.DeathLetsRedeliveryClose | src/chainremote_heartbeat.rs:605-616 | after such a death and a new grant the next exchange closes the new window exactly if it reports no window, as those with a cleanup result, or the panel takes the window for the old one |
| SchedDelivery.RequestStaysQueuedIff | chainremote-admin/lib/data/customers.ts:385-415 | without a new request a request is in the queue exactly as long as every report recorded was nonzero and of the end the panel knew, or of one more than 25 h ahead, which it ignores |
| SchedDelivery.FirstExchangeClosesIff | chainremote-admin/lib/data/customers.ts:401-414 | an exchange in which nothing is lost, under a standing window, clears it and remembers the request if and only if the panel knows its end or ignores it as too far ahead; else the request is gone, agent and window are as other threads leave them, and the panel knows the window |
| SchedDelivery.ExchangeTeachesPanel | chainremote-admin/lib/data/customers.ts:385-415 | with an empty queue an exchange leaves the agent alone and the panel with the end of the standing window, with none if there is none, and as it was if the end is more than 25 h ahead |
| SchedDelivery.RequestAfterReportCloses | chainremote-admin/lib/data/customers.ts:401-414 | grant, exchange, request, exchange: the window is closed |
| SchedDelivery.LostExchangeEffect | chainremote-admin/lib/data/customers.ts:401-414 | an exchange lost before its report is recorded leaves no trace; lost later, the panel has recorded it; the agent is as before and can begin the next |
| SchedDelivery.WindowFollowsOperations | src/chainremote_sched.rs:105-212 | between report and reply the window of the protocol runs exactly as the marker does under the operations of the other threads |
| SchedDelivery.CancelRightAfterGrantIsDropped | chainremote-admin/lib/data/customers.ts:407-413 | grant, cancel, first exchange: the request is dropped, and without another one the agent never handles it |
| SchedDelivery.PressingAgainCloses | chainremote-admin/lib/data/customers.ts:505-517 | after that a second request is carried out by the next exchange, as long as the window stands |
| SchedDelivery.TwoBeatsCloseForGood | src/chainremote_heartbeat.rs:557-621 | after a fresh request and with no further grant or request, one exchange not lost and a second one, whatever is lost or polled in between, leave no window, an empty queue and a panel that shows none, if and only if the panel knew the window at the first; else the request is never carried out |
| ClosePanel.CustomerRow.RecordHeartbeat | chainremote-admin/lib/data/customers.ts:385-415 | both columns after a report, in all branches: none, zero, negative, too far ahead, same end, new end |
| ClosePanel.CustomerRow.RequestClose | chainremote-admin/lib/data/customers.ts:505-517 | queues a request, whatever the panel knows of a window |
| SchedClose.CloseHandler.HandleSchedClose | src/chainremote_heartbeat.rs:605-621 | a new request clears, raises the flag and is remembered; a known one does nothing; a death after clearing loses flag and memory of it |
| SchedClose.CloseHandler.TakeJustCleared | src/chainremote_heartbeat.rs:151-152 | reads the flag and puts it down |
| Dedupe.ClearsOnceIff | src/chainremote_heartbeat.rs:605-616 | remembering the last value acts on every value at most once if and only if no value comes back after another came in between |
| Cadence.LiveWindowTicksWithinAMinute | src/chainremote_heartbeat.rs:141-186 | if a window is there from some moment until the next tick, that tick comes within 60 s of sleep, within one 10 s slice if the nap began with none in sight and none just cleared |
| Cadence.ShownWindowTicksEveryMinute | src/chainremote_heartbeat.rs:141-186 | the first tick after two minutes; while a window is shown, or right after one was cleared with none in sight, the next exactly a minute later |
| Cadence.NewWindowEndsNapAtNextLook | src/chainremote_heartbeat.rs:173-186 | a window that appears in a long nap ends it exactly at the next multiple of ten seconds |
| CloseLatency.CloseTakesEffectWithinTwoMinutes | src/chainremote_heartbeat.rs:141-186 | loop, marker, panel and close command in one timed run, for every clock: the looks of the nap and its length follow from marker and flag; after a request in the middle of a nap under a window that stays, the next tick comes within a minute of sleep; it carries the request out if and only if the panel knows the window or ignores its end, and then the tick after it, within one more, has the panel show none with an empty queue; else that tick drops the request, which is never carried out |
| CloseLatency.OneShortNapAfterClearing | src/chainremote_heartbeat.rs:141-160 | with no window and an empty queue one nap after a clearing is a minute, and all others ten minutes |
| Cadence.QuietLoopTicksEveryTenMinutes | src/chainremote_heartbeat.rs:141-160 | with no window in sight and none just cleared, ticks are ten minutes of sleep apart, exactly |
| Cadence.NapWatchingSched | src/chainremote_heartbeat.rs:173-186 | the nap terminates, never oversleeps, and ends early only at the first look that finds a window where there was none |
| Cadence.RunLoop | src/chainremote_heartbeat.rs:141-160 | the tick times of the loop, for any number of rounds |
| Cadence.NapEndsOnce | src/chainremote_heartbeat.rs:173-186 | that description of a nap fixes its end |
| Cadence.EveryNapEnds | src/chainremote_heartbeat.rs:173-186 | every nap has such an end |
| Cadence.TicksAdvance | src/chainremote_heartbeat.rs:141-160 | ticks are at least a slice and at most ten minutes of sleep apart |
| Token.SelfStabilises | src/chainremote_heartbeat.rs:196-291 | after any history one tick without losses and rivals ends accepted, with equal tokens, if and only if the agent has a key, or the tokens agreed, or the panel has none; it takes at most two beats and one registration, none exactly when they agreed before; ticks after it, with losses, keep the token and register no more |
| Token.KeylessNeverRecovers | chainremote-admin/lib/data/customers.ts:717-745 | otherwise no tick ever succeeds again, whatever gets through, until the panel forgets its token |
| Token.LostFirstReplyLocksOut | chainremote-admin/lib/data/customers.ts:729-745 | a failed first registration without a key: if its reply was lost no later tick succeeds, and the next without losses does exactly if the request did not get there |
| Token.PairAfterTick | src/chainremote_heartbeat.rs:196-291 | both tokens after a tick without rivals, and its beats and registrations, for every pattern of losses, on the inputs |
| Token.EachBreakCostsOne | src/chainremote_heartbeat.rs:196-255 | a rival, a lost local token or a forgotten panel token, then a tick without losses: exactly one registration, and who recovers |
| Token.BoundIsReached | src/chainremote_heartbeat.rs:196-255 | for every number of disturbances there is a history with as many registrations |
| Token.OneRegistrationPerDisturbance | src/chainremote_heartbeat.rs:196-291 | over every history registrations never exceed the disturbances, plus one if the two did not agree to begin with; a disturbance is a registration by a rival, the loss of a token there is, or a registration really made that yields none; ticks and lost beats are none |
| Token.LossesNeverBreakSync | src/chainremote_heartbeat.rs:196-255 | once tokens agree, no run of lost or refused exchanges without a rival changes them or makes the agent register |
| Token.TickSucceedsIff | src/chainremote_heartbeat.rs:196-255 | without rivals a tick succeeds exactly when every exchange it needs gets through and the panel issues the token it asks for; a rejected token survives a failed tick only if the rejection was never heard |
| Token.DoubleRejectionIff | src/chainremote_heartbeat.rs:248-251 | a second rejection in one tick happens exactly when the first beat is rejected, the registration after it yields a token and a rival registers then; a tick that starts without a token or in sync needs a rival before its first beat as well |
| Token.TokenKeeper.RunTick | src/chainremote_heartbeat.rs:196-255 | local token, panel token, outcome and number of exchanges of a tick, for every pattern of losses and rivals |
| Token.Panel.Register | chainremote-admin/app/api/customers/register-heartbeat-token/route.ts:42-66 | with a key a registration replaces the token, without one it is refused if there is one; a lost reply leaves only the panel changed |
| Cleanup.ManualCleanupRunsOnce | src/chainremote_heartbeat.rs:623-662 | a request, not handled to begin with, runs exactly once for each of its first deliveries up to the first that survives its cleanup: once for each death in its cleanups and once more if some delivery survives; at most once if and only if no death in the cleanup of its first delivery is followed by another delivery |
| Cleanup.DeathRepeatsCleanup | src/chainremote_heartbeat.rs:637-651 | an instance: two runs |
| Cleanup.RedeliveryResends | src/chainremote_heartbeat.rs:624-651 | from before the run of a request: a redelivery runs nothing and sends the result of that run exactly when no automatic cleanup has completed since and the process did not die before saving it, or the text saved instead is the same |
| Cleanup.RedeliverySendsTheSlot | src/chainremote_heartbeat.rs:626-632 | a redelivery sends what the one result slot holds: the text of the newest automatic cleanup, or what it held before |
| Cleanup.DeathSendsOlderResult | src/chainremote_heartbeat.rs:647-651 | a death between remembering a request and saving its result makes the redelivery send the result of the request before |
| Cleanup.AutoCleanupBound | src/chainremote_heartbeat.rs:667-709 | for every clock history, with crashes, k automatic cleanups carry stamps at least (k-1) times 24 h apart |
| Cleanup.AutoRunsExactly | src/chainremote_heartbeat.rs:667-709 | it runs if and only if both readings work, less than 5 GiB are free and the clock has reached the stored stamp, or 0, plus 24 h; stamp and text it leaves |
| Cleanup.StampHoldsADay | src/chainremote_heartbeat.rs:680-688 | after one, the next waits for exactly a day, also when it died |
| Cleanup.CleanupAgent.HandleCleanupRequest | src/chainremote_heartbeat.rs:623-662 | persisted options and report of a request, for every point of death |
| Cleanup.CleanupAgent.MaybeAutoCleanup | src/chainremote_heartbeat.rs:667-709 | runs exactly when space is short and 24 h have passed since the stored stamp, which it writes first |
| CleanupQueue.RunBeforeDropped | chainremote-admin/lib/data/customers.ts:303-318 | a request that is in the queue when a tick begins is run and remembered before it is dropped, whatever is lost, dies or is wrong with the clocks, unless replaced |
| CleanupQueue.FullTick | src/chainremote_heartbeat.rs:212-228 | a tick with a fresh request goes through request, report, automatic cleanup and report, whichever report is lost, and rests |
| CleanupQueue.DroppedIff | chainremote-admin/lib/data/customers.ts:303-318 | a queued request is dropped exactly by a report that arrives while the agent has a result saved that is stamped no earlier than the request |
| CleanupQueue.HandledRequestDrainedIff | chainremote-admin/lib/data/customers.ts:303-318 | once handled, with no automatic cleanup completed, redeliveries drain a request exactly if some report arrives and the saved result is stamped no earlier than it: never from a clock that is behind or from an older result |
| CleanupQueue.ClickDuringCleanupDroppedIff | chainremote-admin/lib/data/customers.ts:300-318 | a click while an older request runs is dropped unrun exactly if the result is stamped no earlier |
| CleanupQueue.AutomaticResultDropsClickIff | src/chainremote_heartbeat.rs:667-709 | the same for a click before the automatic cleanup of a tick |
| TempCleaner.SweepRemovesExactlyTheDoomed | src/chainremote_heartbeat.rs:991-1035 | for every tree the files left are exactly those before minus the reached, surely old and unlocked ones; bytes before are bytes after plus `freed`; `deleted` and `skipped` count every reached file and every metadata failure |
| TempCleaner.GoneIff | src/chainremote_heartbeat.rs:1006-1034 | on the fields of the file: a file is gone after a sweep if and only if it was reached, not locked and known to be modified before the cutoff |
| FileTree.ReachedToDepth16 | src/chainremote_heartbeat.rs:998-1005 | a file is reached at most 16 directories down, and always so where everything can be read |
| TempCleaner.OnlyEmptyDirectoriesGo | src/chainremote_heartbeat.rs:1015-1018 | a directory is removed exactly when nothing is left in it, all the way down |
| TempCleaner.SweepIsIdempotent | src/chainremote_heartbeat.rs:991-1035 | a second sweep with the same cutoff removes nothing and skips what the first skipped |
| TempCleaner.Cleaner.CleanDir | src/chainremote_heartbeat.rs:991-1035 | the recursive loop leaves the tree and adds to the counters what the specification says |
| TempCleaner.RunDiskCleanup | src/chainremote_heartbeat.rs:965-988 | the loop over all Temp folders and the bin leaves and reports what the specification says, for every outcome of asking and emptying |
| TempCleaner.ReportIsTrueIff | src/chainremote_heartbeat.rs:965-988 | over all Temp folders exactly the reached files go that are not locked and known to be over an hour old, and `skipped` counts the others reached and metadata failures; the reported bytes are those gone if and only if the bin was left alone, or was counted and emptied, or was not counted and lost nothing; so with the number deleted |
| TempCleaner.FullBinReportedAsFreed | src/chainremote_heartbeat.rs:976-985 | a bin that is counted and cannot be emptied is reported as freed and still full |
| SizeScan.Scanner.DirSize | src/chainremote_heartbeat.rs:771-792 | for every clock the result is at most the bytes of the reached files, and equal to it if no look at the clock was late; begun late it counts nothing, and once looks are late it makes at most 64 more for each level |
| SizeScan.ReachedAtMostAll | src/chainremote_heartbeat.rs:771-792 | the bytes reached are at most all bytes, and all of them when every file is within reach and depth |
| SizeScan.Scanner.MeasuredTopDirs | src/chainremote_heartbeat.rs:874-950 | when a scan is due, in bytes and seconds; what is found is, in the order of the scan, some of the real folders, each at most once, 200 MB or more and not overstated; with no late look it is every such folder at full size; after the deadline at most 64 looks a level and one for each folder beside are made |
| SizeScan.PickedPositions | src/chainremote_heartbeat.rs:918-946 | entries belong to different folders, in ascending positions of the scan |
| SizeScan.CandidatesExactly | src/chainremote_heartbeat.rs:918-928 | the scan comes by the readable directories not named Temp in any case, and by all of these |
| SizeScan.LargeExactly | src/chainremote_heartbeat.rs:929-944 | with no late look those of at least 200 MB are found, at full size |
| SizeScan.SortIsStable | src/chainremote_heartbeat.rs:947 | folders of one size stay in the order of the scan |
| SizeScan.ReportDominates | src/chainremote_heartbeat.rs:947-949 | the report is descending, at most eight entries, and no folder left out is larger than one reported |
| Overlay.NothingOverwritten | src/chainremote_migrate.rs:255-267 | whatever was in the destination stays unchanged, whether the copy succeeds or fails |
| Overlay.PerformMerges | src/chainremote_migrate.rs:237-272 | a copy that succeeds is a merge in which the destination wins |
| Overlay.PerformSucceedsIff | src/chainremote_migrate.rs:237-351 | a copy succeeds exactly when all entries can be read, what cannot be written is there already and no folder is to be made where a document stands |
| Overlay.StopAndRerun | src/chainremote_migrate.rs:237-272 | stopping after any prefix of operations and starting over gives what one run gives |
| Overlay.ReplayChangesNothing | src/chainremote_migrate.rs:255-267 | copying again, also after more was added elsewhere, changes nothing |
| Overlay.RerunCompletes | src/chainremote_migrate.rs:79-108 | the same over all copies of the migration, wherever the process dies |
| Overlay.InterruptedAfter | src/chainremote_migrate.rs:79-108 | the crash meant there: all stages before performed, and any number of operations of one |
| Overlay.AddsNothingIff | src/chainremote_migrate.rs:237-272 | a copy, also one that fails, adds nothing outside given places exactly when every operation that takes place finds its place taken or is one of them |
| Migrate.EveryEntryArrives | src/chainremote_migrate.rs:242-270 | every entry of the old folder stands at its renamed path unless something stood there or an earlier entry took that path |
| Migrate.ListingExactly | src/chainremote_migrate.rs:242-270 | what is listed is what stands in the old folder, at every level: copyable files, folders and unreadable entries |
| Migrate.UserDataArrives | src/chainremote_migrate.rs:79-86 | after a migration each entry of the old user data stands at its renamed path below the new root, unless something stood there or an earlier entry took it |
| Migrate.ServiceDataArrives | src/chainremote_migrate.rs:88-103 | so does each entry of the service data below the service root, whether or not the user data could be copied |
| Migrate.ValuesArrive | src/chainremote_migrate.rs:105-108 | so does each value of the registry key below the new key |
| Migrate.NothingElseArrives | src/chainremote_migrate.rs:36-124 | what was there stays, but for the marker, and nothing appears elsewhere, whatever fails |
| Migrate.MarkerAndService | src/chainremote_migrate.rs:45-77 | a marker stops everything; without one the service is gone if it could be deleted, a clean installation leaves just root and marker, and a migration its marker |
| Migrate.OnlyEntriesArrive | src/chainremote_migrate.rs:242-270 | nothing else appears |
| Migrate.EveryValueArrives | src/chainremote_migrate.rs:328-351 | a registry key that can be read and written is copied without fail and each value, at every level, stands under the new key unless one was there |
| Migrate.KeyOpsHold | src/chainremote_migrate.rs:328-351 | the registry copy sets exactly the values the old key holds |
| Migrate.RenameCollidesIff | src/chainremote_migrate.rs:278-291 | two names meet after renaming exactly when they differ only in which of the three prefixes they have |
| Migrate.RenamesPrefixOnly | src/chainremote_migrate.rs:278-291 | the two old prefixes become the new one, other names stay |
| Migrate.RenameTwice | src/chainremote_migrate.rs:278-291 | renaming is idempotent |
| Migrate.MigrationIsIdempotent | src/chainremote_migrate.rs:36-124 | starting the migration again never changes the store, marker written or not |
| Migrate.CrashRecoversIff | src/chainremote_migrate.rs:51-108 | a restart after a crash in the copies gives what an undisturbed run gives exactly when old user data exists, or the service is still there, or in the crashed store every place that the copies of service data and registry would still fill is taken already, or is the root or the marker |
| Migrate.LateCrashLosesServiceData | src/chainremote_migrate.rs:51-63 | a concrete machine on which the restart loses service data |
| Migrate.Installer.CopyDir | src/chainremote_migrate.rs:237-272 | the recursive loop performs exactly the listed operations, and stops where they fail |
| Migrate.Installer.CopyKey | src/chainremote_migrate.rs:328-351 | the same for registry values and sub-keys, with failing reads, writes, openings and creations |
| Migrate.Installer.MigrateOnce | src/chainremote_migrate.rs:36-124 | store and service after a start, in all branches |
| PeerStore.FoldersImplementAccounts | src/chainremote_auth.rs:434-490 | over every sequence of logins without file errors, by accounts with distinct tags, live folder and archives are a map from accounts to records |
| PeerStore.FoldersFromTheBeginning | src/chainremote_auth.rs:434-490 | so from an installation no account has used; its records pass to the first |
| PeerStore.RecordsComeBack | src/chainremote_auth.rs:457-490 | an account finds its records as it left them, whatever other accounts do in between |
| PeerStore.LoginConservesRecords | src/chainremote_auth.rs:457-490 | for every state, account and file error a login changes the number of copies of a record only where it removes an archive with it, by one |
| PeerStore.RecordsConserved | src/chainremote_auth.rs:434-490 | over every run with file errors: copies after, plus taken out, plus removed with archives, are copies before plus added |
| PeerStore.NothingRemovedWithoutFailures | src/chainremote_auth.rs:457-490 | without file errors and with distinct tags the removal branch never takes a record |
| PeerStore.ArchiveRemovedIff | src/chainremote_auth.rs:425-490 | after a login of an account from any state and any work of it, the next switch removes its archived records exactly when it had some, the removal works, and that login did not bring them back |
| PeerStore.RunRemovesIff | src/chainremote_auth.rs:425-490 | the same over every run with file errors, in terms of the last login of the account before |
| PeerStore.FailedRestoreLosesArchive | src/chainremote_auth.rs:464-487 | a failed restore and then a switch without any failure: the records are nowhere |
| PeerStore.SameArchiveIff | src/chainremote_auth.rs:450-455 | two accounts have one archive name exactly when they differ only in their punctuation |
| PeerStore.ArchiveNamesInFull | src/chainremote_auth.rs:450-465 | names of archives, with the characters next to letters and digits |
| PeerStore.SwitchShowsForeignRecordsIff | src/chainremote_auth.rs:457-490 | the second of two accounts sees the records of the first exactly when their tags are the same |
| PeerStore.FailedSwitchIsolatesIff | src/chainremote_auth.rs:468-488 | with file errors the owner advances anyway; if the old folder could be put away the new account sees its own records exactly if they could be brought back or were none, else it sees those of the old account |
| PeerStore.RecordsStayHomeIff | src/chainremote_auth.rs:425-490 | over every run with file errors: a record of an account is always in its live folder or archive if and only if no switch away from it fails to put the folder away, and never in an archive of another if and only if no other account that has it in its live folder is switched away from with success |
| PeerStore.FailedParkHandsRecordsOver | src/chainremote_auth.rs:464-490 | a failed parking, two switches without any failure: the second account gets the records of the first, which gets none |
| PeerStore.PeerFolders.SwapPeerStore | src/chainremote_auth.rs:458-490 | the folders after a switch, for every combination of file errors |
| PeerStore.PeerFolders.ResetPeersIfAccountChanged | src/chainremote_auth.rs:434-446 | nothing for the same account, no swap for the first, owner advanced otherwise |
| Firewall.ReportsNeverExceedDisarms | src/chainremote_firewall.rs:58-66 | under every interleaving successful reports, plus one if due, never exceed disarms; the panel counts more only where replies were lost |
| Firewall.PendingUntilReported | src/chainremote_heartbeat.rs:470-485 | a pending disarm stays so through any failed beats until a flagged beat succeeds |
| Firewall.OneDisarmReported | src/chainremote_heartbeat.rs:470-485 | one disarm and one beat: counted once on both sides, counted by the panel alone when the reply is lost, due again otherwise |
| Firewall.LandingInFlightLostIff | src/chainremote_heartbeat.rs:578-581 | a disarm landing under a beat that succeeds is lost exactly when that beat was flagged |
| Firewall.InFlightDisarms | src/chainremote_heartbeat.rs:578-581 | the same for any number of disarms during one beat |
| Firewall.Flags.PeekForBeat | src/chainremote_heartbeat.rs:470-485 | a beat carries the flag exactly when it is regular and a disarm is pending; a step of the protocol |
| Firewall.Flags.Acknowledge | src/chainremote_heartbeat.rs:578-581 | a beat that succeeds puts the flag down only if it carried it; a step of the protocol |
| Firewall.Flags.WatchOnce | src/chainremote_firewall.rs:76-97 | disarms exactly when control is on, the firewall is on and netsh worked, which is then a step of the protocol, and no step otherwise |
| Firewall.Flags.SetControl | src/chainremote_firewall.rs:42-51 | the cached state always lets a restart come up as the last reply asked |
| Direct.RetryBound | src/chainremote_direct.rs:66-86 | on a clock that does not go back k retries with the full window and no direct connection between them span at least (k-1) times 6 h |
| Direct.StampHoldsSixHours | src/chainremote_direct.rs:80-86 | after a stamp the window is due again exactly when 6 h have passed or the clock stands before the stamp |
| Direct.AttemptExactly | src/client.rs:665-681 | one attempt in full: it takes the long window exactly if a failure, however many, is recorded and its stamp is missing, unreadable, ahead of the clock or six hours old; stamp and record afterwards |
| Direct.PeerConfig.Stamp | src/chainremote_direct.rs:67-75 | inserts or removes the stamp and nothing else |
| Direct.PeerConfig.IsRetryDue | src/chainremote_direct.rs:80-86 | missing or unreadable stamp, clock before the stamp, or 6 h passed |
| Direct.PeerConfig.Connect | src/client.rs:665-681 | when an attempt takes the full window again and what it records |
| Decimal.RoundTrip | src/chainremote_direct.rs:71-81 | every u64 printed in decimal is parsed back |
| Decimal.ParsesExactly | src/chainremote_direct.rs:71-81 | what exceeds u64 is refused, one plus sign is passed over, nothing but digits is read |

## Left out

- HTTP, JSON, registry and WinAPI access and log text: messages that may be lost, trees and maps stand for them.
- Of the panel the columns of one customer for close request, window end, cleanup request and token are modelled; enrolment by shop name, transfers between customers, rate limits and the user interface are not part of this model.
- RedeliveryNeverCloses: a report is recorded before the agent gives up on it or not at all; requests made at different moments differ.
- TwoBeatsCloseForGood: as for RedeliveryNeverCloses.
- HandleSchedClose: the process dies, if it does, between clearing the marker and remembering the request; the writes themselves are whole.
- Every operation on the window marker is one step, also when several processes use it. In the source a session note reads the file and then writes it, so it can write back a window that was cleared, or replaced by a new grant, in between.
- Deleting the marker never fails here; the source ignores a failure, and the window then stays.
- LiveWindowTicksWithinAMinute: time is sleep only; what a tick itself takes, HTTP timeouts included, is not counted, and the choice of the nap and its first look are one reading of the window.
- CloseTakesEffectWithinTwoMinutes: as for LiveWindowTicksWithinAMinute, and for two ticks without losses; what losses do is the subject of TwoBeatsCloseForGood. The looks of a nap read the window here; that a look also drops a window that has ended is said by adding it to the events of the nap.
- Sched.MarkerFile.Grant: the log line it returns is not modelled; an unreadable or unwritable marker file is not either.
- TempCleaner.Cleaner.CleanDir: the tree is a value that is passed in and returned, the counters are updated in place; files changed by others during the sweep, links and hard links are not modelled.
- SizeScan.Scanner.DirSize: how long one look or one entry takes is not modelled; sums are unbounded.
- SizeScan.Scanner.MeasuredTopDirs: the standard library's sort is an insertion sort here; parent folders are given as a list; label components come from the folder and its parent.
- Migrate.Installer.CopyDir: the parents of the target root exist already; a file is copied whole or not at all; names compare by case.
- Migrate.Installer.MigrateOnce: killing old processes, the autostart key and the shortcuts are left out; whether deleting the service works is a parameter.
- EveryValueArrives: sub-keys without values get no statement of their own beyond the operations `CopyKey` performs.
- RerunCompletes: which entries cannot be read or written is the same in both runs.
- LoginConservesRecords: folder names compare by case, as NTFS does not; a folder is removed or renamed as a whole or not at all.
- ReportsNeverExceedDisarms: the atomics are sequentially consistent single steps; the notification policy and the registry are left out.
- RetryBound: full windows of peers with no recorded failure are not retries and are not limited by the source either.
- HandledRequestDrainedIff: requests and results are texts whose times the panel reads; that a newer click replaces an older one is the panel's single column. The reports of one tick follow one another, as in the source.
- RunDiskCleanup: the size and the number of items in the bin are not negative.
- ManualCleanupRunsOnce: it supposes that the panel never goes back to an older request after a newer one; `ClearsOnceIff` says that this is needed.
- The VAN and UPnP watchers, `chainremote_data.rs`, the seat logic of `chainremote_auth.rs`, the updater and the push agent: last-write-wins caches and wrappers, or code whose server side is not part of this model.
