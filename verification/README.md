# Verified protocols of OpportunityRadar

OpportunityRadar keeps companies, jobs and applications in one SQLite file, lets one mutating
operation run at a time, drives one Chromium process, and mails a digest of what changed. This
project models the parts of its backend on which that safety rests, as they are written, and
proves what they promise. Each Dafny file stands for one component:

| file | component |
|---|---|
| RestoreProtocol.dfy | restoring a backup over the live database file |
| RunProtocol.dfy, RunManager.dfy | the mutation gate and the utility run manager: the interleavings, and the classes themselves |
| BrowserLease.dfy, BrowserBoundary.dfy | the single-Chromium launch lease: the interleavings, and the class itself |
| ProcessTree.dfy | the process-tree closure and the reaper |
| DigestLedger.dfy | the email digest and its checkpoint ledger |
| Schedulers.dfy | the daily occurrences of the maintenance scheduler |
| EmailSchedule.dfy | the daily occurrences of the email digest, and the saves of its settings |
| CompanyNames.dfy | unique company names with tolerated legacy duplicates |
| JobStore.dfy | job preparation and replacement |
| Redirects.dfy | the manual redirect follower |
| JsonNesting.dfy | the nesting scanner in front of the JSON parser |
| ProxyHeader.dfy | reception of a proxy request header |
| CompanyDedupe.dfy, SpreadsheetText.dfy | deduplication of spreadsheet companies |
| RefreshGroups.dfy, LookupQueue.dfy | grouping of companies for one lookup, and the worker queue |
| ReadinessCache.dfy | the single-flight readiness cache |
| Text.dfy, Grouping.dfy, Buckets.dfy, Wrappers.dfy | text order and normalization, grouping and sorting, dictionaries of lists, options |

## How to read the models

An object that updates its fields is a class with those fields; a loop is a loop. Whatever the
outside world decides - a file operation that fails, a database error, a process that dies, a
DNS answer, the size of a received chunk, the order in which workers finish - is an arbitrary
choice (`:= *`), so a contract holds for every such decision. Where a result depends on such a
choice, the choice is returned or counted (`ended`, `broke`, `faults`), and the contract says what
follows from each, above all what happens if nothing fails. Concurrency appears in two forms.
RunProtocol and BrowserLease are transition systems whose lemmas range over every sequence of
enabled steps; the classes in RunManager and BrowserBoundary are proved to move only by those
steps. In EmailSchedule other threads act between any two statements, as far as the gate lets
them. ReadinessCache is a class whose methods are the sections under its condition variable.

Calls into code outside the repository are parameters: the content that SQLite finds in a base
file and its log, and an injective digest (`Engine`); `str.casefold` per character (`Folding`);
`urlsplit`, `urljoin`, `str.lower`, `str.isalnum`, `str` and `normalize_confidence` (`Library`);
SHA-256 prefixes of job identifiers; the wall clock of a time zone. Uuids are fresh identifiers
passed in. Clocks are integers.

Some properties one would expect are false of the code. The project keeps the code as it is,
shows the failure and proves when the property holds:

- A lease that is free does not mean that the browser's processes are dead: a disconnect event
  releases without proof (`DisconnectFreesALiveTree`), a failed launch releases whether or not its
  orphans could be reaped (`FailedLaunchFreesALiveTree`), and a proven close looks only at the
  processes recorded once, at construction (`CloseFreesALiveTree`). `FreeLeaseMeans` shows that
  nothing else is left: all launched processes are dead exactly if these three kinds are.
- A held lease can be lost for good: when a disconnect comes before the browser is current, and
  when an exception comes between the launch and the installation (`LeaseCanBeStranded`); exactly
  then (`ReleasableUnlessStranded`).
- A reader of the database file can find something that is neither the old database nor the backup.
  Up to the switch that is the old base file without its log, and only over a target that failed
  its inspection (`UninspectedLogWitness`); `Restore` says exactly when. After the switch it is
  every rollback of a target that was stopped with a log, inspected or not: the base goes back
  first and its log is written behind it, so each front of the log shows (`RollbackTearsWitness`).
  `Restore` says exactly what a completed rollback shows, when that is harmless, and that a failed
  one shows nothing else.
- A maintenance job can start twice on one date when the started run cannot be read back, or when
  the local date goes back (`StartedTwice`); otherwise it cannot (`StartsOncePerDate`), and it is
  due again exactly if its claim was released (`DueAgainIffReleased`).
- A refused maintenance job does not always wait for the next poll. The occurrence is lost if a
  save of the email settings moves the schedule to another time zone between claim and release,
  because the release then matches nothing, and if the release meets a database error or is never
  reached (`RefusedAndLost`). It is due again exactly if the release ran and no such save came in
  between (`RefusedIsDueAgainIff`). The save holds the gate, so it can be the very operation for
  which the job was refused.
- The digest of a date can be claimed twice if the schedule moves to a zone where it is still
  yesterday (`ClaimedTwice`), and only if another date was written in between (`ClaimedAgain`);
  while the local date does not go back it cannot (`DigestOncePerDate`).
- Readers can believe something else than what is stored: a mail may reach a reader although
  sending raised, because another recipient was refused or the connection broke late, and a mail
  that left may fail to be recorded. A reader is wrong about exactly the jobs that such a mail
  mentioned and no recorded mail has mentioned since (`ReaderIsWrongExactly`); a job that was added,
  told and gone before the next digest stays wrong (`ToldAndGone`).
- A company name can lose its indexed row while other companies carry it: exactly when its owner
  is deleted or renamed while another company has the name, and then as long as another company
  has it or until the next start (`StrandsExactly`, `RenamingStrands`). No operation adds a second
  holder.
- A refresh group can mix filing names when an identifier or a domain contains the separator of
  the dictionary keys, and mix a nameless record with a named one when the former's identifier is
  the latter's normalized name (`NamesCanMix`). `MixedNamesExactly` shows that nothing else does.
- A job's identifier is not its own: two jobs with one legacy id that swap places between two
  replacements trade it, and the application filed under it with it (`SwappedJobsTradeIdentifiers`).
  `IdentifierKeptExactly` says when a job keeps its identifier.

## Model

| member | source | states |
|---|---|---|
| RestoreProtocol.UninspectedLogWitness | backend/backup_restore.py:299-332 | a concrete target whose bare base file is neither the old database nor the backup, so inspection before detaching the log is needed |
| RestoreProtocol.RollbackTearsWitness | backend/backup_restore.py:742-765 | a target for which a rollback shows the bare base and a front of the log, neither of them old nor new |
| RestoreProtocol.WritingIsTorn | backend/backup_restore.py:757-765 | writing the preserved log back shows the base behind exactly the fronts of the log |
| RestoreProtocol.TargetDirectory.Rename | backend/backup_restore.py:330-332 | a rename moves the whole content or nothing, and each outcome is recorded as visible to a reader |
| RestoreProtocol.TargetDirectory.CheckpointForSwitch | backend/backup_restore.py:671-692 | a truncating checkpoint keeps the logical content and, on success, leaves an empty log |
| RestoreProtocol.TargetDirectory.PreserveRawFileset | backend/backup_restore.py:787-856 | on success the preserved directory holds base, wal and shm byte for byte, including absence |
| RestoreProtocol.TargetDirectory.RestoreQuarantined | backend/backup_restore.py:775-784 | recorded sidecars go back one by one, whatever fails; each is back or still in quarantine, and all are back if no rename failed |
| RestoreProtocol.TargetDirectory.QuarantineSidecars | backend/backup_restore.py:695-712 | no canonical sidecar is left on success; even after a failed mode change the bytes of the log and of the shared-memory file are there; a reader sees the old or the bare database only |
| RestoreProtocol.TargetDirectory.PrepareTarget | backend/backup_restore.py:290-324 | preserve, inspect and checkpoint leave the logical content as it was, and an inspected target has an empty log |
| RestoreProtocol.TargetDirectory.Rollback | backend/backup_restore.py:722-772 | success means the fileset equals the preserved one byte for byte, including absent files; what a reader finds on the way, on success and on failure |
| RestoreProtocol.TargetDirectory.DiscardOrRetain | backend/backup_restore.py:338-344 | after success every quarantined sidecar is removed or, if that fails, kept and reported |
| RestoreProtocol.TargetDirectory.RestoreSidecarCopies | backend/backup_restore.py:757-765 | the fileset equals the preserved one once every sidecar is copied back; the copies show the fronts of the log and nothing else |
| RestoreProtocol.TargetDirectory.StageAndPrepare | backend/backup_restore.py:280-324 | from any directory, leftovers of an earlier restore included: up to the truncated log nothing but the old database has ever been visible, and the stage holds the backup |
| RestoreProtocol.TargetDirectory.ReachSwitch | backend/backup_restore.py:280-332 | after any step up to the switch a reader finds the old database, its bare base file or the backup; the bare file only if the target was not inspected |
| RestoreProtocol.TargetDirectory.FinishSwitched | backend/backup_restore.py:333-361 | verification ends in success, which shows nothing new, or in a rollback to the preserved fileset; without a failure it succeeds and leaves no recorded sidecar, and one failure is rolled back |
| RestoreProtocol.TargetDirectory.FinishRefused | backend/backup_restore.py:362-367 | before the switch the base is untouched and no log with content is lost, even when renaming back fails; if none fails every recorded sidecar is back under its name |
| RestoreProtocol.TargetDirectory.Restore | backend/backup_restore.py:231-388 | it succeeds if no step fails; success is the backup alone; a reported rollback is the stopped fileset; a failed rollback takes two failures and keeps the raw fileset. What a reader can find: up to the switch the old database or the backup, exactly if the target was inspected or its bare base is one of the two; in a completed rollback exactly these and every front of the log behind the old base; in a failed one no more |
| OperationGate.MutationGate.Acquire | backend/operation_gate.py:107-130 | a lease is given exactly if the gate accepts and is free; a conflict changes nothing |
| OperationGate.MutationLease.Release | backend/operation_gate.py:85-90 | idempotent, and only the active operation's own release empties the gate |
| RunProtocol.StepKeepsInv | backend/utility_runs.py:89-345 | every step of every thread keeps the protocol's invariant, whatever the database does |
| RunProtocol.RunKeepsInv | backend/utility_runs.py:89-345 | so does every run |
| RunProtocol.OneInsideGate | backend/operation_gate.py:107-136 | in every interleaving at most one operation is inside the gate and the gate names it |
| RunProtocol.BodyIsInsideGate | backend/utility_runs.py:234-345 | a worker body, and everything it still owes, happens inside the gate |
| RunProtocol.ReleasedExactlyOnce | backend/utility_runs.py:93-135 | each acquired lease empties the gate at most once, exactly once by the time its thread is gone |
| RunProtocol.StaleReleaseFreesNobody | backend/operation_gate.py:85-136 | a release after the lease is spent changes nothing; one that empties the gate was the holder's |
| RunProtocol.ActiveRowBelongsToHolder | backend/utility_runs.py:246-264 | an active row belongs to the lease holder unless its terminal write failed |
| RunProtocol.NothingStranded | backend/utility_runs.py:285-345 | while writes succeed no run leaves a row behind in an active status |
| RunProtocol.OneActiveRow | backend/utility_runs.py:434-464 | from a reconciled table and with writes succeeding at most one row is active, the holder's |
| RunProtocol.StepAdvancesRows | backend/utility_runs.py:199-211 | a step moves a row only forward |
| RunProtocol.RowsOnlyAdvance | backend/utility_runs.py:285-321 | terminal rows never change and Cancelling never returns to Running, over any run with crashes |
| RunProtocol.CrashSettlesRows | backend/utility_runs.py:370-389 | after a crash anywhere in any run and any continuation, rows that were active stay Failed, all others stay as they were, and an active row is of a later run |
| RunProtocol.ShutdownSignalsEveryone | backend/utility_runs.py:213-227 | after the locked section no start succeeds until re-accepting, and every registered run is signalled |
| RunProtocol.RunStaysShutDown | backend/utility_runs.py:213-232 | a shutdown stays in force over every run without re-accepting |
| RunManager.UtilityRunManager.Start | backend/utility_runs.py:89-135 | start moves by protocol steps; while nothing fails a run is started exactly if manager and gate accept and gate and job key are free, and then its row is Queued and its event registered. A failure before the worker starts returns the gate, one of the final read does not stop the worker |
| RunManager.UtilityRunManager.LaunchHeld | backend/utility_runs.py:94-135 | with the gate taken a run is launched exactly if its job key is free and neither the database nor the thread fails; otherwise the gate goes back |
| RunManager.UtilityRunManager.Execute | backend/utility_runs.py:234-345 | a worker thread moves by protocol steps only, ends with its lease released and changes one status: without a failure Cancelled if its event was set before, else what the end of its body earns it; after one failed access Failed; after two it is stranded |
| RunManager.UtilityRunManager.FinishSection | backend/utility_runs.py:285-321 | a body that raised ends Failed, one that was interrupted or returned under a set event Cancelled, any other Completed; the row becomes this status exactly if the write succeeds, and nothing else changes |
| RunManager.UtilityRunManager.CancelRun | backend/utility_runs.py:199-211 | cancelling sets the event of a Queued or Running run and moves its row, if the write succeeds; nothing else changes |
| RunManager.UtilityRunManager.Shutdown | backend/utility_runs.py:213-227 | the locked section is followed by a signal to every event registered at that time |
| RunManager.MarkInterruptedRuns | backend/utility_runs.py:371-389 | exactly the active rows become Failed |
| RunManager.ReconcileInterruptedRuns | backend/utility_runs.py:434-464 | active rows become Failed, no other row changes and the count is theirs, unless a database error leaves the table as it was with a count of zero |
| BrowserLease.StepKeepsInv | backend/outbound_security.py:838-1037 | every step of launch, failed or interrupted launch, close, disconnect and reclaim keeps the lease invariant |
| BrowserLease.OneOwner | backend/outbound_security.py:973-1037 | the lock is held exactly when a launch or a current browser owns it or an interrupted launch gave it up, and only one of these is so |
| BrowserLease.ReleasedOncePerAcquisition | backend/outbound_security.py:855-891 | in every run each acquisition is released at most once, by its own browser or its own failed launch |
| BrowserLease.SupersededForever | backend/outbound_security.py:1543-1560 | a browser that stopped being current never becomes current again, and none of its late releases changes lock or owner |
| BrowserLease.OnlyTheOwnerUnlocks | backend/outbound_security.py:855-891 | only the current browser's own release or a failed launch frees the lock |
| BrowserLease.ReleasedTreesAreDead | backend/outbound_security.py:1602-1619 | a release by close or reclaim implies every recorded pid and start time dead, for good |
| BrowserLease.DeadStaysDead | backend/outbound_security.py:1087-1105 | an identity seen dead is never alive again |
| BrowserLease.FreeLeaseMeans | backend/outbound_security.py:855-891 | in every run a free lease means that all browsers are released and, unless disconnected, all they recorded is dead; all launched processes are dead exactly if the orphans of launches, the recorded ones of disconnected browsers and all unrecorded ones are |
| BrowserLease.DisconnectFreesALiveTree | backend/outbound_security.py:1540-1541 | a run in which a disconnect frees the lease of a living tree |
| BrowserLease.FailedLaunchFreesALiveTree | backend/outbound_security.py:876-884 | a run in which a failed launch frees the lease while an orphan lives |
| BrowserLease.CloseFreesALiveTree | backend/outbound_security.py:1530-1538 | a run in which a proven close frees the lease while a process started after the snapshot lives |
| BrowserLease.ReleasableUnlessStranded | backend/outbound_security.py:885-891 | a held lease can ever be released if and only if its launch was not interrupted and no release of its browser had finished before that became current |
| BrowserLease.LeaseCanBeStranded | backend/outbound_security.py:885-891 | a run for each of the two |
| BrowserBoundary.LaunchBoundary.AllRecordedDead | backend/outbound_security.py:1104-1105 | the answer is positive if all recorded identities were dead before, and only if all are dead afterwards, though the checks are not a snapshot |
| BrowserBoundary.LaunchBoundary.Release | backend/outbound_security.py:1543-1560 | idempotent; frees the lock exactly if the browser is current and unreleased |
| BrowserBoundary.LaunchBoundary.Close | backend/outbound_security.py:1562-1632 | close frees the lease of the current, unreleased browser exactly if its disconnect fires inside or its recorded tree is found dead and the guard has finished; a tree that is dead already and a finished guard suffice |
| BrowserBoundary.LaunchBoundary.ReapTree | backend/outbound_security.py:1232-1260 | likewise over up to three looks: a tree that is dead is never reported alive, a living one never dead |
| BrowserBoundary.LaunchBoundary.TryReclaim | backend/outbound_security.py:1013-1037 | reclaim frees the lease only of a holder with recorded, dead identities, and of every such holder if no other Chromium runs |
| BrowserBoundary.LaunchBoundary.AcquireLease | backend/outbound_security.py:983-1010 | a lease is given on a free lock and after a reclaim, whenever the holder can be reclaimed; otherwise the lock was held and stays so |
| BrowserBoundary.LaunchBoundary.Launch | backend/outbound_security.py:838-891 | refused only while the lease is held by a holder that cannot be reclaimed; a failed launch gives the lease back and may leave orphans; an interrupted one strands it; a successful one leaves it with the new browser, releasable exactly if no disconnect came before it was current |
| BrowserBoundary.LaunchBoundary.ConstructLeased | backend/outbound_security.py:1502-1519 | a disconnect between construction and installation spends the browser's release, and exactly then it is too early; the lock is not freed |
| ProcessTree.DescendantPids | backend/outbound_security.py:1122-1138 | the fixpoint is exactly the roots and the pids whose parent chain reaches a root |
| ProcessTree.ProcessTable.LiveRecorded | backend/outbound_security.py:1104-1105 | what is not reported live is gone for good, and what is reported was not gone before |
| ProcessTree.ProcessTable.ReadParents | backend/outbound_security.py:1122-1128 | a reading of /proc lists every process that lives all the while, and nobody under a parent that it never had |
| ProcessTree.ProcessTable.SignalLiveTree | backend/outbound_security.py:1219-1229 | a round of signals starts from every recorded root that is not over and reaches exactly the processes below them; it is left out only if all are over |
| ProcessTree.ProcessTable.Reap | backend/outbound_security.py:1232-1260 | true only when all recorded identities are dead; nothing is signalled when none is alive; first SIGTERM, then SIGKILL, and both before it gives up |
| DigestLedger.ReplayConcat | backend/email_service.py:513-543 | replaying two stretches of the ledger one after the other is replaying them together |
| DigestLedger.ConsistentAlternates | backend/email_service.py:525-538 | entries about one job alternate between added and removed, starting from its baseline membership, and their parity tells membership |
| DigestLedger.DifferenceReplays | backend/email_service.py:254-256 | what the rows of a difference do to any key set |
| DigestLedger.DifferenceConsistent | backend/email_service.py:254-256 | every row of a difference is a real change of the previous snapshot |
| DigestLedger.ReaderCatchesUp | backend/email_service.py:254-286 | a reader is right after the next mail exactly if no job he is wrong about needs a mention he will not get |
| DigestLedger.WrongExactly | backend/email_service.py:271-286 | over any sequence of mails: wrong about a job exactly if an unrecorded mail mentioned it and no recorded one did since |
| DigestLedger.MailMovesWrong | backend/email_service.py:254-286 | what one mail, recorded or not, does to a reader's agreement with the snapshot |
| DigestLedger.ToldAndGone | backend/email_service.py:254-286 | a job told in an unrecorded mail and gone before the next digest is never taken back |
| DigestLedger.NothingToReport | backend/email_service.py:255-263 | both lists are empty exactly if the key sets agree |
| DigestLedger.EmailLedger.LedgerTelescopes | backend/email_service.py:486-543 | over any run the stored keys are the baseline with all ledger rows applied in order, and every history alternates |
| DigestLedger.EmailLedger.ReaderIsWrongExactly | backend/email_service.py:227-286 | the same over every run of the ledger itself |
| DigestLedger.EmailLedger.StoreBaseline | backend/email_service.py:486-511 | the baseline is stored whole or not at all |
| DigestLedger.EmailLedger.AdvanceCheckpoint | backend/email_service.py:513-543 | ledger and snapshot move together or not at all, and the ledger still explains the snapshot |
| DigestLedger.EmailLedger.Deliver | backend/email_service.py:265-286 | a failed send moves neither ledger nor snapshot, though the mail may have reached a reader; every mail tells the whole difference |
| DigestLedger.EmailLedger.ReportChanges | backend/email_service.py:254-286 | nothing is sent exactly if both lists are empty; otherwise one mail with the whole difference |
| DigestLedger.EmailLedger.SendJobDigest | backend/email_service.py:227-286 | the outcome follows from switch, configuration, checkpoint and key sets: Disabled, ConfigurationFailed exactly without configuration, a baseline exactly without a checkpoint, NoChanges exactly for equal key sets, otherwise sent or failed; only a recorded baseline or mail moves ledger and snapshot, and what a reader believes changes exactly by the mail that reached him |
| Schedulers.ClaimHolds | backend/maintenance_scheduler.py:213-240 | the claim of a start stays in force while local dates do not go back |
| Schedulers.StartsOncePerDate | backend/maintenance_scheduler.py:141-211 | two starts of a job are on different dates unless the first could not be read back and its claim was released |
| Schedulers.DueAgainIffReleased | backend/maintenance_scheduler.py:187-209 | a job is due again on its date exactly if the claim was refused or released, as after a gate conflict |
| Schedulers.StartedTwice | backend/maintenance_scheduler.py:202-209 | both conditions of once per date are needed |
| Schedulers.ResavedExactly | backend/email_service.py:180-183 | settings saves change a schedule's zone and stamp only, and leave it untouched exactly if they all keep its zone |
| Schedulers.RefusedIsDueAgainIff | backend/maintenance_scheduler.py:187-209 | a refused start is due again on its date exactly if the release ran and no settings save moved the schedule's zone since the claim |
| Schedulers.MaintenanceScheduler.Claim | backend/maintenance_scheduler.py:213-240 | one conditional update that succeeds exactly on the observed row and date, unless the database fails |
| Schedulers.MaintenanceScheduler.Release | backend/maintenance_scheduler.py:242-256 | undoes exactly the marked claim, and says whether the row still carried it |
| Schedulers.MaintenanceScheduler.RunJob | backend/maintenance_scheduler.py:144-210 | one job's turn, with failures and settings saves anywhere: nothing happens exactly if the listed row is not due; the claim takes the listed row only; every start that raised is followed by a release, and the claim is given back exactly if that met no database error and no save moved the zone since |
| Schedulers.MaintenanceScheduler.RunDueOnce | backend/maintenance_scheduler.py:141-211 | a cycle gives every listed job one turn with its registry entry and local time; a turn that raised is the last, and exactly then the cycle has raised; other rows change by settings saves only |
| EmailSchedule.LastWritten | backend/email_service.py:137-168 | the stored date is always the one that was written last, by a claim or by a save that passes today over |
| EmailSchedule.DueExactly | backend/email_scheduler.py:110-123 | after any run of claims, saves and stamps an occurrence is due exactly on an enabled weekday, once its time is reached, unless the date written last is today |
| EmailSchedule.ClaimedAgain | backend/email_service.py:400-415 | a date is claimed again only if another date was written in between |
| EmailSchedule.DigestOncePerDate | backend/email_scheduler.py:61-123 | whatever saves come in between, a local date is claimed at most once while dates do not go back |
| EmailSchedule.ClaimedTwice | backend/email_scheduler.py:110-119 | moving the zone back a day claims one date twice |
| EmailSchedule.EmailScheduler.OthersAct | backend/operation_gate.py:107-136 | other threads change settings, jobs and ledger only while they hold the gate, so nothing changes while this operation holds it |
| EmailSchedule.EmailScheduler.SaveSettings | backend/email_service.py:96-213 | behind its endpoint a save keeps the checkpoint it writes back, refuses exactly without days, without a known zone or for another column, and makes an occurrence due at once exactly if the schedule was enabled before |
| EmailSchedule.EmailScheduler.ClaimScheduled | backend/email_service.py:400-415 | one conditional update on switch, date, time, zone and stamp; the days are not compared |
| EmailSchedule.EmailScheduler.SendHolding | backend/email_scheduler.py:84-89 | the jobs are read under the lease, the recorded snapshot equals the jobs that are there afterwards, and the outcome is the one that configuration, checkpoint and key sets decide |
| EmailSchedule.EmailScheduler.RunHolding | backend/email_scheduler.py:75-89 | from the lease on, exactly what is due in the settings read again is claimed unless the database fails, nothing is lost to an edit, and the gate is given back on every path |
| EmailSchedule.EmailScheduler.RunDueOnce | backend/email_scheduler.py:61-89 | whatever is edited before the lease, the claim is for exactly what is due then; a busy gate leaves everything alone; a claimed digest fails for its configuration exactly if there is none and is never refused as disabled |
| Text.LeTotal | backend/db.py:441-444 | the text order behind ORDER BY is total |
| Text.LeTransitive | backend/db.py:441-444 | and transitive |
| Text.LeExactly | backend/db.py:441-444 | a text comes first if it begins the other or has the smaller character where they part |
| Text.NormalizeIgnoresStrip | backend/db.py:429-431 | stripping never changes a name's key, and only blank names have the empty key |
| Text.StripCutsSpace | backend/repository.py:181 | stripping cuts off exactly the white space around a text |
| Text.WordsKeepTheText | backend/db.py:431 | the words of a text put together are the text without its white space |
| Text.WordsSplitAtSpace | backend/db.py:431 | white space ends a word wherever it stands |
| Text.WordsOfJoin | backend/db.py:431 | joining words and splitting again gives the same words |
| Text.SameKeyExactly | backend/db.py:429-431 | two names have one key exactly if their words are the same up to case |
| Text.SameWordsWithoutFolding | backend/db.py:429-431 | under a folding that changes nothing, exactly if they have the same words |
| Text.CaseIsIgnored | backend/db.py:429-431 | names whose characters fold alike have one key |
| CompanyNames.BackfillIsIdempotent | backend/db.py:434-469 | names and creation dates alone determine the keys |
| CompanyNames.BackfilledIsSound | backend/db.py:434-469 | after a backfill keys are unique and every name has a keyed row |
| CompanyNames.KeyedRowIsOldest | backend/db.py:447-453 | after a backfill the keyed row of a name is the oldest that has it, by date and then identifier |
| CompanyNames.FirstRowOwns | backend/db.py:447-453 | the row setdefault prefers is the (created_at, id)-first of its name |
| CompanyNames.DesiredIsTheGoal | backend/db.py:445-453 | the dictionary built by the loop gives each name class exactly its first owner |
| CompanyNames.WriteKeepsNames | backend/repository.py:937-945 | a write under a free or unchanged name meets no index conflict and adds no second holder of a name |
| CompanyNames.OwnersMove | backend/repository.py:219-354 | after a write or deletion of one row, which names have a keyed row |
| CompanyNames.StrandsExactly | backend/repository.py:219-354 | a write or deletion strands a name exactly if it takes the key from its owner while another company has the name, and a stranded name with another holder stays so |
| CompanyNames.RenamingStrands | backend/repository.py:219-276 | a rename for which that happens |
| CompanyNames.CompanyRepository.Rows | backend/repository.py:917-926 | the query lists each wanted row once, in its order |
| CompanyNames.CompanyRepository.SetKey | backend/db.py:459-469 | an update of the key needs it to be free and keeps the index |
| CompanyNames.CompanyRepository.ClearStaleKeys | backend/db.py:457-462 | the first pass empties exactly the stale keys |
| CompanyNames.CompanyRepository.AssignOwners | backend/db.py:463-469 | the second pass never meets a taken key and gives every owner its key |
| CompanyNames.CompanyRepository.Backfill | backend/db.py:434-469 | no intermediate statement violates the index; owners are the first of their class; repeating it changes nothing |
| CompanyNames.CompanyRepository.InitializeSchema | backend/db.py:329-333 | creating the unique index cannot fail after the backfill |
| CompanyNames.CompanyRepository.Find | backend/repository.py:908-930 | finds a holder of the name exactly if one exists: a keyed one if there is any, and the oldest of these |
| CompanyNames.CompanyRepository.Create | backend/repository.py:178-217 | refused exactly for blank or taken names; otherwise one new row with its key |
| CompanyNames.CompanyRepository.Update | backend/repository.py:219-276 | refused exactly if another row has the new name and this one had not; keys stay sound, and which names have a keyed row afterwards |
| CompanyNames.CompanyRepository.Delete | backend/repository.py:343-354 | removes one row; a name loses its keyed row exactly if that was the one |
| CompanyNames.CompanyRepository.UpsertSnapshot | backend/repository.py:554-625 | the stored row exactly: a known id is updated, a known name absorbs the snapshot in the row Find prefers, otherwise a row is added; refused exactly for a blank name or a rename onto a taken one |
| CompanyNames.CompanyRepository.UpsertSnapshots | backend/repository.py:549-634 | a batch is applied source by source, each as one upsert of the table before it, or one source is refused and nothing is left of the batch; no second holder of a name is added |
| JobStore.CandidateInjective | backend/repository.py:419-422 | different ordinals give different identifiers |
| JobStore.AssignedIsDetermined | backend/repository.py:414-423 | the identifier is the legacy id or the first free candidate, hence unique |
| JobStore.PreparedIdsAreDistinct | backend/repository.py:404-429 | prepared identifiers are distinct for any input |
| JobStore.PreparationIsDetermined | backend/repository.py:404-429 | the incoming jobs alone fix every identifier |
| JobStore.KeptExactly | backend/repository.py:409-413 | skipped are exactly the jobs without an identifier or with a blank title; the others stay as often as they came |
| JobStore.PreparedSays | backend/repository.py:424-428 | each prepared job is its source, under its own legacy id and its resolved company |
| JobStore.DistinctLegacyIdsAreKept | backend/repository.py:411-415 | jobs with different legacy ids keep them |
| JobStore.SameIdentifierExactly | backend/repository.py:414-423 | after different used sets a job gets the same identifier exactly if neither was taken on the other side |
| JobStore.IdentifierKeptExactly | backend/repository.py:409-424 | between two lists of jobs a job keeps its identifier exactly if no job before it has its old one now or had its new one then |
| JobStore.SwappedJobsTradeIdentifiers | backend/repository.py:409-424 | two jobs of one legacy id that swap places trade the identifier |
| JobStore.ResolvedCompanyExists | backend/repository.py:405-427 | a job keeps a company that exists; otherwise it gets the last company of its company's name, up to case, and none exactly if there is none |
| JobStore.UpsertedRow | backend/repository.py:820-846 | a prepared job ends up as a row with its legacy id, company, title, status and content; a known row keeps when it was first seen and created, a new one gets its own dates or now |
| JobStore.ReplacementKeepsApplied | backend/repository.py:849-870 | what is left is the prepared jobs, the rows out of scope, and applied rows, archived if unmentioned |
| JobStore.ReplacementIsIdempotent | backend/repository.py:378-402 | replacing by the same jobs again changes nothing |
| JobStore.JobRepository.NextId | backend/repository.py:414-422 | the ordinal search ends and finds the first free identifier |
| JobStore.JobRepository.PrepareJobs | backend/repository.py:404-429 | skips unusable jobs, keeps order, resolves companies and gives distinct identifiers |
| JobStore.JobRepository.PruneMissingJobs | backend/repository.py:849-870 | no application is lost, an empty scope prunes nothing, and other companies' jobs stay |
| JobStore.JobRepository.ReplaceJobs | backend/repository.py:378-402 | every row after a full or scoped replacement, column by column: incoming jobs overwrite or create theirs, unmentioned rows in scope are archived if applied and deleted if not, all others stay, and so do the applications |
| JobStore.JobRepository.UpsertJobs | backend/repository.py:387-393 | every incoming job overwrites or creates its row, column by column; no other row changes |
| Redirects.NoCredentialAfterCrossing | backend/outbound_security.py:472-486 | after a cross-origin hop no request or session credential is sent again, even back on the first origin |
| Redirects.RewrittenStaysBodyless | backend/outbound_security.py:538-565 | a method rewritten to GET stays GET without body or body headers |
| Redirects.ParametersOnlyOnce | backend/outbound_security.py:480-483 | query parameters of caller and session go out with the first hop only |
| Redirects.CredentialsStayAtHome | backend/outbound_security.py:472-486 | on one origin every hop carries the credentials of session and request, in headers or not |
| Redirects.OthersSurvive | backend/outbound_security.py:530-565 | along a chain no argument and no header is lost but credentials, query parameters and, once the method has changed, the body; nothing is added |
| Redirects.MethodsAreKeptOrBecomeGet | backend/outbound_security.py:545-552 | the method rules of section 15.4 of RFC 9110: 307 and 308 keep it, HEAD is never rewritten |
| Redirects.OnlyValidatedUrls | backend/outbound_security.py:440-452 | every hop of a chain goes to the URL that validation accepted since the hop before it |
| Redirects.HopsFollowAnswers | backend/outbound_security.py:456-486 | every hop but the first follows a redirect to where that points, with the method it asks for |
| Redirects.Session.SendHop | backend/outbound_security.py:489-527 | the session is as before after every hop, also when the sender raises |
| Redirects.Session.Attempt | backend/outbound_security.py:440-452 | a refused URL is not sent to; otherwise one hop is sent, to the URL validated just before |
| Redirects.Session.Request | backend/outbound_security.py:420-486 | at most limit + 1 hops, each following the last redirect, with the history of responses; blocked exactly if validation refused the URL that came next |
| JsonNesting.EnforceNestingLimit | backend/import_security.py:122-143 | the loop is the character-by-character scan |
| JsonNesting.ScanConcat | backend/import_security.py:127-143 | scanning a concatenation is scanning its parts |
| JsonNesting.ScanFollowsStructure | backend/import_security.py:122-143 | over any legal text of a value the scanner rejects exactly if nesting exceeds the limit, and otherwise ends as it began |
| JsonNesting.DocumentRejectedIffTooDeep | backend/import_security.py:106-112 | a document is rejected exactly if its value nests deeper than 64 |
| ProxyHeader.FindMarker | backend/browser_egress_proxy.py:314-316 | the first end of a header, or none |
| ProxyHeader.MarkerIsStable | backend/browser_egress_proxy.py:313-323 | more bytes neither move nor hide the first marker |
| ProxyHeader.HeaderIsUnique | backend/browser_egress_proxy.py:310-323 | a stream has at most one header |
| ProxyHeader.Client.ReceiveHeader | backend/browser_egress_proxy.py:310-323 | the header is the shortest prefix with the marker, nothing received is lost, the buffer stays within the limit plus one |
| ProxyHeader.Client.AcceptHeader | backend/browser_egress_proxy.py:59-65 | whatever the chunks, a header is accepted exactly if its marker ends within 65536 bytes |
| SpreadsheetText.ComputeSlug | excel_tools.py:372-382 | the loop computes the slug |
| SpreadsheetText.SlugIsASlug | excel_tools.py:372-382 | a slug is alphanumeric words joined by single dashes, never empty |
| SpreadsheetText.SlugOfParts | excel_tools.py:372-382 | any other character ends a word; words keep their order, are linked by one dash, and only a text without words is unknown |
| SpreadsheetText.SlugIsStable | excel_tools.py:372-382 | a slug is its own slug |
| SpreadsheetText.CombineUniqueNotes | excel_tools.py:325-332 | the loop computes the combined cell |
| SpreadsheetText.NotesRoundTrip | excel_tools.py:325-332 | joining and splitting notes again gives the same notes |
| SpreadsheetText.CombinedIsTheUnion | excel_tools.py:325-332 | the combined cell stands for the duplicate-free union of both cells' notes |
| CompanyDedupe.SameKeyMeaning | excel_tools.py:335-339 | equal keys mean one domain, or none and equal name and state slugs |
| CompanyDedupe.SameKeyExactly | excel_tools.py:335-339 | rows of texts have one key exactly if they have one domain, or none and equal slugs of name and state |
| CompanyDedupe.TextsDecide | excel_tools.py:342-346 | what domain, slugs and identifier of such a row are made of |
| CompanyDedupe.NormalIsStable | excel_tools.py:240-255 | normalizing a normal row changes nothing |
| CompanyDedupe.NormalizedKeeps | excel_tools.py:240-255 | normalizing keeps every cell that says something and adds empty text elsewhere |
| CompanyDedupe.NormalizedFills | excel_tools.py:240-255 | missing names, discovery methods and verification marks get their defaults |
| CompanyDedupe.NormalizedIdentifies | excel_tools.py:248-249 | a missing identifier becomes that of the filled row |
| CompanyDedupe.MergeKeepsKey | excel_tools.py:289-302 | merging two rows of one key keeps the key |
| CompanyDedupe.MergeKeepsQuality | excel_tools.py:305-322 | a merge is lexicographically at least as good as both rows |
| CompanyDedupe.BetterRowWins | excel_tools.py:305-318 | a merge is filled from the row that is better at the first difference in job board, careers page, website, confidence and last check; of equals from the left one |
| CompanyDedupe.MergeFillsFromOther | excel_tools.py:289-302 | its other columns are the better row's and, where that has none, the other row's |
| CompanyDedupe.MergeKeepsConfidence | excel_tools.py:297-298 | the confidence of a merge is the higher one, of equals the left one |
| CompanyDedupe.MergedNotes | excel_tools.py:295-296 | a merge has exactly the notes of both rows, each once |
| CompanyDedupe.MergeIsNormal | excel_tools.py:289-302 | a merge of normal rows is normal |
| CompanyDedupe.MergeRows | excel_tools.py:289-302 | the column loop computes the merge |
| CompanyDedupe.DedupedIsSound | excel_tools.py:258-286 | output keys are distinct, names sorted, and every input row is absorbed by an output row |
| CompanyDedupe.DedupedInventsNothing | excel_tools.py:258-286 | every output key stems from an input row |
| CompanyDedupe.DedupedIsStable | excel_tools.py:281 | companies of one name keep their order |
| CompanyDedupe.DedupeIsIdempotent | excel_tools.py:258-286 | deduplicating twice changes nothing, not even the order |
| CompanyDedupe.DedupeCompanyRows | excel_tools.py:258-286 | the loops compute the deduplication, and input rows are output rows plus duplicates |
| Grouping.GroupedAbsorbs | excel_tools.py:263-273 | grouping keeps keys distinct and absorbs every row |
| Grouping.SortedByIsSorted | excel_tools.py:281 | the sort orders and permutes |
| RefreshGroups.KeyTextExactly | backend/utility_tasks.py:205-211 | two identities give one dictionary key exactly if they are equal or one swallows the other, which takes a separator inside an identifier or domain |
| RefreshGroups.ConfirmedExactly | backend/company_information.py:140-148 | a record confirms a domain exactly if it is verified and that is its only plausible domain |
| RefreshGroups.GroupsAreCoherent | backend/utility_tasks.py:188-212 | records of one group have one filing name exactly if their keys do not collide, and then at most one plausible domain between them |
| RefreshGroups.SameConfirmedDomainShares | backend/utility_tasks.py:189-212 | records of one name and one confirmed domain share a group |
| RefreshGroups.ShareExactly | backend/utility_tasks.py:189-211 | two records have one identity exactly if they have one filing name and fit one domain: confirmed for it, or nothing else plausible and it is the only one confirmed under the name |
| RefreshGroups.MixedNamesExactly | backend/utility_tasks.py:183-211 | a group mixes filing names exactly if keys collide, and name keys under one filing name exactly if a nameless record's id is the others' key |
| RefreshGroups.NamesCanMix | backend/utility_tasks.py:183-211 | two pairs of records for which these happen |
| RefreshGroups.FileByName | backend/utility_tasks.py:182-185 | the dictionary by name holds every record under its filing name, in order |
| RefreshGroups.FileByIdentity | backend/utility_tasks.py:187-212 | the dictionary by identity holds every record once, under its identity |
| RefreshGroups.CompanyRefreshGroups | backend/utility_tasks.py:181-235 | every record that needs information is in exactly one group, and groups plus skipped duplicates are the needing records |
| LookupQueue.CountersAddUp | backend/utility_tasks.py:388-394 | the four outcome counters sum to the number of results |
| LookupQueue.RefreshQueue.SubmitNext | backend/utility_tasks.py:91-104 | hands out the next group unless cancelled or exhausted, within the worker bound; if progress raises the group is taken and dropped |
| LookupQueue.RefreshQueue.Collect | backend/utility_tasks.py:111-143 | a finished lookup is dropped exactly if the cancellation interrupted it, reported once otherwise unless its result cannot be saved, and the pool is refilled |
| LookupQueue.RefreshQueue.Run | backend/utility_tasks.py:75-156 | for every completion order a run that completes uncancelled reports every group once; it fails exactly if a save or a progress report raised; counters sum to processedCount |
| Buckets.BucketsPartition | backend/utility_tasks.py:182-212 | the lists of a dictionary together hold every element as often as the source |
| ReadinessCache.Cache.Admit | backend/health.py:161-170 | a hit is the content of a check younger than the time to live; otherwise the caller checks alone or waits |
| ReadinessCache.Cache.Publish | backend/health.py:185-189 | the caller gets its own copy of the check, the cache another, and they share no component |
| ReadinessCache.Cache.Abandon | backend/health.py:179-183 | a raising checker leaves no entry and lets another caller check |
| ReadinessCache.Cache.Clear | backend/health.py:191-193 | clearing drops entries and leaves checks in flight alone |
| ReadinessCache.Cache.OneChecker | backend/health.py:161-189 | at most one caller checks a key |
| ReadinessCache.Cache.CallerChanges | backend/health.py:200-201 | changing a returned result or a component in it changes no cached one |
| ReadinessCache.ReadinessResult.Clone | backend/health.py:200-201 | a deep copy says the same and shares no object with the original |

## Left out

- SQLite itself: statements and transactions are atomic, a checkpoint keeps the logical content, and reading a database may rewrite its log. A crash is one of the process, not of the machine: what was written is there, and a copy arrives byte by byte from the front. Retention and pruning of backups, manifests and auxiliary files are not part of the model.
- Hashing and encryption: digests are injective; cookie and secret encryption, TLS and SMTP are external.
- RunManager: progress reports, run history and the summary text; wall-clock joins, which only bound how long a shutdown waits.
- BrowserBoundary: the hard-bounded driver calls and their asynchronous exceptions; a grace period is any number of looks.
- ProcessTree: the fields of /proc beyond parent, start time and state.
- DigestLedger: one reader is followed, who is a recipient throughout; the order inside sorted() and the display fields; job identities are opaque keys; a database error while writing the row of a digest that changes nothing.
- Schedulers: edits of a maintenance schedule start a new history; list_schedules' default rows for jobs without a stored schedule are disabled and never due.
- EmailSchedule: the columns of the settings that concern SMTP; the first row of the settings, and the save at startup, before the schedulers run.
- CompanyNames: the descriptive columns of a company and what a merge of two snapshots does to them; a uuid that is already taken.
- JobStore: the cascade from a deleted company to its jobs and applications, the fit results of deleted jobs, and SQLite's limit on bound variables; two database rows differ only by the columns named in `Job`.
- Redirects: the method is given in upper case; which URLs validation accepts, and the pinned transport behind it. Credentials are the arguments, session defaults and headers the code lists; other headers may carry secrets.
- JsonNesting.ScanFollowsStructure: literals are any text over the characters of numbers and of true, false and null, which includes all legal ones.
- ProxyHeader: parsing of the request line and of the header fields.
- CompanyDedupe: the values normalize_confidence refuses, such as infinity, and URLs that urlparse rejects; both raise in the source.
- CompanyDedupe.MergeRows: the grouping loop uses the function it computes.
- RefreshGroups: how a lookup works, which saved URLs count as plausible domains, what the merged lookup record is filled with and what saving does; the order of the resulting groups; records without an identifier, which the code files under their address in memory.
- ReadinessCache: the payload below its components; the checks themselves and the fairness of waking waiters.
- backend/migration.py, routes, collectors, scoring, resumes and the frontend are not part of this model.
