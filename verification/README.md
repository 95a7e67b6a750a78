# A model of the outbox job queue

This project models a transactional outbox: a fenced-lease job queue with batch handlers, and the idempotent
staging, fan-out and replay built on top of it. It states and proves what every run keeps, in Dafny 4.11.
`dafny verify dfyconfig.toml` checks all of it.

## What is modelled

**The fenced job table.** `JobTable` is a protocol: any number of workers send creates, claims, extensions, releases,
acknowledgements, reschedules, dead letters and batch finalizations, with any clock arguments. `RowHistory` gives a
row its history of effects, and `FenceSafety` proves the safety theorems over every list of calls. `StubRepo.Repo` is
the in-memory repository as a class that edits its slice in loops; each of its methods is proved to be one protocol
step, so every theorem about runs holds of it. `ClaimQueries` and `BoundedClaims` prove that the ways the SQL backends
select rows agree; `Finalization` and `Transactions` do the same for outcomes; `Exclusivity` says for how long a lease
keeps others out. `Timing` reads off the arguments of the calls when a row may be claimed, and proves that it is
claimed then and at no other time. `RetryBudget` derives the bound on retries from the service's own decision rule.

**The lease ledger and the reservation batch.** `LeaseLedger.Ledger` keeps a map of deadlines and a cached lower bound.
`LeaseSpec` is the same ledger without the cache, scanning everything, together with what becomes of the cached bound.
Each method is proved to leave exactly the ledger these describe. `Ownership` joins the ledger of one worker with the
job table: over every run of its own moves and of everyone else's calls, the table backs each deadline of the ledger
that is still ahead. `ReservationBatch` runs claimed jobs in order over the ledger and releases what was never started;
which handlers start, and what becomes of each job, is fixed by the inputs.

**Handler batches.** `Collector` fills a batch under count and byte limits, `BatchResult` checks a handler's answer
and turns it into outcomes, and `Settlement` secures the leases and writes them in one transaction. `ExecutionBatch`
composes these with the ledger and the tables into one batch, from its first claim to the release of what never
started. `Schedules` is the worker's alternation between single and batch work, and `Drain` is a state machine over
every interleaving of claims, drains, readiness stores and probes.

**Idempotent staging.** `Encoding` proves the identifying texts injective, `Registry` is the key registry over runs,
`Fanout` is canonicalization and dispatch, `Replay` is the replay of dead-lettered jobs, and `Lineage` follows replays
of replays.

Conventions: a time is a number of nanoseconds since the zero instant; identifiers and tokens are numbers with a nil
value; a text is a sequence of bytes. Clock readings, repository replies, cancellations, handler errors, new
identifiers and host decisions are parameters, so each theorem holds for all of them. A repository call is one atomic
step. A transaction is a step that happens whole or not at all. SHA-256, the version 5 UUID (section 5.5 of RFC 9562),
JSON and the timestamp text (section 5.6 of RFC 3339) are taken as injective.

## Where the code does not do what one might expect

Each of these is proved with the exact condition under which the code does meet the property, and with a concrete
failing input where the condition alone does not show one.

- The PostgreSQL join claim returns fewer rows than the contract when a capability is listed twice
  (`ClaimQueries.PgRepeatedCapability`); it meets the contract on all tables exactly when the capabilities are distinct
  (`ClaimQueries.PgMeetsContractIffDistinct`).
- The cached bound may be too low, and admission then asks for an extension that the scan would not
  (`LeaseSpec.StaleBoundExtends`), or finds a lease expired after a pause that the scan would not have looked at again
  (`LeaseSpec.PausedAdmissionDiffers`). For all clock readings the two forms differ exactly when something is
  tracked, the bound lacks headroom although every lease has it and none has expired at the first reading, and some
  lease has expired at the second or ends before a full reservation (`LeaseSpec.AdmissionsAgreeIff`). Forgetting the
  earliest lease is enough to get there (`LeaseLedger.StaleLedger`).
- An extension that reaches every requested row, and leaves no lease expired, is still taken for a lost lease when an
  identifier is requested twice, and only then (`LeaseSpec.HealthyExtensionIffDistinct`).
- The plain SQLite claim reports a deadline that may be later, by less than a millisecond, than the one it stores
  (`Exclusivity.PlainClaimNotExclusive`, `Exclusivity.MillisecondExclusivity`). `Ownership` carries that rounding
  through whole runs.
- Dead-lettering without a transaction can leave a job both queued and failed (`Transactions.NonAtomicTearsJob`,
  `Transactions.NonAtomicIsSafeIffHeld`).
- A delivery is created again when its key was pruned in between (`Registry.PrunedPutIsRepeated`,
  `Fanout.OneDeliveryIffNeverPruned`). A host avoids it by pruning only keys older than those it still needs
  (`Registry.OneInsertionWhilePrunesAreOlder`).
- A job whose replay fails in turn can end up with two replays queued, one through each failed row
  (`Lineage.LineageForks`). At most one of all jobs that descend from one original is queued throughout a run exactly
  when each accepted request finds all of them idle (`Lineage.OneQueuedIffLineageWaits`), which a host can tell from the
  tables before it asks (`Lineage.IdleByRecords`).
- A readiness probe in flight can succeed after a drain has returned (`Drain.LateReadyIsReachable`,
  `Drain.SuccessIffInFlight`).

## Model

| member | source | states |
|---|---|---|
| `RowHistory.FencedEffectHasOwner` | backends/sqlite/repositories/jobsrepo/api.go:337-384 | in a history that respects the fence, a fenced effect carries the token of the latest claim still open at that point |
| `RowHistory.ClaimBetweenTerminals` | backends/sqlite/repositories/jobsrepo/api.go:547-597 | two terminal effects of one row are separated by a claim whose token the second one carries |
| `RowHistory.BalanceCoversRetries` | backends/sqlite/repositories/jobsrepo/api.go:449-483 | claims less refunds is never below the number of retries |
| `RowHistory.RetriesAreBounded` | outbox/service_batch.go:531-558 | if every retry is decided below the attempt limit, there are at most limit minus one retries |
| `JobTable.StepMoves` | examples/base-app/main.go:157-333 | whichever call is made, one row moves between unborn, active, acknowledged and failed exactly as its effect says |
| `JobTable.FenceGuards` | examples/base-app/main.go:248-333 | a fenced effect happens only on a row that carries the call's own non-nil token and is still leased |
| `JobTable.HistoryHolds` | examples/base-app/main.go:186-333 | after every run the stored token, reservation and attempts of a row are the ones its history determines |
| `FenceSafety.FencedCallOwnsRow` | examples/base-app/main.go:186-333 | in every run, a call that extends, releases, deletes, reschedules, defers or finalizes a row owns it through the row's latest claim |
| `FenceSafety.TerminalEffectsNeedClaims` | backends/sqlite/repositories/jobsrepo/api.go:547-597 | in every run, each claim gets at most one terminal effect |
| `FenceSafety.ReachableRow` | backends/sqlite/repositories/jobsrepo/api.go:196-203 | in every reachable state the token is nil exactly when the row is unreserved, and attempts are claims less releases less defers, at least the retries |
| `FenceSafety.JobsAreConserved` | outbox/service_execution_batch.go:619-695 | every created job is in exactly one of active, acknowledged and failed, and nothing else is |
| `FenceSafety.ClaimReturnsBalance` | backends/sqlite/repositories/jobsrepo/api.go:196-218 | the attempt number a claim hands to its worker is the balance of the history up to that claim |
| `Timing.NeverClaimedEarly` | examples/base-app/main.go:217-220 | in every run, a claimed row was claimed no earlier than the time given by its latest create, reschedule, retry or defer, and not while the lease of its latest claim or extension lasted |
| `Timing.DueRowIsClaimed` | examples/base-app/main.go:217-220 | and conversely: a named queued row whose time has come and whose lease, if any, is over is claimed |
| `Timing.ClaimedIff` | backends/sqlite/repositories/jobsrepo/api.go:146-220 | both together, for any run and any next claim, from the arguments of the calls alone |
| `Timing.RowIsReleased` | backends/sqlite/repositories/jobsrepo/api.go:449-483 | in every run a row is available from the time its latest create, reschedule, retry or defer call gave it |
| `Timing.RowIsLeased` | examples/base-app/main.go:225-269 | in every run a row is reserved until the instant its latest claim or extension named, unless something ended that since |
| `Timing.RowIsCreated` | examples/base-app/main.go:157-184 | in every run capability, payload, queue and creation time of a row are those of its create call |
| `RetryBudget.OwnerDecided` | outbox/service_batch.go:531-558 | when tokens are not reused, the claim that owns a row as it is retried is the one whose returned copy the worker decided on |
| `RetryBudget.ServiceRetriesBelow` | outbox/service_batch.go:531-558 | if each retry follows the service's rule on the copy its claim returned, it is decided below the limit of the owning claim |
| `RetryBudget.JobRetriesAreBounded` | outbox/service_execution_batch.go:569-593 | however claims, expiries, releases and defers of all workers interleave, a job whose workers follow the rule receives at most the attempt limit minus one retries |
| `Ordering.OrderBySorts` | backends/mysql/repositories/jobsrepo/api.go:192-227 | ordering is a permutation and sorted |
| `Ordering.OrderByPermutation` | backends/mysql/repositories/jobsrepo/api.go:192-227 | without ties, the order of the scan does not matter |
| `Ordering.LimitMerge` | backends/mysql/repositories/jobsrepo/api.go:192-227 | cutting both parts at the limit before merging does not change the first rows of the merge |
| `ClaimQueries.UniqueCapabilities` | backends/mysql/repositories/jobsrepo/api.go:192-227 | the deduplication loop keeps the first occurrence of each capability |
| `ClaimQueries.ContractIsFair` | backends/mysql/repositories/jobsrepo/api.go:192-227 | the contract in the fields of the rows: only rows of a listed capability whose time has come and that nobody holds, those due longest first, none passed over for one due later |
| `ClaimQueries.MySqlMeetsContract` | backends/mysql/repositories/jobsrepo/api.go:192-227 | deduplicating, taking the first rows per capability, merging and cutting again gives the first rows of all ready rows of any listed capability |
| `ClaimQueries.PgMeetsContract` | backends/pgsql/repositories/jobsrepo/api.go:391-462 | the join claim gives the same rows when the capabilities are distinct |
| `ClaimQueries.PgRepeatedCapability` | backends/pgsql/repositories/jobsrepo/api.go:417-451 | with a capability listed twice, the join counts a row twice against the limit and a ready row is left out |
| `ClaimQueries.PgMeetsContractIffDistinct` | backends/pgsql/repositories/jobsrepo/api.go:391-462 | the join claim selects the contract's rows from every table exactly when the capabilities are distinct |
| `BoundedClaims.WindowIsLongestPrefix` | backends/pgsql/repositories/jobsrepo/api.go:321-346 | the window sum selects the longest prefix within the byte limit, or the oversized first row alone |
| `BoundedClaims.EarlyStopSelect` | backends/mysql/repositories/jobsrepo/api.go:271-293 | the loop with its early stop selects the rows of the window sum |
| `BoundedClaims.ValidateBoundedPayload` | outbox/service_execution_batch.go:243-268 | the validator accepts exactly nothing, one oversized row, or rows within the limit |
| `BoundedClaims.BoundedClaimIsLongest` | backends/pgsql/repositories/jobsrepo/api.go:301-387 | a bounded claim is the longest prefix of all ready rows, in queue order, within both limits, or the oversized first row alone, and is empty only when nothing is ready |
| `BoundedClaims.EveryPartIsAdmissible` | outbox/service_execution_batch.go:243-268 | whichever part of the selection a claim really gets, the validator accepts it |
| `StubRepo.InsertPosition` | examples/base-app/main.go:186-246 | insertion keeps the claimable positions in queue order and loses none |
| `StubRepo.ClaimablePositions` | examples/base-app/main.go:186-246 | the collected positions are exactly those of the rows of a listed capability with an available time not after now and no reservation beyond it, in queue order |
| `StubRepo.CutIsEarliest` | examples/base-app/main.go:225-246 | the first positions of the ordered list are the earliest claimable rows |
| `StubRepo.ExtendRows` | examples/base-app/main.go:248-269 | the loop moves the deadline of exactly the named live leases and counts them |
| `StubRepo.ReleaseRows` | examples/base-app/main.go:271-293 | the loop refunds exactly the named live leases with an attempt to give back and counts them |
| `StubRepo.DeleteRow` | examples/base-app/main.go:295-311 | the loop removes exactly the named live lease, keeping the order of the rest |
| `StubRepo.RescheduleRow` | examples/base-app/main.go:313-333 | the loop frees exactly the named live lease for the given time |
| `StubRepo.ClaimIsStep` | examples/base-app/main.go:186-246 | reserving the picked rows is the protocol's claim |
| `StubRepo.ExtendIsStep` | examples/base-app/main.go:248-269 | the rewritten slice is the protocol's extension |
| `StubRepo.ReleaseIsStep` | examples/base-app/main.go:271-293 | the rewritten slice is the protocol's release |
| `StubRepo.DeleteIsStep` | examples/base-app/main.go:295-311 | the shortened slice is the protocol's acknowledgement |
| `StubRepo.RescheduleIsStep` | examples/base-app/main.go:313-333 | the rewritten slice is the protocol's reschedule |
| `StubRepo.Repo.CreateJobVersioned` | examples/base-app/main.go:157-184 | appends the row, refusing an invalid version, and is the protocol's create |
| `StubRepo.Repo.FindAndReserveJobs` | examples/base-app/main.go:186-246 | each error case exactly, and otherwise, in the fields of the rows, a fair claim: only due rows, reserved with the token and one attempt more, those due longest first, no due row passed over; the table and the history record it as one claim |
| `StubRepo.Repo.ExtendJobLeases` | examples/base-app/main.go:248-269 | one extension step, with the number of rows it moved |
| `StubRepo.Repo.ReleaseUnstartedJobsWithLease` | examples/base-app/main.go:271-293 | one release step, with the number of rows it refunded |
| `StubRepo.Repo.DeleteJobWithLease` | examples/base-app/main.go:295-311 | one acknowledgement step, with the number of rows it removed |
| `StubRepo.Repo.RescheduleJobWithLease` | examples/base-app/main.go:313-333 | one reschedule step, with the number of rows it freed |
| `Exclusivity.OthersLeaveRow` | backends/mysql/repositories/jobsrepo/api.go:305-399 | before the deadline, a call with another token leaves the row as it is |
| `Exclusivity.LeaseExcludesOthers` | backends/sqlite/repositories/jobsrepo/api.go:146-220 | over any run of other workers' calls before the deadline, a leased row does not change |
| `Exclusivity.MillisecondExclusivity` | backends/sqlite/repositories/jobsrepo/api.go:196-218 | a deadline stored in milliseconds is exclusive up to the reported instant exactly when it is a whole millisecond, and is never off by a millisecond or more |
| `Exclusivity.PlainClaimNotExclusive` | backends/sqlite/repositories/jobsrepo/api.go:199-216 | a reported deadline that is not exclusive |
| `Finalization.TwoStatementsAreOneSnapshot` | backends/sqlite/repositories/jobsrepo/api.go:424-483 | deleting and then updating gives the rows and the count of one statement over one snapshot |
| `Finalization.AffectedCount` | backends/pgsql/repositories/jobsrepo/api.go:573-635 | the reported count is the number of distinct rows that changed |
| `Finalization.FullCountMeansAllReady` | backends/sqlite/repositories/jobsrepo/api.go:386-422 | the count equals the number of outcomes exactly when every named row was held and made its own transition |
| `Finalization.RecordsInserted` | outbox/service_execution_batch.go:666-695 | the record inserts succeed exactly when every dead-letter outcome names a known job without a record, and then add those records and no others |
| `Finalization.RecordsCopied` | outbox/service_execution_batch.go:666-695 | each new record is made from the worker's copy of its job and older records stay |
| `Transactions.ContentIsFixed` | backends/sqlite/repositories/jobsrepo/api.go:449-483 | no call changes what a job asks for, and a job that is gone never comes back |
| `Transactions.ReadsStayCopies` | outbox/service_execution_batch.go:666-695 | in every run, whatever a worker once read of a job is still a faithful copy, so the transactions may write records from it |
| `Transactions.CommittedEffect` | backends/sqlite/repositories/jobsrepo/api.go:386-483 | in a committed batch the effect on each row is the one its own outcome names |
| `Transactions.CommittedRows` | backends/pgsql/repositories/jobsrepo/api.go:573-635 | the statements leave the rows of the protocol's finalization step, which `CommitWrites` spells out |
| `Transactions.CommittedRecords` | outbox/service_execution_batch.go:666-695 | the inserts leave the failed table of the protocol's finalization step |
| `Transactions.CommitWrites` | backends/sqlite/repositories/jobsrepo/api.go:424-483 | row by row: an acknowledged job is gone, a dead-lettered one leaves a record with its own reason, a retried or deferred one is unreserved and available from its outcome's time, with one attempt less exactly if deferred; every other row is unchanged |
| `Transactions.CountDecidesCommit` | outbox/service_execution_batch.go:619-654 | inserts and count both succeed exactly when every outcome applies and every dead-lettered job is known |
| `Transactions.Database.CreateDlqRecords` | outbox/service_execution_batch.go:666-695 | the insert loop succeeds exactly when all inserts can, and then has made them all |
| `Transactions.Database.ApplyExecutionBatchOutcomes` | outbox/service_execution_batch.go:619-654 | every outcome and record of a batch lands on its own row as one step, each field spelled out, or nothing changes; and exactly when |
| `Transactions.Database.DeadLetterJob` | outbox/service_batch.go:616-653 | record and delete happen together, exactly when the row carries the token unexpired and has no record, or not at all |
| `Transactions.NonAtomicIsSafeIffHeld` | outbox/service_batch.go:616-653 | without a transaction a job ends up both queued and failed unless its lease is still held |
| `Transactions.NonAtomicTearsJob` | outbox/service_batch.go:616-653 | a run in which that happens |
| `LeaseSpec.ExtensionSurvivesRoundTrip` | outbox/service_batch.go:104-155 | the extension deadline is a whole millisecond, strictly above the target, and unchanged by storage in milliseconds |
| `LeaseSpec.EnsureNeverShortens` | outbox/service_batch.go:104-155 | securing the leases keeps the set of jobs and shortens no lease |
| `LeaseSpec.EnsureCovers` | outbox/service_batch.go:104-155 | after success every outstanding lease reaches the required instant |
| `LeaseSpec.EnsureOkIff` | outbox/service_batch.go:104-155 | the leases are secured exactly when none has expired and either all reach the required instant or every short one was extended without error and none has expired since |
| `LeaseSpec.HealthyExtensionIffDistinct` | outbox/service_batch.go:104-155 | when the table holds every requested row and no lease is expired afterwards, the leases are secured exactly when no identifier is requested twice |
| `LeaseSpec.AdmissionHeadroom` | outbox/service_batch.go:181-202 | whatever the cached bound, an admitted job starts with a third of the reservation on every lease |
| `LeaseSpec.AdmissionsAgreeIff` | outbox/service_batch.go:181-202 | for all clock readings, cached and scanning admission agree on every reply exactly when the bound is not too low |
| `LeaseSpec.StaleBoundExtends` | outbox/service_batch.go:181-202 | a ledger for which they do not |
| `LeaseSpec.PausedAdmissionDiffers` | outbox/service_batch.go:181-202 | another: every lease covers a full reservation, but expires during a pause that only the cached form notices |
| `LeaseLedger.Ledger.constructor` | outbox/service_batch.go:36-66 | the ledger tracks each claimed job with its deadline, under the smallest of them as bound |
| `LeaseLedger.Ledger.RecomputeEarliest` | outbox/service_batch.go:68-76 | the loop finds the exact minimum, zero when nothing is outstanding |
| `LeaseLedger.Ledger.CheckLeases` | outbox/service_batch.go:157-172 | the fast path answers like the scan; the bound is kept or, after a clean scan, exact |
| `LeaseLedger.Ledger.EnsureLeases` | outbox/service_batch.go:104-155 | verdict, deadlines and requested rows are those of the full scan, the bound afterwards is the one described, and the batch is cancelled exactly for a lost lease |
| `LeaseLedger.Ledger.CollectBelow` | outbox/service_batch.go:120-126 | exactly the outstanding leases below the bound are requested, in order |
| `LeaseLedger.Ledger.Extend` | outbox/service_batch.go:96-102 | the heartbeat secures a full reservation as the scan would, and cancels the batch exactly when a lease is lost |
| `LeaseLedger.Ledger.Admit` | outbox/service_batch.go:181-202 | verdict and ledger are exactly those of the admission decided by the bound as the check leaves it; it grants exactly when both stop checks are clear, something is tracked, nothing has expired and the bound has a third of the reservation or securing a full one succeeds; a lease lost by a ledger that tracked one cancels the batch, and nothing else does |
| `LeaseLedger.AdmissionVerdict` | outbox/service_batch.go:181-202 | exactly when admission grants, and when it refuses: the first stop check, or the last one for what would be granted otherwise |
| `LeaseLedger.AdmissionIsCached` | outbox/service_batch.go:181-202 | that admission is the cached one whose difference from the scan is characterized |
| `LeaseLedger.AdmissionIsCovered` | outbox/service_batch.go:181-202 | whatever the bound was, an admitted job starts with a third of the reservation on every lease |
| `LeaseLedger.StaleLedger` | outbox/service_batch.go:281-288 | claiming two jobs and forgetting the one that ends first gives a ledger whose bound is too low |
| `LeaseLedger.Ledger.Finalize` | outbox/service_batch.go:204-233 | verdict and ledger exactly; the callback runs exactly when the lock is taken, the row is tracked, the leases are secured as the scan would and the deadline is met; only a completed callback removes the row; the batch is cancelled exactly when the lock is not taken or a lease is lost while securing |
| `LeaseLedger.FinalizationVerdict` | outbox/service_batch.go:204-233 | the callback runs exactly when the lock is taken, the row is tracked, the leases are secured and the deadline is met; finalizing succeeds exactly when it also completes |
| `LeaseLedger.CallbackIsCovered` | outbox/service_batch.go:204-233 | when the callback runs, no row is forgotten, no lease shortened, and every lease, the tail's too, reaches a second past its deadline |
| `LeaseLedger.Ledger.SecureAll` | outbox/service_batch.go:254-272 | the callback of a batch is reached exactly when the lock is taken, something is outstanding, the leases are secured as the scan would and the deadline is met; the batch is cancelled exactly when the lock is not taken or a lease is lost while securing |
| `LeaseLedger.SecuredAllVerdict` | outbox/service_batch.go:254-272 | the same for a whole batch |
| `LeaseLedger.Ledger.FinalizeAll` | outbox/service_batch.go:254-279 | it succeeds exactly when the callback is reached and completes, and then empties the ledger; the batch is cancelled exactly as while securing |
| `LeaseLedger.SecuredAllIsCovered` | outbox/service_batch.go:254-279 | no row is forgotten and no lease shortened, and when the callback is reached every lease covers the given instant |
| `LeaseLedger.Ledger.Add` | outbox/service_batch.go:235-252 | rows join in order up to the first invalid or already tracked one |
| `LeaseLedger.Ledger.Forget` | outbox/service_batch.go:281-288 | removes one job; the bound stays as it was unless nothing is left |
| `LeaseLedger.Ledger.ForgetAll` | outbox/service_batch.go:290-295 | empties the ledger and resets the bound |
| `LeaseLedger.Ledger.ReleaseUnstarted` | outbox/service_batch.go:297-330 | requests exactly the outstanding jobs, and forgets them only when all are confirmed |
| `Ownership.OtherKeepsBacked` | backends/sqlite/repositories/jobsrepo/api.go:146-220 | a call of any other worker leaves the table backing the ledger |
| `Ownership.TakeKeepsBacked` | outbox/service_batch.go:36-66 | of a claim made with no clock ahead, any rows not tracked already may be tracked, and are backed as stored; what was backed stays so, even if the claim names it |
| `Ownership.AcceptedKeepsBacked` | outbox/service_batch.go:126-155 | when the reported count is the number of requested rows, the table has extended every one of them, and their new deadlines are backed |
| `Ownership.RejectedKeepsBacked` | outbox/service_batch.go:126-140 | whatever part of a rejected or lost extension the table applied, the deadlines the ledger keeps are backed |
| `Ownership.WriteKeepsBacked` | outbox/service_batch.go:204-233 | the worker's own writes keep the ledger backed while it forgets the rows they touch |
| `Ownership.LedgerIsBacked` | outbox/service_batch.go:104-155 | over every run of one worker and everyone else, a row whose tracked deadline is ahead carries the worker's token in the table at least that long, or, for a claim stored in milliseconds, until that deadline rounded down |
| `Ownership.DeadlineLasts` | outbox/service_batch.go:104-155 | no move shortens the deadline of a row the worker does not let go of |
| `Ownership.AdmissionIsSecuring` | outbox/service_batch.go:181-202 | an admission inside a run is its own securing move, or none, and leaves the ledger it was granted on |
| `Ownership.AdmittedRowsAreHeld` | outbox/service_batch.go:181-202 | once a handler is admitted on the ledger of some point of a run, and up to any instant, as stored, within a third of the reservation, every row not let go of carries the worker's token in the table |
| `Ownership.AdmittedRowsAreExclusive` | outbox/service_batch.go:181-202 | before that instant no call of another worker has any effect on such a row |
| `ReservationBatch.RetryNeedsAttempts` | outbox/service_batch.go:531-558 | a retry is decided only below the attempt limit, an acknowledgement exactly for a nil error, and the limit dead-letters |
| `ReservationBatch.DispositionMeans` | outbox/service_batch.go:531-558 | for each disposition exactly which markers, attempts and policy lead to it |
| `ReservationBatch.GoesOnIff` | outbox/service_batch.go:394-406 | the batch goes on exactly after a settled job, or one left to its lease because its error has no marker and there is no policy |
| `ReservationBatch.Beats` | outbox/service_batch.go:78-102 | a run of heartbeats leaves the ledger of securing a full reservation each time |
| `ReservationBatch.StartJob` | outbox/service_batch.go:493-516 | the handler starts exactly when it is supported, both stop checks are clear and the leases last, spelled out on the ledger of that moment; then every lease has a third of the reservation left |
| `ReservationBatch.SettleJob` | outbox/service_batch.go:518-564 | a started job is settled, as the markers of its error demand, exactly when something is to be written and its finalization succeeds; otherwise it stays leased, and only on purpose does the batch go on |
| `ReservationBatch.ProcessJob` | outbox/service_batch.go:394-406 | fate, continuation and ledger of one turn exactly; it counts as unstarted exactly when the handler never began |
| `ReservationBatch.TurnForgetsStarted` | outbox/service_batch.go:394-406 | a job leaves the ledger in its turn exactly when its handler started |
| `ReservationBatch.PlanIsUnique` | outbox/service_batch.go:394-406 | the inputs fix the turns of a batch |
| `ReservationBatch.OutstandingAt` | outbox/service_batch.go:394-406 | while every job so far started, the outstanding rows are exactly the jobs still to come |
| `ReservationBatch.RunJobs` | outbox/service_batch.go:394-406 | the started jobs are a prefix with the fates their turns fix, all but the last going on, and the loop ends there only because it must |
| `ReservationBatch.ProcessBatch` | outbox/service_batch.go:359-423 | the jobs whose handlers started are a prefix, each settled or left leased as the inputs fix; the release names exactly the rest, and no started job |
| `Collector.ValidateClaimedBatch` | outbox/service_execution_batch.go:270-307 | a claim is accepted exactly when it is within the limit, has distinct identifiers and every row carries the capability, the token and a live deadline |
| `Collector.SelectPayloadLimit` | outbox/service_execution_batch.go:477-487 | the loop splits a claim after the leading rows that fit |
| `Collector.FittingFits` | outbox/service_execution_batch.go:477-487 | those rows fit into the bytes left, and the next one does not |
| `Collector.Acceptable` | outbox/service_execution_batch.go:203-241 | a supplemental claim is accepted exactly when it passes both validators for what is left of the limits |
| `Collector.TakeRows` | outbox/service_execution_batch.go:383-400 | a claim is rejected exactly when it is not acceptable or a selected row cannot join; otherwise its split is exact and the tail counts as released only when confirmed; the ledger tracks, with their deadlines as claimed, the batch and exactly the leading selected rows that join, none when the claim is not acceptable |
| `Collector.FillOnce` | outbox/service_execution_batch.go:343-403 | an accepted claim appends its own split to the batch, every other answer leaves it, whether to ask again follows exactly, and so does the ledger: rows, deadlines and bound |
| `Collector.StageKeepsProgress` | outbox/service_execution_batch.go:343-403 | every answer keeps both limits, the exact byte count and the batch as initial rows plus selections |
| `Collector.ProgressHolds` | outbox/service_execution_batch.go:343-403 | the same at every point of the loop |
| `Collector.AllClaimsAreKept` | outbox/service_execution_batch.go:343-403 | the splits of the batch are, in order, the claims of the consumed answers, less a rejected last one |
| `Collector.BatchRowsFit` | outbox/service_execution_batch.go:270-307 | every row that joins a batch asks for its capability and is reserved with its token |
| `Collector.StopsEndCollecting` | outbox/service_execution_batch.go:346-386 | a failed claim, a cancellation or a drain ends collecting as a failure with batch and ledger as they were, the end of the window ends it well, and only an elapsed pause asks again |
| `Collector.LastTailIsReleased` | outbox/service_execution_batch.go:391-400 | after success every tail was confirmed released |
| `Collector.TrailIsUnique` | outbox/service_execution_batch.go:343-403 | the answers fix how the loop goes, so batch and ledger as well |
| `Collector.Fill` | outbox/service_execution_batch.go:329-403 | for every list of answers: how far it is consumed and why it stops; the count limit; the byte limit, unless the batch is one oversized initial job; an exact byte count; every row of an accepted claim in the batch or in a tail, while the rows of a rejected last claim are neither batched nor released as a tail; the ledger, with every deadline as claimed, of exactly the batch and every tail released on success, and on failure of the batch with exactly the leading rows of the last claim that joined |
| `Collector.TotalBytes` | outbox/service_execution_batch.go:329-345 | the loop sums the payload sizes |
| `BatchResult.ValidateResult` | outbox/batch.go:230-266 | accepted exactly when the input identifiers are non-nil and distinct and the results are a permutation of them; each error is at its own input position |
| `BatchResult.SuccessWasReported` | outbox/batch.go:230-266 | a nil error at a position comes from an explicit item for that job |
| `BatchResult.ItemOutcomes` | outbox/service_execution_batch.go:562-603 | each outcome is what the reported error asks for: kind from its markers, time its own or the policy's but never in the past, reason with its text; refused exactly when a retry without its own time meets a negative policy delay |
| `BatchResult.Finish` | outbox/service_execution_batch.go:524-604 | exactly when an answer is refused; a top-level error defers every job to one time; every item gets for its own job what its markers ask for; nothing is acknowledged without an explicit nil result |
| `BatchResult.FinishedHonours` | outbox/service_execution_batch.go:562-603 | outcomes that follow from the reports honour every item of the answer, named by job |
| `BatchResult.FinishedIsUnique` | outbox/service_execution_batch.go:524-604 | the answer of a handler fixes whether there are outcomes and every one of them |
| `Settlement.FinalizationTimeout` | outbox/service_execution_batch.go:656-664 | the loop adds one allowance per dead-lettered job to five seconds |
| `Settlement.BudgetCounts` | outbox/service_execution_batch.go:656-664 | five seconds and 25 milliseconds for each dead-lettered job, counted |
| `Settlement.Secure` | outbox/service_execution_batch.go:626-630 | the leases are secured to a second past that timeout, as the scan would |
| `Settlement.Settle` | outbox/service_execution_batch.go:619-654 | a batch takes effect as one step exactly when the leases are secured, the deadline met and every named row still held; only then is the ledger emptied, and otherwise the tables are untouched |
| `ExecutionBatch.CheckClaim` | outbox/service_execution_batch.go:176-241 | the first claim is processed exactly when it passes the validators, the one of payload sizes only for a bounded repository |
| `ExecutionBatch.SortedBatch` | outbox/service_execution_batch.go:164-174 | sorting into queue order is a permutation, keeps identifiers distinct and rows faithful |
| `ExecutionBatch.AdmitBatch` | outbox/service_execution_batch.go:108-113 | heartbeats and admission keep what the ledger owns; the batch is admitted exactly when both stop checks are clear and its leases last, and then has a third of the reservation on every lease |
| `ExecutionBatch.HandleAndFinish` | outbox/service_execution_batch.go:119-154 | outcomes are written, as one step, exactly when the handler returns neither cancelled nor panicking, its answer leads to outcomes and they can be written; however it ends, the ledger owns nothing |
| `ExecutionBatch.ConclusionIsUnique` | outbox/service_execution_batch.go:119-154 | the inputs fix which outcomes are written, if any |
| `ExecutionBatch.Process` | outbox/service_execution_batch.go:54-162 | how a batch ends is fixed by the inputs, admission being decided on the ledger of exactly the collected rows with their deadlines as claimed, and granted only with both stop checks clear: once the handler was called nothing is released; before that a refused admission releases exactly the batch, and a failed collection the batch with exactly the leading rows of the last claim that joined; the tables change only by the outcomes of the sorted batch, each landing on its own row as its item asks, all in one step, and exactly when they can be written |
| `Schedules.ProcessOneAvailableBatch` | outbox/service_execution_batch.go:27-52 | the search serves the first capability after the cursor, going round, that has work or an error, and moves the cursor just past a served one |
| `Schedules.WorkerSchedule.constructor` | outbox/service.go:230-236 | the cursor starts at the worker's number and even workers prefer batches |
| `Schedules.WorkerSchedule.ProcessWorkerWork` | outbox/service.go:294-352 | the schedule, the work served and the error after one turn |
| `Schedules.SingleFaultSurfaces` | outbox/service.go:335-352 | a fault of the single work ends the turn with that fault and leaves the schedule; a drain or a pause of it counts as no work |
| `Schedules.BatchFaultSurfaces` | outbox/service.go:301-312 | the batch capability nearest to the cursor that stops the search decides the turn: its error is reported, a drain is not |
| `Schedules.BatchTurnApproaches` | outbox/service_execution_batch.go:27-52 | while a capability is ready, a batch turn serves it or brings the cursor strictly closer |
| `Schedules.BatchIsServed` | outbox/service.go:294-333 | an always ready capability at distance d from the cursor is served within 2d + 2 turns, one less when batches are preferred |
| `Schedules.BatchWaitsAtMostTwiceN` | outbox/service.go:294-333 | with n capabilities an always ready one is served in every 2n turns |
| `Schedules.SingleWaitsAtMostTwo` | outbox/service.go:294-333 | always ready single work is served in every two turns |
| `Schedules.BoundIsReached` | outbox/service.go:294-333 | the bound of 2n turns is exact |
| `Drain.ActKeepsBoundary` | outbox/service_claim.go:19-37 | every action keeps the lock exclusive and, once drained, nobody claiming |
| `Drain.NoClaimAfterDrain` | outbox/service.go:385-399 | in every interleaving, after a drain call has returned no claim is in progress and none ever starts |
| `Drain.NoReadinessAfterDrain` | outbox/service.go:369-383 | once the drain is closed, a probe that has yet to check it never succeeds, whatever the run loop stores |
| `Drain.SuccessIffInFlight` | outbox/service.go:369-383 | once the drain is closed, a probe can still succeed exactly when it has passed the check and the flag is set or about to be |
| `Drain.LateReadyIsReachable` | outbox/service.go:245-247 | a run in which the drain returns, ready is stored afterwards and an in-flight probe succeeds |
| `Encoding.DecimalReadsBack` | backends/pgsql/repositories/jobsrepo/unique.go:98-103 | decimal text consists of digits and reads back |
| `Encoding.CanonicalIsInjective` | backends/pgsql/repositories/jobsrepo/unique.go:92-107 | the length-prefixed text determines its four fields for all strings |
| `Encoding.FieldsReadBack` | outbox/fanout.go:77-81 | any list of texts written as length-prefixed fields is read back |
| `Encoding.CheckToken` | outbox/fanout.go:242-259 | the loop accepts exactly the non-empty texts of allowed characters |
| `Encoding.DeliveryJobNameIsInjective` | outbox/fanout.go:64-66 | the delivery job name determines kind and topic, although topics contain dots |
| `Encoding.TargetKeyIsInjective` | outbox/fanout.go:166-166 | the NUL-joined key determines kind and identifier, whatever the identifier contains |
| `Encoding.TargetKeyNeedsTokens` | outbox/fanout.go:166-166 | without the rule on kinds it does not |
| `Registry.TextsDetermineFingerprints` | backends/pgsql/repositories/jobsrepo/unique.go:92-107 | two fingerprint texts are equal exactly when capability, payload and availability are |
| `Registry.PutByUpsert` | backends/pgsql/repositories/jobsrepo/unique.go:19-90 | the single guarded statement is the unique put |
| `Registry.PutByReadBack` | backends/sqlite/repositories/jobsrepo/api.go:798-854 | insert or ignore, read back and compare is the same unique put |
| `Registry.RegistryHolds` | backends/sqlite/repositories/jobsrepo/api.go:798-877 | in every reachable state each key names the row inserted for it, an active row with a key is the one its key names, and insertions balance prunings and registered keys |
| `Registry.RowsStartFresh` | backends/sqlite/repositories/jobsrepo/api.go:798-854 | in every run each row was inserted under its own identifier in the default queue, unattempted and unreserved, with a positive version and no empty key |
| `Registry.KeyIsStable` | backends/pgsql/repositories/jobsrepo/unique.go:41-62 | until it is pruned, a key keeps its job and fingerprint through every run |
| `Registry.InsertionsAreCounted` | backends/sqlite/repositories/jobsrepo/api.go:798-877 | a key's job was inserted once per pruning and once more while registered, so exactly once until pruned |
| `Registry.ActiveKeyIsNotPruned` | backends/sqlite/repositories/jobsrepo/api.go:856-877 | no call prunes or moves a key whose job is active |
| `Registry.PruningIsBounded` | backends/sqlite/repositories/jobsrepo/api.go:856-877 | a pruning removes at most its limit of keys, nothing when the limit is not between 1 and 10,000, and never a job |
| `Registry.FirstPutDecides` | backends/pgsql/repositories/jobsrepo/unique.go:41-90 | after a stored put and until pruning, the same put answers with the same job and changes nothing, and any other put under the key is a conflict, even after the job is finished |
| `Registry.CheckBatch` | backends/sqlite/repositories/jobsrepo/api.go:644-659 | the loop accepts exactly 1 to 1000 puts with non-empty distinct keys and positive versions |
| `Registry.RegisterKeys` | backends/sqlite/repositories/jobsrepo/api.go:714-760 | registering every missing key gives the keys of the fold of single puts |
| `Registry.ConflictIsClash` | backends/sqlite/repositories/jobsrepo/api.go:670-680 | put by put, the fold conflicts exactly where the batch clashes with the table it started from |
| `Registry.PutBatchInOneTransaction` | backends/sqlite/repositories/jobsrepo/api.go:640-687 | a batch put is the ordered fold of its single puts, answers included, when none conflicts, and changes nothing otherwise |
| `Registry.PutBatchInOneStatement` | backends/pgsql/repositories/jobsrepo/api.go:94-205 | the guarded upsert, the join and the row count give the same fold of single puts, or no change |
| `Registry.BatchIsOneTransaction` | backends/sqlite/repositories/jobsrepo/api.go:640-687 | a batch commits exactly when it is well formed and its single puts are all stored |
| `Registry.StageAll` | outbox/fanout.go:295-320 | unique puts in one transaction are all stored, or the tables are as before |
| `Registry.KeyOutlivesOlderPrunes` | backends/sqlite/repositories/jobsrepo/api.go:856-877 | a key outlives every run whose prunings ask only for keys older than it |
| `Registry.OneInsertionWhilePrunesAreOlder` | backends/sqlite/repositories/jobsrepo/api.go:856-877 | in such a run its job is not inserted again, so it was inserted once if the key had never been pruned |
| `Registry.OneInsertionIffNeverPruned` | backends/sqlite/repositories/jobsrepo/api.go:856-877 | when a transaction has just committed, a put's job was inserted exactly once if and only if its key was never pruned |
| `Registry.PrunedPutIsRepeated` | backends/sqlite/repositories/jobsrepo/api.go:856-877 | the run put, finish, prune, put inserts twice |
| `Fanout.TargetsAreOrdered` | outbox/fanout.go:178-184 | the comparison of targets is total and transitive |
| `Fanout.LexMeans` | outbox/fanout.go:178-184 | the comparison of texts is the one by first differing byte |
| `Fanout.NormalizeTargets` | outbox/fanout.go:150-176 | the loop accepts exactly valid targets with distinct kind and identifier, and writes an empty snapshot as an empty object |
| `Fanout.Normalize` | outbox/fanout.go:144-192 | accepted exactly when event and targets are valid, the rules for identifiers, names, lengths, versions and JSON spelled out; the result has the same event and the same targets, empty snapshots filled, by kind and then identifier |
| `Fanout.NormalizationIgnoresOrder` | outbox/fanout.go:144-192 | every permutation of the targets is accepted alike and gives the same snapshot |
| `Fanout.NormalizationIsIdempotent` | outbox/fanout.go:144-192 | a canonical snapshot is accepted and left as it is |
| `Fanout.DeliveryKeyIsInjective` | outbox/fanout.go:69-74 | a delivery identity determines event, kind and target |
| `Fanout.DeliveriesAreDistinct` | outbox/fanout.go:282-321 | the targets of an accepted snapshot get distinct keys |
| `Fanout.DecodesIffGenuine` | outbox/fanout.go:77-101 | a delivery payload is read back as identity, event and target, and refused when its identity is not that of its event and target |
| `Fanout.Handle` | outbox/fanout.go:282-321 | a dispatch commits every delivery as one transaction of the run, or nothing, and exactly when; afterwards the job under each target's key delivers: name "fanout.", kind, ".", topic, the event's version, the snapshot's time, and a payload that decodes to this event and target |
| `Fanout.ExactlyOneDelivery` | outbox/fanout.go:282-321 | once a dispatch of an accepted snapshot has committed and while its keys are unpruned, each target has had exactly one delivery job, inserted fresh, with the name, version and time read from the snapshot and a payload that decodes to this event and target, whatever else ran |
| `Fanout.DispatchingAgainIsQuiet` | outbox/fanout.go:282-321 | dispatching again commits and changes nothing, finished deliveries included |
| `Fanout.OneDeliveryIffNeverPruned` | outbox/fanout.go:282-321 | after a committed dispatch a target has had exactly one delivery if and only if its key was never pruned before |
| `Replay.KeyHintSearches` | backends/pgsql/replay/replay.go:228-244 | the key hint is what a search of the registry by job finds |
| `Replay.ProvenanceHolds` | backends/pgsql/replay/replay.go:144-216 | in every reachable state the records of a failed row share source and business key, at most one of the original and its replays is queued, and each record names the job inserted for it |
| `Replay.AnyBaselineWillDo` | backends/pgsql/replay/replay.go:300-323 | the result does not depend on which record the lookup returns |
| `Replay.FamilyIsIdle` | backends/pgsql/replay/replay.go:184-197 | a request is accepted only while no job of its failed row is queued |
| `Replay.CreatedIffWelcome` | backends/pgsql/replay/replay.go:144-199 | exactly when a request makes new work, in the fields of the failed row, the request and the tables |
| `Replay.NoFanoutIsReplayed` | backends/pgsql/replay/replay.go:218-226 | in every run nothing replayed is a fan-out dispatch or delivery |
| `Replay.RepeatingIsQuiet` | backends/pgsql/replay/replay.go:153-171 | a recorded request never makes work, and is answered with its record exactly when the failed row still describes the operation and the host admits the same key |
| `Replay.RecordsAreRetained` | backends/pgsql/replay/replay.go:300-323 | no later call loses or changes a record |
| `Replay.ReplayIsRemembered` | backends/pgsql/replay/replay.go:144-199 | after a replay, through finishing and pruning, its request creates nothing again and a successful repeat returns the same record |
| `Replay.Perform` | backends/pgsql/replay/replay.go:144-216 | the request as run, with any lookup result, gives the one result every lookup leads to |
| `Replay.FindBaseline` | backends/pgsql/replay/replay.go:201-216 | the lookup finds some record of the failed row, or there is none |
| `Replay.Stage` | backends/pgsql/replay/replay.go:246-281 | the job, spelled out field by field and in the failed row's queue, and the record appear together, or nothing changes and why |
| `Lineage.CreatingKeepsOneQueuedIff` | backends/pgsql/replay/replay.go:184-198 | a created replay leaves at most one queued job per lineage exactly when the lineage it extends is idle |
| `Lineage.OneQueuedIffLineageWaits` | backends/pgsql/replay/replay.go:184-198 | throughout a run every lineage has at most one queued job exactly when every created replay finds its whole lineage idle |
| `Lineage.RootByRecords` | backends/pgsql/replay/replay.go:300-323 | in every run, following the replay records from a job to the job it replays leads to the root of its lineage and nowhere else |
| `Lineage.IdleByRecords` | backends/pgsql/replay/replay.go:184-198 | whether a lineage is idle can be told from the queued jobs and the replay records alone |
| `Lineage.LineageForks` | backends/pgsql/replay/replay.go:187-197 | a run with two queued jobs of one lineage: job 1 fails and is replayed as job 2, job 2 fails, and both failed rows are replayed |

## Left out

- Registry.PruneIsConsistent: pruning removes any eligible keys within the limit, because one backend skips locked
  rows; the order by creation time and key is not stated.
- StubRepo.Repo: its failed slice and queue statistics; the failed table is modelled in `Transactions`.
- StubRepo.InsertPosition: rows with equal order keys keep their slice order, where the original sort leaves ties open.
- Registry.PutByUpsert: new identifiers are assumed unused, as random UUIDs are; in runs a call with a used one
  changes nothing.
- Fanout.DeliveryKeyIsInjective: speaks of the name that is hashed; the UUID itself is taken as injective.
- Fanout.DecodesIffGenuine: a payload is written as length-prefixed fields, where the original writes JSON; its
  identity is the name that is hashed.
- Fanout.Normalize: JSON syntax and white space are parameters, and the copies it makes of byte slices are values here.
- ReservationBatch.Beats: heartbeats may go on after one has failed and need not cancel the batch, so every
  combination of heartbeat, cancellation and handler result is covered, possible or not.
- Drain.NoClaimAfterDrain: safety only; that a drain returns needs fair locks and repositories that honour cancellation.
- Schedules.BatchWaitsAtMostTwiceN: turns of one worker without errors; pauses and repository contents are given per
  turn.
- The Picodata backend: best effort, without transactions, and its claim does not check availability again.
- SQL text, indexes, locking hints, isolation levels, drivers, pools, migrations and logging.
- Goroutines, timers and contexts: they appear as clock readings, cancellations and interleaved steps.
- ExecutionBatch.Process: heartbeats run before admission and while the handler runs, and are not interleaved with
  filling the batch; the rows of the claims are faithful copies of the table, as `Transactions.ReadsStayCopies` shows
  for every run.
- Ownership.LedgerIsBacked: a reply without an error reports how many requested rows the table holds, as
  `StubRepo.Repo.ExtendJobLeases` does; no claim uses a clock that is ahead.
- Aborted goroutines, panic details and observers: they notify; that the handler of a batch panicked is an input of
  `ExecutionBatch`.
- Backoff formulas, retry streaks, pause bookkeeping, page listing, queue statistics and option checks: true but easy.
- The release of a claim that was cancelled while it succeeded: it filters valid distinct rows and releases them.
- The encoding of snapshots as JSON: the dispatcher starts from the decoded snapshot.
