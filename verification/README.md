# PropNest: billing, documents, login throttling and receipts, modelled and proved

A Dafny 4.11 model of the parts of the PropNest API that keep state or do arithmetic, with proofs of what they keep.

**Recurring billing** (`LateFee`, `Billing`, `Periods`, `Books`, `Agreement`, `Corrections`, `Transactions`, `FeeHistory`, `Sweep`,
`BillingService`).
One record is a mutable `RecordEntity`; the tables are the fields of the class `Tables`, with one method per service operation.
Each method is proved equal to a transaction function on the value of the tables, and the laws are proved about all runs of those
transactions. A transaction commits or aborts and then changes nothing. Money is integer cents, percents are integer hundredths,
dates are day numbers, row ids are counters standing for fresh UUIDs. Generation is also split into a read step and an insert step
so that any number of workers can interleave (`Periods`).

**Documents** (`StorageKeys`, `Upload`, `DocumentStorage`, `DocumentService`).
Create, replace and delete are machines of atomic steps over two stores, rows and objects, where any step may fail and requests on
different documents interleave. The class `Service` performs the calls step by step and is proved equal to driving those machines.
Two fields are history: `accepted`, the last file stored for a document without a failed promotion since, and `abandoned`, the old
keys that failed promotions under a changed file name left behind.

**Login throttling** (`Redis`, `LoginThrottle`, `LoginAttemptRepository`, `IpRateLimit`, `AuthService`).
A key-value store with expiries on a whole-second clock. Each repository method is proved equal to one step on its keys, and after
any run of requests the store is proved to hold exactly the folds of two histories read off the request log: the judged attempts of
each identifier and the counted requests of each address. Time bounds are proved about those folds. All limits are symbolic.

**Amounts in words** (`AmountInWords`). The printer with its loop, an independent reader, and the round trip between them.

**Occupancy and document links** (`Occupancy`, `DocumentLinks`). Two whole-state invariants.

What the proofs found out, where a comment or a plausible reading says otherwise:

- The generation job's docstring calls a repeated run an expected no-op. Run serially it never skips: each mention of a lease bills
  its next period (`JobAdvancesEveryLease`).
- One record whose percentage fee rounds to zero stops the whole overdue sweep; records listed after it stay unevaluated. The sweep
  finishes, and late records are overdue afterwards, exactly when there is none (`SweepOrderIrrelevant`, `LateMeansOverdue`); a rent
  of 50 cents with a fee of one percent is such a record (`SmallFeeStopsTheSweep`).
- Correcting a fee loses the agreement between status and payments exactly when what is paid covers the corrected bill
  (`CorrectFeeExact`, `WaivedFeeLosesAgreement`), and editing, voiding or deleting a payment loses it exactly in the cases of
  `PaymentEditExact` (`EditedPaymentLosesAgreement`).
- Moving a lease's start date is safe unless it is unbilled while a worker already holds a candidate for it; in that case some
  continuation breaks the chain of periods (`RunKeepsLease`, `UnsafeEditBreaksChain`, `MovedStartBreaksChain`).
- The failure limit is per window *and* per success: each successful login reopens the budget. With windows of at least two seconds
  a lock-free stretch of one window's length and s successes holds up to (s + 2) * (max - 1) - 1 failures, attained for every policy
  with max of at least 2, so it is bounded by 2 * (max - 1) exactly while s * (max - 1) <= 1 (`FailuresPerWindow`, `BoundAttained`,
  `SuccessesReopenTheBudget`).
- Words are produced up to just below two trillion pesos, and only from there on does the table lookup fail (`AmountToWords`).
- Acceptance of an upload depends on the file alone except in one case: a first read cut short within the signature of the file's
  type, three to eight bytes, makes the file unrecognised (`AcceptedExactly`).
- After a failed promotion a download returns the old file only if the file name is unchanged; under a changed name the old key is
  left behind and named by no log message, only its document is (`ReplaceContract`, `StorageAccounting`).
- A replacement whose upload part carries no content type is refused before it is read, however good the file: the declared type is
  then looked up as an attribute of a dictionary. A creation falls back on the file type (`ReplaceDocumentFile`, `CreateDocument`).
- The address limit admits up to 2 * limit - 1 requests within one window's length, and the bound is attained (`AdmittedPerWindow`,
  `IpRateLimit.BoundAttained`).
- A property's status set by hand, at creation or later, keeps occupancy and contracts in agreement iff it is true (`StepExact`); a
  false one lasts until the next contract of the property becomes or ceases to be ACTIVE (`NextChangeRepairs`).

## Model

| member | source | states |
|---|---|---|
| `LateFee.RoundHalfEvenMeaning` | app/billing/services/lease_billing_service.py:187 | quantizing is the one integer within half a unit of the exact value, even on a tie |
| `LateFee.PercentFeeNearest` | app/billing/services/lease_billing_service.py:184-188 | the percentage fee is within half a cent of the exact fee, even on a tie |
| `LateFee.PercentFeeMonotone` | app/billing/services/lease_billing_service.py:184-188 | the fee never falls when rent or percent rises |
| `LateFee.PercentFeeWithinRent` | app/leasing/models/lease.py:114-117 | up to 100 percent the fee never exceeds the rent |
| `LateFee.PercentFeePositive` | app/billing/services/lease_billing_service.py:187 | the fee is chargeable iff cents times hundredths of percent exceed 5000 |
| `Billing.RecordEntity.DoTransition` | app/billing/services/lease_billing_service.py:84-90 | moves the status only along the table, otherwise leaves the record alone |
| `Billing.RecordEntity.DoEvaluate` | app/billing/services/lease_billing_service.py:171-191 | the in-place evaluation is the evaluation function, including the refused flush |
| `Billing.RecordEntity.DoApplyPayment` | app/billing/services/lease_billing_service.py:327-356 | the in-place recomputation is the payment function |
| `Billing.TableMeaning` | app/billing/services/lease_billing_service.py:50-68 | from an open status to any other but pending, and never from pending to written off |
| `Billing.EvaluateChanges` | app/billing/services/lease_billing_service.py:171-189 | an evaluation not refused changes a record iff it is pending or partly paid and past due date plus grace; it is then overdue, a fee it has is kept |
| `Billing.EvaluateFails` | app/billing/services/lease_billing_service.py:171-191 | evaluation is refused iff a first percentage fee rounds to nothing, never by the transition table |
| `Billing.FirstLateFee` | app/billing/services/lease_billing_service.py:181-189 | a first late fee is the flat amount or the half-even percentage, positive and at most the rent |
| `Billing.ApplyPaymentTotal` | app/billing/services/lease_billing_service.py:343-356 | never a transition error; closes an open record iff covered; surplus exact; nothing else changes |
| `Periods.Latest` | app/billing/repositories/billing_record.py:44-53 | a record of the lease with the highest period end, none iff the lease has none |
| `Periods.ChainPartitionsDays` | app/billing/services/lease_billing_service.py:99-106 | every billed day lies in exactly one period |
| `Periods.ChainDueDatesIncrease` | app/billing/services/lease_billing_service.py:127 | due dates strictly increase whatever due day each record was generated with |
| `Periods.CandidateOnChain` | app/billing/services/lease_billing_service.py:122-137 | an uninterrupted generation continues the chain, meets no conflict and snapshots rent and due day |
| `Periods.RunKeepsLease` | app/billing/services/lease_billing_service.py:122-142 | any interleaving of reads, inserts and lease edits keeps a lease's records contiguous if its own edits are safe, whatever is done to other leases |
| `Periods.RunKeepsInv` | app/billing/services/lease_billing_service.py:122-142 | hence all leases at once if every edit is safe |
| `Periods.CommittedPeriodsExact` | app/billing/services/lease_billing_service.py:122-142 | the committed records of an unbilled lease whose own start date is kept are exactly start + 31k, whatever is done to other leases |
| `Periods.InsertExactly` | app/billing/services/lease_billing_service.py:122-142 | an insert commits its candidate iff its period was free, and uses it up |
| `Periods.ExactlyOneWinner` | app/billing/models/billing_record.py:92 | of all workers that try to insert one free period exactly one wins |
| `Periods.UnsafeEditBreaksChain` | app/leasing/services/lease_service.py:120-132 | moving the start date of an unbilled lease under a held candidate has a continuation that is no chain |
| `Periods.MovedStartBreaksChain` | app/leasing/services/lease_service.py:120-132 | a run from an unbilled portfolio, for every lease, that commits two overlapping periods |
| `Books.CreatePaymentResult` | app/billing/services/payment_service.py:108-123 | a linked payment commits, raises the record's non-voided sum by its amount and stores the recomputed record |
| `Books.RunKeepsValid` | app/billing/models/billing_record.py:91-109 | every run of all operations satisfies the table constraints, the contract of linked payments and the period chains |
| `Books.SerialRunsNeverConflict` | app/billing/services/lease_billing_service.py:84-90 | serially, generation never conflicts and only a write-off can be refused by the transition table |
| `Transactions.CommitsExactly` | app/billing/services/payment_service.py:95-259 | each of the ten operations commits iff the rows it names exist and the result keeps the tables' and the status machine's rules; refused, it changes nothing |
| `Transactions.RefusalMeans` | app/billing/services/lease_billing_service.py:273-318 | what each error says of the request and the tables |
| `Transactions.WriteOffExactly` | app/billing/services/lease_billing_service.py:245-281 | a write-off changes one record's status and nothing else, and the outstanding total falls by its bill |
| `Transactions.CorrectFeeExactly` | app/billing/services/lease_billing_service.py:283-325 | a fee correction writes the two fee columns of one record |
| `Transactions.EvaluateExactly` | app/billing/services/lease_billing_service.py:149-196 | one record becomes overdue iff past due, with a first fee or the fee it has; nothing else changes |
| `Transactions.LeaseWritten` | app/leasing/services/lease_service.py:93-132 | adding and editing write one lease |
| `Transactions.PaymentWritten` | app/billing/services/payment_service.py:95-259 | each payment operation writes just the rows it names or adds, with just the values asked for |
| `Transactions.CorrectedPaymentCounts` | app/billing/services/payment_service.py:224-238 | after a correction the chain's one live payment is the new row, with the corrected amount and status |
| `Transactions.StepBooks` | app/billing/services/payment_service.py:95-259 | an operation moves a contract's account by what it books: a correction by exactly corrected minus original amount |
| `Transactions.RunBooks` | app/billing/services/payment_service.py:95-259 | over every run a contract's account is what was booked on it |
| `Agreement.RunsAgree` | app/billing/services/lease_billing_service.py:327-356 | over agreeing runs: paid iff covered (unless written off), pending implies nothing paid, surplus iff paid with excess and exact |
| `Agreement.RunsStayCovered` | app/billing/services/lease_billing_service.py:312-318 | with fee corrections, paid still implies covered and the surplus is still exact |
| `Agreement.StepExactOn` | app/billing/services/payment_service.py:95-259 | every operation keeps a record's agreement iff it concerns another record or is harmless, checkable before the call |
| `Agreement.RunAgreesOn` | app/billing/services/payment_service.py:95-259 | over any run of all ten operations a record keeps agreeing if those that concern it are harmless |
| `Agreement.HarmlessRunsAgree` | app/billing/services/payment_service.py:95-259 | hence all records, those billed on the way included |
| `Agreement.CorrectFeeExact` | app/billing/services/lease_billing_service.py:312-318 | a fee correction keeps the agreement iff the payments do not cover the corrected bill |
| `Agreement.WaivedFeeLosesAgreement` | app/billing/services/lease_billing_service.py:283-325 | a run from empty books after which waiving a fee loses the agreement |
| `Agreement.NextPaymentRepairs` | app/billing/services/payment_service.py:160-167 | the next linked payment restores the record's agreement |
| `Agreement.PaymentEditExact` | app/billing/services/payment_service.py:169-259 | update, void and delete keep the agreement iff a condition checkable before the call holds |
| `Agreement.EditedPaymentLosesAgreement` | app/billing/services/payment_service.py:169-259 | a run from empty books after which cutting, voiding or deleting the payment of a paid bill loses the agreement |
| `Agreement.GroupedSumIsPaidSum` | app/billing/repositories/payment.py:46-67 | the one-pass grouped sum equals the per-record filtered sum, missing keys being zero |
| `Agreement.ReceivedEitherWay` | app/billing/repositories/payment.py:38-67 | adding up payment rows and adding up records gives the same money |
| `Agreement.RemainingMeaning` | app/core/services/utils.py:26-41 | the remaining balance is the least non-negative amount that still covers the bill |
| `Agreement.PortfolioConservation` | app/billing/repositories/billing_record.py:58-89 | over all harmless runs of all ten operations: money received = settled bills + credits + what outstanding bills were paid down by |
| `Corrections.RunKeepsChains` | app/billing/models/payment.py:61-67 | correction links point back, inside one contract, at voided rows, one link per row |
| `Corrections.SameRootComparable` | app/billing/services/payment_service.py:224-238 | a correction chain never forks |
| `Corrections.RunsKeepOneLivePerChain` | app/billing/services/payment_service.py:224-238 | a chain has at most one payment that is not voided |
| `Corrections.OneLivePerChain` | app/billing/services/payment_service.py:224-238 | and that one is the end of its chain |
| `Corrections.RunFollows` | app/billing/services/payment_service.py:186-187 | voided is absorbing, links never change, deleted rows never return |
| `Corrections.CorrectedOnce` | app/billing/services/payment_service.py:224-235 | a corrected payment is never corrected or updated again |
| `FeeHistory.StepMovesAlongTable` | app/billing/services/lease_billing_service.py:50-68 | statuses move along the table and each is entered by one kind of operation |
| `FeeHistory.RunSettles` | app/billing/services/lease_billing_service.py:66-68 | over all runs paid and written off are final and their total owed is frozen |
| `FeeHistory.ChargedAtMostOnce` | app/billing/services/lease_billing_service.py:183-189 | unless its own fee is corrected, a record keeps a charged fee and its bill grows in at most one step |
| `Sweep.LoopMeaning` | app/jobs/billing_jobs.py:89-96 | the loop evaluates exactly the listed records before the first one it cannot charge |
| `Sweep.SweepOrderIrrelevant` | app/jobs/billing_jobs.py:89-96 | it runs to its end iff all can be charged, and then the order is immaterial |
| `Sweep.LateMeansOverdue` | app/billing/services/dashboard_service.py:82-85 | afterwards every late record is overdue, iff all could be charged |
| `Sweep.SweepChangesExactly` | app/jobs/billing_jobs.py:79-98 | a completed sweep changes exactly the records that were late and not yet overdue |
| `Sweep.SmallFeeStopsTheSweep` | app/billing/services/lease_billing_service.py:184-188 | a run from empty books after which the job ends in an error on every later date and a late record stays pending |
| `Sweep.SweepTwice` | app/jobs/billing_jobs.py:89-96 | running the loop at two dates, over any listings, gets through iff one run at the later date would, and leaves its books |
| `Sweep.SweepIsRun` | app/jobs/billing_jobs.py:89-96 | the job is a run of the evaluations it got to |
| `Sweep.RunsSweep` | app/jobs/billing_jobs.py:79-98 | after any run of all operations the job completes, and late records become overdue, iff all can be charged; the tables stay well-formed |
| `BillingService.JobAdvancesEveryLease` | app/jobs/billing_jobs.py:50-76 | run serially the job skips nothing and adds one period per mention of a lease |
| `BillingService.LoopCounts` | app/jobs/billing_jobs.py:50-76 | on any tables, a taken period never ends the job and every listed lease is counted once |
| `BillingService.Tables.GenerateBillingRecord` | app/billing/services/lease_billing_service.py:92-147 | new state and error of generation |
| `BillingService.Tables.EvaluateOverdue` | app/billing/services/lease_billing_service.py:149-196 | new state and error of overdue evaluation |
| `BillingService.Tables.WriteOffRecord` | app/billing/services/lease_billing_service.py:245-281 | new state and error of a write-off |
| `BillingService.Tables.CorrectLateFee` | app/billing/services/lease_billing_service.py:283-325 | new state and error of a fee correction |
| `BillingService.Tables.CreatePayment` | app/billing/services/payment_service.py:95-124 | new state and error of recording a payment |
| `BillingService.Tables.UpdatePayment` | app/billing/services/payment_service.py:169-198 | new state and error of editing a payment |
| `BillingService.Tables.VoidAndCorrectPayment` | app/billing/services/payment_service.py:200-239 | new state and error of a correction |
| `BillingService.Tables.DeletePayment` | app/billing/services/payment_service.py:241-259 | new state and error of a deletion, refused while referenced |
| `BillingService.Tables.CreateLease` | app/leasing/services/lease_service.py:93-118 | new state and error of adding a lease: long-term contracts only, one per contract |
| `BillingService.Tables.UpdateLease` | app/leasing/services/lease_service.py:120-132 | new state and error of editing lease terms |
| `BillingService.Tables.AttachRemainingBalance` | app/core/services/utils.py:26-41 | each balance is the bill less the record's own payments, floored at zero |
| `BillingService.Tables.EvaluateOverdueBillingRecords` | app/jobs/billing_jobs.py:79-98 | the loop with its counter is the sweep function |
| `BillingService.Tables.GenerateDueBillingRecords` | app/jobs/billing_jobs.py:50-76 | the loop with its counters is the generation function |
| `StorageKeys.BaseNameIsLastCounted` | app/documents/services/document_service.py:735 | the base name is the last component of the path that is neither empty nor a dot |
| `StorageKeys.BaseNameIdempotent` | app/documents/services/document_service.py:735 | taking the final component twice changes nothing |
| `StorageKeys.KeyReads` | app/documents/services/document_service.py:734-738 | document and base name can be read off a canonical key |
| `StorageKeys.KeysInjective` | app/documents/services/document_service.py:734-744 | canonical keys are equal iff document and base name are; none is a staging key |
| `Upload.AcceptedExactly` | app/documents/services/document_service.py:527-570 | whatever the first read returned: accepted iff the file's own type is the declared one, it is within the limit and the read holds that type's signature; unrecognised iff it holds none |
| `Upload.JpgIsJpeg` | app/documents/services/document_service.py:522-525 | the alias image/jpg is judged as image/jpeg, every other declared type as itself |
| `Upload.SniffPrefix` | app/documents/services/document_service.py:597-616 | a prefix shows the file's type iff it holds the whole signature, and never another type |
| `Upload.SniffMeaning` | app/documents/services/document_service.py:597-616 | a type is told iff the data begins with its signature: the order of the checks is immaterial |
| `Upload.ByteStream.Read` | app/documents/services/document_service.py:556 | at least one byte until the end, at most as many as asked |
| `Upload.ReadAndValidateUpload` | app/documents/services/document_service.py:507-570 | terminates; verdict of the whole file; reads at most one byte past the limit; accepted bytes are the whole source, spooled and rewound |
| `DocumentStorage.RunKeepsInv` | app/documents/services/document_service.py:164-456 | every step of every interleaving keeps what each request has established |
| `DocumentStorage.OthersNeverTouch` | app/documents/services/document_service.py:734-744 | requests on other documents never touch a document's row, objects or log entries |
| `DocumentStorage.ReplaceContract` | app/documents/services/document_service.py:261-418 | what each outcome of a replacement guarantees of row, canonical, old and staged object |
| `DocumentStorage.StorageAccounting` | app/documents/services/document_service.py:206-227 | with nothing in flight every stored key is current, named in the log, or the old key of a failed promotion that changed the name; every accepted file is in place |
| `DocumentStorage.CleanupExactly` | app/documents/services/document_service.py:618-623 | a clean-up removes the object and logs nothing, or fails, leaves it and logs its key |
| `DocumentStorage.OnlyFailuresLogged` | app/documents/services/document_service.py:359-418 | a key is logged by nothing but its own failed clean-up or promotion |
| `DocumentStorage.SmoothRunsLeaveNothing` | app/documents/services/document_service.py:164-456 | if no step fails, every stored object is its document's current file and nothing is logged |
| `DocumentService.DriveIsRun` | app/documents/services/document_service.py:317-345 | a call on its own is a run of the interleaved system |
| `DocumentService.DriveReplaceIs` | app/documents/services/document_service.py:317-345 | the replacement machine driven to its end is the straight-line stage, commit, promote, clean-up |
| `DocumentService.DriveKeepsQuiet` | app/documents/services/document_service.py:206-227 | a call leaves the stores in good order whatever fails |
| `DocumentService.CreateOutcome` | app/documents/services/document_service.py:206-227 | row, object and log after a creation, for every choice of faults |
| `DocumentService.DeleteOutcome` | app/documents/services/document_service.py:420-456 | row, object and log after a deletion, for every choice of faults |
| `DocumentService.ReplaceFinished` | app/documents/services/document_service.py:395-418 | after a replacement each clean-up that did not fail left its key neither stored nor logged, each that failed left it both |
| `DocumentService.ReplaceFailed` | app/documents/services/document_service.py:347-393 | row, objects and log after a refused upload, a refused row and a failed promotion |
| `DocumentService.Service.PutObject` | app/documents/services/document_service.py:572-595 | wherever the spool stands, writes its bytes from the start or stores nothing |
| `DocumentService.Service.DeleteOrLog` | app/documents/services/document_service.py:618-623 | removes the object or logs its key |
| `DocumentService.Service.CreateDocument` | app/documents/services/document_service.py:164-227 | new stores and outcome of creation, upload first; a missing content type falls back on the file type |
| `DocumentService.Service.CommitFileReplacement` | app/documents/services/document_service.py:347-370 | commits the row or removes the staged object |
| `DocumentService.Service.PromoteStagedUpload` | app/documents/services/document_service.py:372-393 | stores the bytes canonically or logs the inconsistency |
| `DocumentService.Service.FinalizeReplacementCleanup` | app/documents/services/document_service.py:395-418 | removes or logs the staged object, and the old one if its key differs |
| `DocumentService.Service.ReplaceDocumentFile` | app/documents/services/document_service.py:261-345 | new stores and outcome of a replacement; a refused upload changes nothing, and one without a content type is always refused |
| `DocumentService.Service.StageCommitPromote` | app/documents/services/document_service.py:317-345 | both puts write all of the spool although the first moves its position; outcome and stores for every choice of faults |
| `DocumentService.Service.DeleteDocument` | app/documents/services/document_service.py:420-456 | new stores and outcome of deletion, row first |
| `LoginThrottle.HistoriesReachable` | app/identity/repositories/login_attempt.py:89-105 | in every reachable state the lock counter c satisfies: c >= 2 implies base * 2^(c-2) < cap |
| `LoginThrottle.ConsecutiveLocks` | app/identity/repositories/login_attempt.py:89-105 | a lock waits out the previous one; streaks continue within the cap; a cap-length lock is followed by a base-length one |
| `LoginThrottle.StreakBackoff` | app/identity/repositories/login_attempt.py:89-105 | the k-th lock of a streak comes at least base * (2^(k-1) - 1) seconds after the first |
| `LoginThrottle.LockLength` | app/identity/repositories/login_attempt.py:89-105 | a lock within cap of the last lasts twice as long, up to cap; a later one lasts base again |
| `LoginThrottle.FirstLockLength` | app/identity/repositories/login_attempt.py:94-97 | the first lock lasts base |
| `LoginThrottle.StreakLockLength` | app/identity/repositories/login_attempt.py:89-105 | the k-th lock of a streak lasts exactly min(base * 2^(k-1), cap) |
| `LoginThrottle.BlockedExactly` | app/identity/repositories/login_attempt.py:58-63 | attempts are blocked exactly until the latest lock's length is over, and told the seconds left |
| `LoginThrottle.ClearedExactly` | app/identity/repositories/login_attempt.py:65-105 | what each verdict clears and what it keeps |
| `LoginThrottle.NeverLocked` | app/identity/repositories/login_attempt.py:58-63 | nobody is blocked before a first lock |
| `LoginThrottle.EscalationReached` | app/identity/repositories/login_attempt.py:89-105 | under every policy every cycle within the bound is reached by some history |
| `LoginThrottle.UsualPolicy` | app/core/config.py:88-91 | with five failures, base 30 and cap 900, locks last 30, 60, 120, 240, 480 and 900 seconds |
| `LoginThrottle.CounterCountsHistory` | app/identity/repositories/login_attempt.py:70-86 | the stored counter is the number of failures since the window's opener |
| `LoginThrottle.LocksAtTheLimit` | app/identity/repositories/login_attempt.py:79-86 | an attempt locks exactly as the max-th failure of its window |
| `LoginThrottle.FailuresPerWindow` | app/identity/repositories/login_attempt.py:65-86 | a lock-free stretch within one window's length holds at most as many failures as its policy and successes allow |
| `LoginThrottle.MostFailuresIs` | app/identity/repositories/login_attempt.py:65-86 | that many is (s + 2) * (max - 1) - 1 for s successes, (s + 1) * (max - 1) with a one-second window, none if max is 1 |
| `LoginThrottle.BoundAttained` | app/identity/repositories/login_attempt.py:65-86 | under every policy and for every s some history holds exactly that many |
| `LoginThrottle.SuccessesReopenTheBudget` | app/identity/repositories/login_attempt.py:65-68 | 2 * (max - 1) bounds every such stretch iff s * (max - 1) <= 1, or, for a one-second window, iff s <= 1 or max = 1 |
| `LoginAttemptRepository.KeysDisjoint` | app/identity/repositories/login_attempt.py:107-114 | three keys per identifier, none shared |
| `LoginAttemptRepository.LoginAttempts.GetLockStatus` | app/identity/repositories/login_attempt.py:58-63 | locked iff the lock key is alive, with its seconds left |
| `LoginAttemptRepository.LoginAttempts.RecordSuccess` | app/identity/repositories/login_attempt.py:65-68 | clears failures and lock, keeps the lock counter and all other keys |
| `LoginAttemptRepository.LoginAttempts.RecordFailure` | app/identity/repositories/login_attempt.py:70-86 | the store's three keys follow the throttle function |
| `LoginAttemptRepository.LoginAttempts.SetLock` | app/identity/repositories/login_attempt.py:89-105 | counts the cycle, sets the lock for its duration, clears failures |
| `LoginAttemptRepository.OthersKept` | app/identity/repositories/login_attempt.py:107-114 | other identifiers keep their state |
| `IpRateLimit.IpLimiter.Check` | app/identity/repositories/ip_rate_limit.py:37-54 | counts the hit, verdict and retry time, all other keys kept |
| `IpRateLimit.CounterCountsLog` | app/identity/repositories/ip_rate_limit.py:42-45 | the counter is the number of requests since the first hit; denied ones never extend the window |
| `IpRateLimit.AllowedMeaning` | app/identity/repositories/ip_rate_limit.py:47-48 | allowed iff fewer than limit requests precede it in its window |
| `IpRateLimit.AdmittedPerWindow` | app/identity/repositories/ip_rate_limit.py:37-54 | any window's length admits at most 2 * limit - 1 requests, or limit if the window is one second |
| `IpRateLimit.BoundAttained` | app/identity/repositories/ip_rate_limit.py:37-54 | some log admits exactly that many, for every limit and window |
| `AuthService.Auth.Login` | app/identity/services/auth_service.py:52-127 | result and both throttles' new state for every order of checks and outages; other identifiers kept |
| `AuthService.TokenExactly` | app/identity/services/auth_service.py:89-127 | exactly when a token is issued; a locked identifier's counters are never touched |
| `AuthService.AnswersExactly` | app/identity/services/auth_service.py:89-127 | exactly when each other answer is given; retry times are the seconds until the window or the lock is over |
| `AuthService.ReplyContinuesHistory` | app/identity/services/auth_service.py:89-127 | a login moves throttle and address slot exactly as it moves the identifier's and the address's history |
| `AuthService.HistoriesOrdered` | app/identity/services/auth_service.py:89-127 | both histories of a run are in order of time, so every bound on ordered histories holds of runs |
| `AuthService.Auth.LoginAt` | app/identity/services/auth_service.py:52-127 | the answer and the whole store after one request follow from the request log alone |
| `AuthService.Auth.Serve` | app/identity/services/auth_service.py:52-127 | after any run of requests the store holds every identifier's and every address's history and each answer followed from what came before |
| `AmountInWords.ThreeDigitWords` | app/receipts/services/receipt_render_models.py:32-44 | the joined words of a group; out of range from 2000 on |
| `AmountInWords.IntegerToWords` | app/receipts/services/receipt_render_models.py:47-58 | the joined words of an integer; out of range from two trillion on |
| `AmountInWords.RenderAmount` | app/receipts/services/receipt_render_models.py:61-72 | the text reads back to the same cents, for any vocabulary whose words can be told apart |
| `AmountInWords.AmountToWords` | app/receipts/services/receipt_render_models.py:61-72 | the same for the English tables, and exactly when it fails |
| `AmountInWords.RoundTrip` | app/receipts/services/receipt_render_models.py:61-72 | reading the rendering gives back exactly the cents |
| `AmountInWords.AmountLine` | app/receipts/services/receipt_render_models.py:61-72 | integer words, Pesos and, and two digits over 100 |
| `AmountInWords.RenderingInjective` | app/receipts/services/receipt_render_models.py:61-72 | two amounts never read the same |
| `AmountInWords.EnglishReadable` | app/receipts/services/receipt_render_models.py:6-29 | the English words can be told apart |
| `AmountInWords.OneName` | app/receipts/services/receipt_render_models.py:6-29 | the names of one to nine |
| `AmountInWords.TeenName` | app/receipts/services/receipt_render_models.py:6-29 | the names of ten to nineteen |
| `AmountInWords.TenName` | app/receipts/services/receipt_render_models.py:6-29 | the names of the tens |
| `AmountInWords.ScaleName` | app/receipts/services/receipt_render_models.py:6-58 | the names of the scales, of hundred and of zero |
| `AmountInWords.TensWords` | app/receipts/services/receipt_render_models.py:32-44 | tens and units are joined by a hyphen |
| `AmountInWords.HundredWords` | app/receipts/services/receipt_render_models.py:32-44 | hundreds come first, in words |
| `AmountInWords.ScaleWords` | app/receipts/services/receipt_render_models.py:47-58 | so many of a scale, then what is left in the smaller ones |
| `AmountInWords.DocumentedAmount` | app/receipts/tests/unittests/test_receipt_pdf.py:213 | 1250 reads One Thousand Two Hundred Fifty |
| `Occupancy.RunsKeepRegistered` | app/leasing/models/contract.py:101 | over all runs, overrides included, a property has at most one ACTIVE contract |
| `Occupancy.RunKeepsProperty` | app/leasing/services/contract_service.py:76-166 | a property stays occupied iff it has an ACTIVE contract if statuses set by hand for it are true, whatever is set for others |
| `Occupancy.RunsKeepOccupancy` | app/leasing/services/contract_service.py:76-166 | hence all properties at once |
| `Occupancy.NextChangeRepairs` | app/leasing/services/contract_service.py:186-203 | after any run, a contract that becomes or ceases to be ACTIVE sets its property's status right |
| `Occupancy.ContractRunsTruthful` | app/leasing/services/contract_service.py:76-166 | runs that set nothing by hand for a property need no condition |
| `Occupancy.StepExact` | app/properties/schemas/property.py:15-35 | one operation keeps a property's agreement iff a status it sets by hand, at creation or later, tells the truth |
| `Occupancy.CommitsExactly` | app/leasing/services/contract_service.py:76-166 | when a contract is created, updated or deleted, and what each refusal means |
| `Occupancy.ContractWritten` | app/leasing/services/contract_service.py:76-166 | a committed operation writes its own contract and touches no other contract and no other property |
| `Occupancy.Contracts.CreateContract` | app/leasing/services/contract_service.py:76-112 | new state and error of creation; a rejection changes nothing |
| `Occupancy.Contracts.UpdateContract` | app/leasing/services/contract_service.py:114-141 | new state and error of an update |
| `Occupancy.Contracts.DeleteContract` | app/leasing/services/contract_service.py:143-166 | new state and error of a deletion |
| `Occupancy.Contracts.SyncPropertyStatus` | app/leasing/services/contract_service.py:186-203 | writes the implied status, if any |
| `DocumentLinks.ResolveNormal` | app/documents/services/document_service.py:690-732 | whatever resolves is in normal form |
| `DocumentLinks.ResolveExactly` | app/documents/services/document_service.py:690-732 | what the request names is taken, what it leaves out is kept, the contract decides property and tenant; whatever meets that resolves |
| `DocumentLinks.AdmittedExactly` | app/core/services/base.py:71-88 | administrators always, plain users never, a manager exactly for a property of theirs; not found exactly if a named row is missing |
| `DocumentLinks.DocumentWritten` | app/documents/services/document_service.py:164-260 | creating and relinking write what resolves, if the user is admitted before and after |
| `DocumentLinks.ResolveIdempotent` | app/documents/services/document_service.py:690-732 | resolving a resolved document again changes nothing |
| `DocumentLinks.RelinkExact` | app/documents/services/document_service.py:723-730 | a contract-linked document moves to a contract alone iff property and tenant are the same |
| `DocumentLinks.DeletedExactly` | app/documents/models/document.py:22-32 | a referenced row is not deleted; otherwise that row alone goes |
| `DocumentLinks.ListMatchesCheckExactly` | app/documents/repositories/document.py:73-85 | for any existing links, list and check agree for all managers iff no managed property contradicts the contract |
| `DocumentLinks.ListMatchesCheck` | app/core/services/base.py:130-170 | in every reachable state list and single check agree, and an empty relink changes nothing |

## Left out

- Routes, authentication tokens, password hashing, PDF rendering, migrations, audit log, pagination, reference-number prefixes, collections and tenants beyond their ids: I/O, libraries or easy members.
- Authorization in the billing and contract operations: the check is modelled once, for documents; there a refused user is one more abort.
- Manager-scoped variants of the dashboard sums: the same sums over fewer rows.
- Decimals: amounts with fractions of a cent and values beyond NUMERIC(12,2) are not represented; negative amounts in words are not either.
- Receipts pointing at payments: a receipt also refuses the deletion of its payment.
- Editing a contract's rental type: contracts are given with theirs.
- Deleting leases, and the lease status: jobs take the listing of leases as a parameter.
- Concurrent payments on one record, concurrent corrections of one payment, concurrent requests on one document: the code has no lock or constraint for them.
- The date rolling over during a sweep: one date is used throughout.
- A commit whose outcome is unknown, and partial storage writes: commits and object writes either happen or fail.
- A request that dies between two steps of the document protocol without reaching its own error handling.
- Which exception a refused upload inside a replacement raises, where attributes of a dictionary are read (app/documents/services/document_service.py:520, 533-539): nothing is stored in any case.
- Spooling to disk, closing the spooled file, and memory limits of an upload; its bytes and position are modelled.
- A store failure between counting a key and setting its expiry, sub-second expiry, and the trimming and lower-casing of identifiers: keys take the normalised text, an outage leaves the store unchanged.
- Concurrent login attempts on one identifier: attempts are serial.
- Periods.UnsafeEditBreaksChain: speaks of one continuation by two workers, enough to show that the guard cannot be dropped.
