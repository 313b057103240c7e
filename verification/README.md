# Dawah worker: credits, imports, exports and recovery

Dafny 4.11 models of the transactional and queue logic of the Dawah worker, with proofs about whole runs,
interleavings and round trips. `dafny verify dfyconfig.toml` checks everything.

| part | modules |
|---|---|
| credit ledger | `CreditDomain`, `CreditLedger`, `CreditDatabase`, `CreditRuns`, `CreditOutcomes`, `CreditReservations`, `CreditConservation`, `CreditRaces` |
| guest imports | `ImportMapping`, `ImportOverlay`, `ImportRows`, `ImportDuplicates`, `ImportJobs` |
| guest exports | `ExportPaging`, `ExportCsv`, `ExportArtifact` |
| messaging recovery | `RecoverySweep`, `RecoverySweepProofs`, `RecoveryDatabase`, `RecoveryMemo`, `RecoverySchedules`, `RecoveryWebhooks` |
| reminder timer | `ReminderSlots` |
| guest responses | `RsvpSubmission` |
| shared | `Basics` |

**How it is built.** Code that changes state is a class or a loop (`CreditDatabase.Database`,
`ImportJobs.ImportStore`, `ExportArtifact.ExportBackend`, `ExportCsv.ArtifactWriter`,
`RecoverySweep.MessagingRecovery`, `RecoveryWebhooks.WebhookQueue`, `RsvpSubmission.InvitationPage`, the import
and paging loops). Its methods are proved equal to specification functions, and the theorems are about those
functions. Anything that may interleave, crash or be delivered again is a state machine whose runs are arbitrary
sequences of events.

## What is assumed

- Each exported credit function is one transaction; database guards and constraints take effect inside it.
  `CreditRaces` drops this for charges and splits them into their unlocked read and their writes. The two guards,
  which lock the account row, and the unique indexes are those of migration `20260913210000`.
- The credit clock is an argument of each operation and may take any value; no proof needs it to be monotone.
- Purchases, bonuses, adjustments and expiries enter a run as arbitrary ledger inserts that are not charges or
  refunds of messages, as `credit-ledger.service.ts` writes them.
- `validateImportRow` and reading a stored import file are functions of what the code hands to them.
- The API's writes to an import raise its revision, except the one that marks it failed when the queue seems
  unavailable, as in `imports.service.ts`.
- The clock does not run backwards between two exhaustions of one send job; every other clock may.
- Column headers are non-blank strings and an import mapping is a JSON object with distinct keys.
- SHA-256 is abstract: a file *is* its digest, and its object key is the event, digest and extension.
- Queues are maps or lists keyed by job id, a bulk add keeps order and returns existing jobs, and adding a job
  whose id exists is a no-op. Job states do not change between the steps of one repair.
- `crypto.randomUUID` never repeats (a counter shared by all pages), and a serialized answer identifies it.
- Timestamps are integers; UUIDs compare as numbers.

## Where the code and its documentation part ways

1. **A consumed reservation keeps its last units.** "units + charged = first reserved" therefore holds of the raw
   columns exactly when the reservation is not consumed (`BatchUnitsAreConserved`, `ConsumedRowExample`). Counting
   a consumed row as holding nothing, conservation is unconditional.
2. **Expired holds that nobody settled.** The guards count them, the reported position does not, so
   `hasAvailableCredits` can say yes to a batch that the guard then aborts. A positive answer is reliable exactly
   when no expired hold is still active (`AvailabilityAnswerIsReliable`, `StaleHoldExample`).
3. **Overlapping charges.** The stage 9 document (docs/reports-exports-checkin-stage9.md:69-73) promises that a
   charge cannot trip the guard. That holds for charges in sequence (`ChargeIsCoveredByItsHold`). The charge reads
   its reservation without a lock and its callers lock only their own message, so charges of one batch can overlap
   with each other and with the batch's settlement. A charge is then rolled back exactly when the account's free
   credit is less than what its reservation lost since it was read, or when the reservation was settled in between,
   or used up although the charge would leave units on it (`OverlappingChargeRejected`, `OverlapExample`,
   `SettledInBetweenExample`); one that commits conserves its batch exactly when nothing touched the reservation in
   between (`OverlappingChargeConserves`); and over any interleaving a batch is off by exactly what its stale writes
   add up to (`OverlapsAccountForEveryUnit`).
4. **The second of two identical exports destroys the first.** Object keys name content, not jobs, and are unique
   among assets. Exporting an unchanged list twice makes the second commit throw, and the cleanup deletes the file
   the first export published; the second job stays in processing, because only queued jobs are claimed
   (`PublishingExactly`, `FilesSurviveExactly`, `SecondExportLosesTheFirst`, `JobsAreClaimedOnce`).
5. **A correction can leak into another field.** The search for an unused header looks only at the row's own keys,
   and blank cells are not keys. The overlay is exact if and only if no made-up header is a mapped column
   (`OverlayIsExactIff`, `CaptureExample`); it always is for rows without blank mapped cells (`FullRowsAreExact`).
6. **A failed reminder enqueue near the end of a slot** is retried in the next slot, despite the comment at
   apps/worker/src/main.ts:279-283; the exact condition is `RetryStaysInSlotExactly`
   (`RetryLeavesTheSlotExample`).
7. **The memo set is keyed by job id, and a retry fences batches only.** The comments at
   apps/worker/src/messaging-recovery.ts:48-55 call replays harmless and the host's retry a fence. Over any schedule
   the memo leaves no trace exactly when no sweep passes over a memoised job that the database would still accept
   (`MemoIsHarmlessExactly`); a batch job that exhausts again after a retry is such a job (`SecondExhaustionExample`).
   The fence does shut out every earlier exhaustion of the batch's own job (`RecordedBatchesStaySettled`), but none
   of its messages' jobs: after a restart, a stale one fails a message that the retry has just put back in the queue
   (`RetryFencesBatchesOnly`, `StaleMessageExample`).
8. **Safe spreadsheet text is not injective**: `=1` and `'=1` are written alike, and only such pairs are
   (`SafeTextConfusesExactly`).
9. **A late delivery can override a saved response.** When the page gives up on a request and the guest then saves
   another answer, the first request still counts if it arrives afterwards. The stored answer is final exactly
   when no unrecorded request carries a different one (`StoredAnswerIsFinalExactly`, `LateDeliveryExample`).

## Model

| member | source | states |
|---|---|---|
| CreditDomain.CalculateCreditPosition | packages/domain/src/credits.ts:89-120 | The two summing loops compute the specified position, or raise exactly where it does. |
| CreditDomain.PositionIsExact | packages/domain/src/credits.ts:89-120 | Any position that is computed is exact: balance, live reservations, their difference and the number of live reservations, nothing skipped or rounded. |
| CreditDomain.PositionIsComputedExactly | packages/domain/src/credits.ts:62-119 | A position is computed, and nothing raises, exactly if every line has its type's sign, every reservation holds a positive amount, and no running total leaves the safe integers. |
| CreditDomain.ChargeReservation | packages/domain/src/credits.ts:183-210 | A charge is accepted exactly for an active hold and 0 < units <= held; what stays on the row is positive, a partial charge leaves exactly the rest, and the row is consumed exactly when all of it is charged. |
| CreditLedger.GroupingKeepsTotal | apps/worker/src/credit-ledger.ts:262-281 | Grouping entries by type and dropping types that net to zero loses no units. |
| CreditLedger.PositionIsLiveAvailability | apps/worker/src/credit-ledger.ts:256-291 | The position read through the grouped query is the balance of all entries less the holds live at that time. |
| CreditDatabase.Database.HasAvailable | apps/worker/src/credit-ledger.ts:56-67 | True for no units and for an unbilled event; for a reachable account yes or no exactly as the units fit into the balance less the live holds. |
| CreditOutcomes.AvailabilityOutcome | apps/worker/src/credit-ledger.ts:52-67 | In a reachable account the answer is always given, and is yes if and only if the units are none or at most the balance less the live holds. |
| CreditDatabase.Database.Reserve | apps/worker/src/credit-ledger.ts:74-109 | The accounts become those of the specified reservation, or stay as they were when it aborts or the event is not billed. |
| CreditDatabase.Database.Charge | apps/worker/src/credit-ledger.ts:120-186 | The accounts become those of the specified charge, hold and ledger together, or neither. |
| CreditDatabase.Database.RefundCharge | apps/worker/src/credit-ledger.ts:192-230 | The accounts become those of the specified refund; no other event is touched. |
| CreditDatabase.Database.Settle | apps/worker/src/credit-ledger.ts:237-254 | The accounts become those of the specified settlement; no other event is touched. |
| CreditDatabase.Database.CreditPositionOf | apps/worker/src/credit-ledger.ts:256-291 | The grouping loop computes the specified position of the account. |
| CreditOutcomes.ReserveOutcome | apps/worker/src/credit-ledger.ts:74-109 | Each way a reservation ends in a reachable account, in order, and the one row it adds: active, for all its units, expiring a day later. |
| CreditOutcomes.ChargeWithoutEffect | apps/worker/src/credit-ledger.ts:125-150 | No units, a message charged before, or no active reservation of the batch that holds enough: false, and no row changes. |
| CreditOutcomes.ChargeWithEffect | apps/worker/src/credit-ledger.ts:141-185 | A covered charge in a reachable account is never rolled back: it adds one negative entry for the message and batch, and draws the reservation down or consumes it. |
| CreditOutcomes.RefundOutcome | apps/worker/src/credit-ledger.ts:192-230 | In a reachable account no guard rejects a refund; it adds one entry, exactly for a charged message without one. |
| CreditOutcomes.SettleOutcome | apps/worker/src/credit-ledger.ts:237-254 | An active reservation of the batch becomes released with its units and expiry, any other is left alone, and nothing is ever rejected. |
| CreditRuns.EveryRunIsSound | database/migrations/20260913210000_stage9_operations_foundation/migration.sql:233-282 | In every reachable state entries obey their signs and unique references, refunds follow their charges, and the balance covers all active holds. |
| CreditRuns.AvailableNeverNegative | apps/worker/src/credit-ledger.ts:74-254 | Over every run and at any time, available credit is never negative, whether expired holds are counted or not. |
| CreditRuns.ChargeIsCoveredByItsHold | apps/worker/src/credit-ledger.ts:111-186 | A charge run in one piece never trips a guard and succeeds exactly for an uncharged message whose batch actively holds enough; it then leaves guarded availability unchanged, and reported availability too if the hold is live; if it reports false nothing changed. |
| CreditRuns.RefundsAndSettlementsOnlyFreeCredit | apps/worker/src/credit-ledger.ts:188-254 | Refunds and settlements are never rejected; they free exactly the units of a charged, unrefunded message, or what an active hold still holds, and otherwise change nothing. |
| CreditRuns.WriteChargeKeepsSound | apps/worker/src/credit-ledger.ts:152-185 | Whatever units the reading half saw, a charge that commits leaves a sound account. |
| CreditReservations.PositionNeverRaises | apps/worker/src/credit-ledger.ts:256-291 | In a reachable account within the safe integers, computing the position succeeds. |
| CreditReservations.ReserveExactly | apps/worker/src/credit-ledger.ts:74-109 | When a batch is granted its hold, refused for lack of credit, or aborted by the guard, each if and only if; a granted hold lowers availability by its units. |
| CreditReservations.AvailabilityAnswerIsReliable | apps/worker/src/credit-ledger.ts:52-67 | A positive availability answer can be acted on for every amount if and only if no expired hold is still active. |
| CreditReservations.StaleHoldExample | apps/worker/src/credit-ledger.ts:56-67 | A concrete run in which available credit is reported and then refused by the guard. |
| CreditConservation.BatchUnitsAreConserved | apps/worker/src/credit-ledger.ts:120-254 | In every reachable state what was charged to a batch and what its reservation still holds add up to what was first reserved; the raw units do so exactly unless the row is consumed, and it is consumed exactly when all was charged. |
| CreditConservation.ConsumedRowExample | packages/domain/src/credits.ts:180-209 | A reservation charged in one go, for any amount: its consumed row and its charge add up to twice what was reserved. |
| CreditConservation.EveryRunConserves | apps/worker/src/credit-ledger.ts:74-254 | Conservation holds for all batches at once after any run, and nothing is charged to a batch without a reservation. |
| CreditConservation.MessageIsChargedAndRefundedAtMostOnce | apps/worker/src/credit-ledger.ts:130-139 | Under any replay a message has at most one charge and one refund, and no refund without a charge. |
| CreditConservation.HistoryIsNeverRewritten | apps/worker/src/credit-ledger.ts:188-236 | Later transactions only append entries, and never touch a reservation that is no longer active. |
| CreditConservation.RedeliveryIsNoOp | apps/worker/src/credit-ledger.ts:111-119 | A charge, refund or settlement that took effect reports false and changes nothing whenever it is delivered again. |
| CreditRaces.EveryInterleavingIsSound | apps/worker/src/prisma-messaging-repository.ts:245-304 | However the halves of charges interleave with each other and with whole transactions, the guards keep the account sound. |
| CreditRaces.HalvesMakeACharge | apps/worker/src/credit-ledger.ts:130-185 | A charge whose halves nothing separates is the charge run in one piece, and its read goes on to write exactly when that would succeed. |
| CreditRaces.OverlappingChargeConserves | apps/worker/src/credit-ledger.ts:141-185 | A charge that commits keeps its batch's units conserved if and only if its reservation still was as it was read. |
| CreditRaces.OverlappingChargeRejected | apps/worker/src/credit-ledger.ts:141-185 | A charge is rolled back if and only if free credit is less than what its reservation lost since it was read, or the reservation was meanwhile settled, or used up although the charge leaves units on it; an active reservation can only cause the former, an untouched one neither. |
| CreditRaces.OverlapsAccountForEveryUnit | apps/worker/src/prisma-messaging-repository.ts:245-304 | Over every interleaving, charged plus held is what was first reserved plus what stale writes shifted, so a batch is conserved if and only if these cancel out. |
| CreditRaces.SettledInBetweenExample | apps/worker/src/prisma-messaging-repository.ts:1430-1483 | A batch settles between the halves of a charge: with credit to spare and nothing taken, the charge is rolled back. |
| CreditRaces.OverlapExample | docs/reports-exports-checkin-stage9.md:69-77 | Two overlapping charges of a fully covered batch, of which the second is rejected though it would succeed in one piece. |
| ImportMapping.ReadColumnMapping | apps/worker/src/import-processor.ts:552-602 | A mapping is accepted if and only if it is a record of supported fields to existing headers, has both required fields, and is injective; the result is that mapping. |
| ImportMapping.AcceptableEntryByEntry | apps/worker/src/import-processor.ts:573-600 | Acceptance in terms of the stored entries: each a supported field on an existing, named column, the two required fields among them, and no column twice. |
| ImportMapping.SpelledReadsTheEntries | apps/worker/src/import-processor.ts:572-601 | The mapping read has exactly the entries of the stored object. |
| ImportMapping.MappableFieldsExactly | apps/worker/src/import-processor.ts:562-571 | A field can occur in some accepted mapping if and only if it is one of the eight import fields. |
| ImportMapping.BlankMeansTrimmedAway | apps/worker/src/import-processor.ts:882-884 | A string counts as empty exactly if trimming it on both sides leaves nothing. |
| ImportOverlay.ApplyCorrections | apps/worker/src/import-processor.ts:619-632 | The correction loop and its inner header search terminate and compute the specified overlay. |
| ImportOverlay.FreshHeader | apps/worker/src/import-processor.ts:625-629 | The search ends with a header the row does not use, for any row. |
| ImportOverlay.LongKeysShrink | apps/worker/src/import-processor.ts:627 | The measure of the search: the keys at least as long as the candidate become fewer with every underscore. |
| ImportOverlay.FreshHeaderIsFirstFree | apps/worker/src/import-processor.ts:625-628 | The header found is the candidate with as few underscores as possible, all shorter ones being in use. |
| ImportOverlay.FreshHeadersAreDistinct | apps/worker/src/import-processor.ts:622-632 | Headers made for several unmapped corrections are pairwise distinct and new to the row. |
| ImportOverlay.OtherColumnsUntouched | apps/worker/src/import-processor.ts:619-632 | A column no correction was written to reads as before, or is still absent. |
| ImportOverlay.CorrectedColumnsExactly | apps/worker/src/import-processor.ts:621-631 | The columns remembered as corrected are exactly the headers that some correction was written to. |
| ImportOverlay.OverlayIsExactIff | apps/worker/src/import-processor.ts:613-640 | For an injective mapping, reading the overlaid row gives the source overridden by the corrections, field by field, if and only if no made-up header is a mapped column (unless corrected later to the same value). |
| ImportOverlay.FullRowsAreExact | apps/worker/src/import-processor.ts:594-632 | With a cell in every mapped column the overlay is always exact. |
| ImportOverlay.CaptureExample | packages/imports/src/index.ts:286-296 | A row with a blank mapped cell whose correction shows up in a second field. |
| ImportRows.ValidateRow | apps/worker/src/import-processor.ts:613-656 | A row is judged on its overlaid cells and normalizes only without any error; an error that names a column is kept if and only if it was stored, its column is mapped and no correction was written there; non-records raise. |
| ImportRows.ErrorsAreKeptThenRaised | apps/worker/src/import-processor.ts:634-644 | The errors are the stored parser errors without a column or on a mapped column that no correction was written to, all of them and in order, followed by the issues raised on the corrected cells. |
| ImportRows.ColumnErrorsExactly | apps/worker/src/import-processor.ts:635-640 | An error naming a column is there if and only if it was stored, its column is mapped and no correction was written there. |
| ImportRows.ValidationSeesTheCorrectedRow | apps/worker/src/import-processor.ts:617-640 | With harmless headers the domain validation sees, for each import field, the correction or else the source cell. |
| ImportRows.IssueRoundTrip | apps/worker/src/import-processor.ts:798-820 | A stored issue reads back as itself exactly when it has a parser code and a message, and is dropped otherwise. |
| ImportRows.ParserIssuesRoundTrip | apps/worker/src/import-processor.ts:798-820 | A list of parser issues survives being stored and read back. |
| ImportRows.StoredErrorsExactly | apps/worker/src/import-processor.ts:793-820 | From a stored list, an issue is read if and only if some object in it has a parser code, a message, and this column or no named one. |
| ImportRows.SourceReadsTheFields | apps/worker/src/import-processor.ts:770-778 | A row's source has exactly the fields of the stored object, with their values. |
| ImportRows.RevalidationIsAFixpoint | apps/worker/src/import-processor.ts:634-645 | Validating again from the stored errors, under the same mapping and corrections, gives the same errors if and only if no domain issue, stored as it is without a column, reads as a parser issue. |
| ImportDuplicates.GroupByPhone | apps/worker/src/import-processor.ts:662-667 | The map holds, for every phone, its invitations in order. |
| ImportDuplicates.DetectRows | apps/worker/src/import-processor.ts:662-757 | The single pass over two maps yields the rows and warnings of the quadratic definition. |
| ImportDuplicates.DetectDuplicates | apps/worker/src/import-processor.ts:658-768 | Rows, counts and status of the quadratic definition; every row keeps its id and phone, and the import is ready if and only if every row normalized. |
| ImportDuplicates.ReadyExactly | apps/worker/src/import-processor.ts:759-766 | The import is ready if every row normalized, and up for review otherwise. |
| ImportDuplicates.InvitationDuplicatesExactly | apps/worker/src/import-processor.ts:722-744 | A row new to the file but not to the guest list names the first matching invitation of the table and warns of the first hundred, in order; with no match it is valid. |
| ImportDuplicates.CountsInClosedForm | apps/worker/src/import-processor.ts:759-767 | Valid rows are as many as distinct normalized phones not yet invited, invalid rows those that did not normalize, and the counts cover all rows. |
| ImportDuplicates.RowOrderDoesNotMatter | apps/worker/src/import-processor.ts:658-768 | Counts, status and the set of valid phones are the same for any permutation of the rows. |
| ImportDuplicates.DuplicatesNameTheEarliestRow | apps/worker/src/import-processor.ts:690-720 | A row is the duplicate of a row if and only if an earlier one has its phone; it then names the earliest, which names none. |
| ImportDuplicates.ValidRowExactly | apps/worker/src/import-processor.ts:669-757 | A row is valid if and only if it normalized, no earlier row has its phone and no active invitation does. |
| ImportDuplicates.ImportedRowsAreNeverValidAgain | apps/worker/src/import-processor.ts:722-744 | Once the valid rows are invitations, validating the same rows finds none valid. |
| ImportDuplicates.NarrowedLookupIsLossless | apps/worker/src/import-processor.ts:356-369 | Looking up only the invitations with the file's phones gives the result of the whole table. |
| ImportJobs.ImportStore.MarkClaimedJob | apps/worker/src/prisma-import-repository.ts:48-68 | A claim succeeds exactly at the expected revision, from uploaded for a parse and from awaiting mapping, reviewing or ready for a validation; a parse claim forgets an earlier failure. |
| ImportJobs.ImportStore.CompleteJob | apps/worker/src/prisma-import-repository.ts:70-147 | A completion takes effect exactly at the expected revision while the job is being parsed or validated, raises the revision and clears the failure. |
| ImportJobs.ImportStore.MarkFailedJob | apps/worker/src/prisma-import-repository.ts:267-289 | A failure is stored, with a new revision, exactly at the expected revision of a job that is not cancelled, importing, completed or failed. |
| ImportJobs.ImportStore.ProcessParse | apps/worker/src/import-processor.ts:206-313 | At its revision an uploaded job, or one being parsed, ends parsed or failed with the code, one revision on; any other is skipped for the stated reason and left alone. |
| ImportJobs.ImportStore.ProcessValidation | apps/worker/src/import-processor.ts:315-392 | At its revision a job awaiting mapping, being validated, reviewing or ready ends validated or failed with the code, one revision on; any other is skipped for the stated reason and left alone. |
| ImportJobs.SkipReasonExactly | apps/worker/src/import-processor.ts:413-428 | Which messages are worked on, by revision and status, and the reason for which each other one is skipped. |
| ImportJobs.UninterruptedDeliverySettles | apps/worker/src/import-processor.ts:206-392 | The step machine run alone ends within five steps in the settled job, and reports that it finished, failed or was skipped, each exactly when it did. |
| ImportJobs.OneDeliveryIsASchedule | apps/worker/src/import-processor.ts:200-203 | Delivering a message and letting it run is one of the schedules, and settles the job. |
| ImportJobs.EveryScheduleStaysOnItsWay | apps/worker/src/import-processor.ts:206-392 | Under any interleaving of deliveries and crashes that no change by the API enters, job and deliveries hold only what one uninterrupted delivery would have read and concluded. |
| ImportJobs.ChangesAreNeverOverwritten | apps/api/src/imports/imports.service.ts:317-333 | Once the API edits, confirms, cancels or fails the import, even between two steps of a delivery, it stays as the API last left it. |
| ImportJobs.RedeliveryIsHarmless | apps/worker/src/import-processor.ts:206-392 | At any time the job is as the API last changed it, or else untouched, claimed or as one uninterrupted delivery leaves it, and the latter once any delivery finished or failed. |
| ImportJobs.OneMoreDeliverySettles | apps/worker/src/import-processor.ts:206-392 | After any schedule, one uninterrupted delivery brings the job to the state of a single one, or leaves it as the API changed it. |
| ImportJobs.SkippedMessagesChangeNothing | apps/worker/src/import-processor.ts:413-428 | A message with a stale revision, or for a job past its stage, never changes anything, however often it is delivered and whatever the API does meanwhile. |
| ExportPaging.AssertForwardProgress | apps/worker/src/export-processor.ts:442-464 | Raises exactly when the page is too long or some row does not lie past the one before it. |
| ExportPaging.ProgressExactly | apps/worker/src/export-processor.ts:442-464 | A page passes if and only if it is no longer than asked for and each row is later than the one before, or as late with a greater id. |
| ExportPaging.WritePages | apps/worker/src/export-processor.ts:160-174 | The loop writes what the specification of paging says and counts the rows it wrote. |
| ExportPaging.WrittenRowsIncrease | apps/worker/src/export-processor.ts:442-464 | Whatever a repository answers, the rows written are in strictly increasing cursor order. |
| ExportPaging.WrittenRowsWereThere | apps/worker/src/prisma-export-repository.ts:88-134 | On a changing table no check ever fires, and every row written belongs to a page and was in the table when that page was read. |
| ExportPaging.PresentRowsAreWrittenExactlyOnce | docs/reports-exports-checkin-stage9.md:35-37 | A row that is there throughout a finished export is written exactly once and in order, whatever else comes and goes, for any page size. |
| ExportPaging.FixedTableIsExportedWhole | apps/worker/src/export-processor.ts:160-174 | On a fixed table the loop terminates and writes exactly the table. |
| ExportCsv.ArtifactWriter.constructor | apps/worker/src/export-processor.ts:367-371 | A new writer spells the file without rows, byte order mark and header included. |
| ExportCsv.ArtifactWriter.AddRows | apps/worker/src/export-processor.ts:373-379 | Adding rows to a writer that spells a file makes it spell the file with these rows after the others. |
| ExportCsv.ArtifactWriter.Finish | apps/worker/src/export-processor.ts:380-382 | The text returned is the file of all rows added, and a parser reads these rows back. |
| ExportCsv.FileReadsBack | apps/worker/src/export-processor.ts:367-384 | A parser for section 2 of RFC 4180 (with text beyond ASCII) gives back the header and every cell's safe text or digits, for all quotes, commas and line breaks. |
| ExportCsv.LineReadsBack | apps/worker/src/export-processor.ts:374-377 | One line reads back as one record of its cells, whatever follows it. |
| ExportCsv.HeaderRecordWithPhone | docs/reports-exports-checkin-stage9.md:37-40 | The phone column comes fourth if it is included, and is absent otherwise, not empty. |
| ExportCsv.TextsOfARecord | apps/worker/src/export-processor.ts:282-361 | The text fields of a record, in their places: the safe form of the row's own texts, and nothing for an unknown delivery status. |
| ExportCsv.NumbersOfARecord | apps/worker/src/export-processor.ts:318-353 | The number fields in their places; the guests still missing are never negative. |
| ExportCsv.FreeTextIsSafe | apps/worker/src/export-processor.ts:290-329 | Also where no cell escapes it again, as in a workbook, free text never starts a formula. |
| ExportCsv.SafeTextOnce | apps/worker/src/export-processor.ts:426-428 | Making text safe twice is making it safe once, and safe text never starts a formula. |
| ExportCsv.CellCarriesItsContent | apps/worker/src/export-processor.ts:282-361 | Though free text is made safe by its column and by its cell, a cell carries the safe form of its content once. |
| ExportCsv.SafeTextConfusesExactly | apps/worker/src/export-processor.ts:426-428 | Two texts have one safe form if and only if they are equal or differ by the apostrophe that one of them already has. |
| ExportCsv.NumberReadsBack | apps/worker/src/export-processor.ts:420-424 | A number cell reads back as its number, negative ones included. |
| ExportArtifact.ExportBackend.Publish | apps/worker/src/export-processor.ts:191-268 | Does what the attempt's step machine does, whichever calls fail; publishes if and only if the file reads back with its size, digest and content type, the event's job is being processed and the key is new; every other exit is as stated, and leaves no file if its delete works, unless the completed job names it. |
| ExportArtifact.ExportBackend.SafelyDelete | apps/worker/src/export-processor.ts:479-490 | Deletes the object, or leaves everything as it was if the delete fails. |
| ExportArtifact.JobsAreClaimedOnce | apps/worker/src/prisma-export-repository.ts:35-86 | Over every run a job has at most one attempt and never returns to the queue. |
| ExportArtifact.CommittedFilesSurvive | apps/worker/src/export-processor.ts:191-266 | If jobs publish under distinct keys and a commit that throws did not happen, then over every run each committed asset has its file with the recorded size and digest, and any other exit whose delete worked leaves no object. |
| ExportArtifact.PublishingExactly | apps/worker/src/prisma-export-repository.ts:136-235 | An undisturbed attempt publishes if and only if no asset has its key; otherwise it throws and deletes the file under that key. |
| ExportArtifact.FilesSurviveExactly | packages/storage/src/keys.ts:92-100 | After an undisturbed attempt every committed asset has its file if and only if the attempt's key was new. |
| ExportArtifact.SecondExportLosesTheFirst | database/schema.prisma:487 | Two jobs with the same content: the first ends completed without its file, the second stays in processing. |
| RecoverySweep.MessagingRecovery.ReplayPage | apps/worker/src/messaging-recovery.ts:92-104 | The loop over a page updates memo and database calls as the specification of a page says, including every early exit. |
| RecoverySweep.MessagingRecovery.ReconcileExhaustedSends | apps/worker/src/messaging-recovery.ts:83-107 | The sweep terminates, makes the calls of the specified sweep, and returns their number unless one threw. |
| RecoverySweep.MessagingRecovery.MarkReconciled | apps/worker/src/messaging-recovery.ts:109-112 | Adds the id to the memo and nothing else. |
| RecoverySweepProofs.SweepMissesNothing | apps/worker/src/messaging-recovery.ts:83-107 | On a newest-first list that may grow at the front between pages, an uninterrupted sweep records every qualifying job listed at its start that was not memoised. |
| RecoverySweepProofs.SweepRecordsOnlyQualifying | apps/worker/src/messaging-recovery.ts:92-101 | Only listed, exhausted, recent jobs that are not response confirmations are recorded, at the time they were exhausted. |
| RecoverySweepProofs.SweepRecordsOnce | apps/worker/src/messaging-recovery.ts:95-105 | As long as the memo stays within its limit, a sweep records no id twice and none that was memoised. |
| RecoverySweepProofs.SweepRecordsExactly | apps/worker/src/messaging-recovery.ts:83-120 | In the jobs' own fields: an uninterrupted sweep records every unmemoised job listed at its start that is no confirmation, finished within a day and has used up its attempts, and only such jobs, at the time they finished. |
| RecoverySweepProofs.MemoStaysBounded | apps/worker/src/messaging-recovery.ts:105 | A sweep that starts within fifty thousand remembered jobs never remembers more than a page on top. |
| RecoveryMemo.MemoisedJobsAreRecorded | apps/worker/src/messaging-recovery.ts:54-56 | In every reachable state each memoised id has had a bookkeeping call finish. |
| RecoveryDatabase.AdmitsMeansChanges | apps/worker/src/prisma-messaging-repository.ts:625-782 | Bookkeeping changes the database exactly for a live batch within its fence that has an untried message, or for a message that is queued or being sent. |
| RecoveryMemo.MemoIsHarmlessExactly | apps/worker/src/messaging-recovery.ts:92-105 | Over any schedule the database is at every moment that of a process that remembers nothing, if and only if no sweep passes over a memoised job that the database would still accept. |
| RecoveryMemo.RecordedBatchesStaySettled | apps/api/src/messaging/messaging.service.ts:889-954 | Over any schedule, with retries fenced as the code computes it, a batch job that was recorded never has an effect again. |
| RecoveryMemo.RetryFencesBatchesOnly | apps/api/src/messaging/messaging.service.ts:910-939 | After a retry no earlier exhaustion of the batch's own job has an effect, while a message's job still fails exactly a message that is open or that the retry reopens. |
| RecoveryMemo.MemoIsOnlyACache | apps/worker/src/main.ts:435-458 | The memo leaves no trace under any schedule in which a memoised batch job is not visited after exhausting again and no retry reopens a message whose job is memoised. |
| RecoverySchedules.SweepIsASchedule | apps/worker/src/messaging-recovery.ts:83-107 | What a whole sweep does to memo and database is what some schedule of single visits and clearings does. |
| RecoverySchedules.SecondExhaustionExample | apps/worker/src/messaging-recovery.ts:95-102 | A batch retried and exhausted again while memoised, left unmarked although a process without memo would mark it. |
| RecoverySchedules.StaleMessageExample | apps/worker/src/messaging-recovery.ts:48-55 | After a retry and a restart, a stale message job fails the message that the retry put back in the queue. |
| RecoveryWebhooks.WebhookQueue.RecoverWebhooks | apps/worker/src/messaging-recovery.ts:59-81 | From any queue state, each given event ends with one job neither failed nor completed, and every other job is unchanged. |
| RecoveryWebhooks.WebhookQueue.AddWebhookJobs | apps/worker/src/main.ts:390-397 | Adds a waiting job for each id without one, and leaves existing jobs alone. |
| RecoveryWebhooks.RepairIsComplete | apps/worker/src/messaging-recovery.ts:59-81 | A given job that was missing, failed or completed is waiting again, one on its way stays as it is, the others are as before, and repairing again changes nothing. |
| ReminderSlots.NextSlotExactly | apps/worker/src/main.ts:285-292 | After a success the next slot asked for is the successor if and only if the enqueue ended in its own slot and the timer fires less than an interval late. |
| ReminderSlots.RetryStaysInSlotExactly | apps/worker/src/main.ts:293-296 | A failed enqueue is retried in its slot if and only if failure, delay and lateness still fit into it. |
| ReminderSlots.RetryLeavesTheSlotExample | apps/worker/src/main.ts:279-283 | An enqueue failing in the last millisecond of its slot, for any slot: the retry asks for the next one. |
| ReminderSlots.NoSlotIsSkipped | apps/worker/src/main.ts:279-300 | Over a punctual run every slot from the first to the last one enqueued is enqueued. |
| ReminderSlots.SlotsMoveForward | apps/worker/src/main.ts:260-300 | Slots asked for never go back, and a slot that was enqueued is never asked for again by the same timer. |
| ReminderSlots.SlotHasOneJob | packages/queue/src/index.ts:111-114 | However workers and removals interleave, a slot never has two jobs, and jobs made less jobs removed is jobs present. |
| ReminderSlots.OnePunctualWorkerIsEnough | apps/worker/src/main.ts:279-300 | With any number of workers on one queue, every slot that a single punctual worker lived through gets a job, and gets it once unless it is removed. |
| RsvpSubmission.InvitationPage.BeginSubmission | apps/web/components/public-invitation.tsx:107-130 | At most one request is outstanding; an unchanged answer is sent again under its identifier, any other under a fresh one. |
| RsvpSubmission.InvitationPage.SettleSubmission | apps/web/components/public-invitation.tsx:149-168 | The identifier is forgotten exactly after a saved answer or a 409. |
| RsvpSubmission.EverySubmissionIdMeansOneAnswer | apps/web/components/public-invitation.tsx:107-171 | However pages, late or repeated deliveries and hosts interleave: equal identifiers carry equal answers, the server never reports a misused one, each page awaits at most one request, and the history never repeats an answer. |
| RsvpSubmission.ArrivalExactly | apps/api/src/rsvp/rsvp.service.ts:380-420 | In every reachable world an arriving request that is recorded is saved again and changes nothing else, an accepted one is recorded, stored and saved, and a refused one changes nothing and answers with a conflict. |
| RsvpSubmission.RepetitionsAreSaved | apps/api/src/rsvp/rsvp.service.ts:389-405 | Once accepted, every repetition of a request is saved, whatever the policy then says, and changes nothing. |
| RsvpSubmission.SavedMeansRecorded | apps/api/src/rsvp/rsvp.service.ts:373-405 | A page that hears "saved" has its own answer on record under its own identifier. |
| RsvpSubmission.RetryRepeatsTheIdExactly | apps/web/components/public-invitation.tsx:119-123 | The next request repeats the identifier if and only if the last one failed undecided and the answer is unchanged. |
| RsvpSubmission.StoredAnswerIsFinalExactly | apps/api/src/rsvp/rsvp.service.ts:389-405 | The stored answer outlives every late delivery if and only if no unrecorded request carries a different one. |
| RsvpSubmission.LateDeliveryExample | apps/web/components/public-invitation.tsx:151-168 | A guest corrects an answer that timed out, is told "saved", and ends with the first answer. |

## Left out

- `validateImportRow`, `parseImportFile`, upload and storage checks: parameters of the import model.
- Normalized digests and `phoneInput` of rows, which the import decisions do not depend on.
- Inherited JavaScript object properties: a correction for a field named like one (`constructor`) is looked up in
  the mapping through the prototype; mappings here are plain maps.
- XLSX output and UTF-8 encoding: the writer model is the CSV half on characters.
- Fractional numbers in export cells: all number columns are integers.
- Failed export jobs whose requester lost access, audit rows, notifications and retention.
- Interleavings below a database transaction, except the two halves of a charge in `CreditRaces`.
- Scheduling inside one webhook repair: job states do not change between its steps.
- Selecting stalled webhooks, reminder runs, send claims and batch dispatch: not part of this model.
- When finished sweep jobs are removed from the reminder queue: removals may happen at any time, and a slot's job
  can then be made again.
- The status column of send batches, which is recomputed from their messages after every bookkeeping write.
- Confirmations in the memo model: the sweep never records them.
- RsvpSubmission.SavedMeansRecorded: does not model guest edit policy; the server may refuse any unrecorded answer.
- Check-in, React rendering, configuration, health and shutdown code.
