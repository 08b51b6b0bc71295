# Verified models of libex-core and its operator scripts

A Dafny 4.11 model of the parts of this repository whose correctness rests on an
argument longer than one function: the crash-recoverable region repair, the
concurrency gate with its ramp, ratchet and backlog bound, the refresh and chapter
walks, the resumable schema change, the extras sanitizer, the chapter normalizer, the
release walk and the taxonomy builders, the fish completion guards, the path check and
the provenance ledger. `dafny verify dfyconfig.toml` checks everything.

## How it is laid out

- `RepairModel`, `RepairProtocol`, `RepairTheorems`, `RepairRun`, `RepairFindings`,
  `RepairLog`: the region repair. The file, the store and the process are one state
  machine whose steps are single appends and transactions, with a crash, a rollback or a
  restart possible between any two; `RepairRun` is the script's own loops driving that
  machine; `RepairLog` goes down to the characters of the backup file, an append cut after
  any of them.
- `Gate` (modules `GateModel` and `GateSteps`), `Ramp` (`RampModel` and `Ratchet`),
  `RampRuns`, `Backlog`: the moving-limit gate as an object and as cooperative tasks running
  statement by statement, and what rests on it; `RampRuns` tells what the ramp does over a
  whole run from its records alone.
- `Json`, `ExtrasWalk`, `Extras`, `Chapters`, `ChapterResponse`: JSON values with
  dictionaries as ordered assignments, the explicit-stack sanitizer on the heap against its
  recursive meaning and against the order its stack walks in, the chapter recursion with its
  running record of what was withheld, and the three levels above it.
- `Releases`, `Taxonomy`: the early-stopping paged walk against a plain filter; the two
  tree builders and the flattening against each other.
- `RegionKeys` (with `BackfillModel`): batches against one join update; finalize and
  unfinalize statement by statement.
- `Keyset` (with `ChapterWalk`), `RefreshRun` (with `RefreshChunks`), `RefreshLanding`,
  `RefreshFlood`: keyset paging under inserts, the refresh cursor over chained runs with the
  gate, the water mark and the queue's admission as they are, and which pages the cursor
  passes although they did not land.
- `Windows`, `FishGuards`, `PathCheck`, `Ledger`: the rolling windows, the completion
  guards, dot segments, and the source tally.
- `Common`: what several of them share.

Times and rates are reals or integers without rounding. Integers are unbounded, as
Python's are; the one width that matters, the widest integer that always renders, is
written out in `Json`.

## What does not hold as documented

The models follow the code. Where its comments or documentation promise more, there is a
lemma with the failing case and one with the exact condition.

- The repair replaces a listed book twice when the last line of the backup is a whole
  commit marker that lacks only its newline and reconciling marks something else: the
  marker is read, then cut off, then missing from the second read. `RepeatIffBlind` is the
  exact condition, `TornMarkerRepeatsABook` a history of four runs that ends that way.
- A repair started with the wrong list is refused, but reconciling has by then appended
  markers under the wrong list's checksum. In every reachable state the backup survives if
  and only if no committed, unrestored replacement lacks its marker; otherwise no list is
  ever accepted for it again (`WrongListPoisonsTheBackup`). One crash between a replacement
  and its marker is enough (`OneCrashAndAWrongList`).
- A refresh reserves room in the persist queue for every chunk in flight, and still has a
  batch shed, as long as it has chunks to send, if and only if the water mark leaves less
  than a chunk for every slot the ramp ever opens and one over; the derived mark does if and
  only if the ramp starts above its maximum, which nothing checks (`NeverShedsIff`, with
  `SomethingIsShed` the run).
- The bound "queued books plus 50 for every active slot" is broken by a chunk that has
  queued its books and still holds its slot (`BreaksFiftyASlot`). It holds in every
  reachable state if and only if the mark leaves room for two chunks a slot and one over,
  for the derived mark if and only if twice the largest limit the ramp reaches is within its
  maximum (`FiftyASlotIff`); what always holds counts what each chunk may still queue
  (`CommittedBooksFit`).
- The refresh cursor is moved once every chunk has finished and the persist queue reads
  empty, and the comments there say that it then claims only what landed. When it moves,
  every pair of the page has been written if and only if, since the page was read, no
  request failed, no answer left a pair out, the queue refused no batch and no write lost a
  book (`PageLandedIff`); the run reports the failed and the shed at its end, but moves.
  `CursorPassesAFailedChunk`, `CursorPassesALostBook` and `CursorPassesAShedBook` are runs in
  which it does. With the derived mark it passes a page with a shed book in some run if and
  only if the ramp starts above its maximum and a page is larger than the queue
  (`NoPageShedIff`).
- The region backfill's cursor starts at the empty string and asks for greater keys, so it
  equals one join update if and only if no row with an empty key would have changed
  (`EqualsOneUpdateIff`, and `EmptyKeyIsLeftBehind` for one that would).
- Two dictionary keys that differ only in NULs collide in the sanitized copy, the last
  value winning (`NulKeysCollide`). The copy has every entry, each in its place, if and only
  if no two keys differ only so (`KeepsEveryEntryIff`).

## Model

| member | source | states |
|---|---|---|
| RepairModel.RewriteCleans | scripts/repair_region_pollution.py:940-1025 | After a replacement the book is polluted exactly if the answer was: every foreign link is gone, every clean old link and every link of the answer is there, nothing else appears, and is_primary and created_at survive |
| RepairModel.RewriteTakesTheAnswer | scripts/repair_region_pollution.py:990-1014 | A replaced book is its answer: columns, narrators, genres and track are the answer's, its links are the answer's and the clean old ones, and read back as an answer over no old links it is that answer |
| RepairModel.RewriteRoundTrip | scripts/repair_region_pollution.py:990-1014 | A book with no foreign link, replaced by an answer made of its own parts, is that book, checked now |
| RepairModel.RewriteIgnoresTheRest | scripts/repair_region_pollution.py:990-1014 | Two old books that agree on their clean links, is_primary and created_at come to the same book: nothing else of the old one matters |
| RepairModel.CommittedAppend | scripts/repair_region_pollution.py:721-723 | An appended record adds its index to the committed ones exactly when it is a marker, and its row to the series rows exactly when it is a series record |
| RepairModel.FirstBookPresent | scripts/repair_region_pollution.py:1423-1426 | The record restore uses for an index exists exactly when some book record names that index |
| RepairProtocol.StepStart | scripts/repair_region_pollution.py:1330-1338 | Reading the backup and opening it, torn tail included, keeps the protocol's invariant |
| RepairProtocol.StepReconcile | scripts/repair_region_pollution.py:771-787 | Marking or passing over one unmarked record keeps the invariant: a marker is written only for a committed replacement |
| RepairProtocol.StepReplace | scripts/repair_region_pollution.py:990-1025 | The replacing transaction, given an answer with no foreign link, keeps the invariant: unless the run started blind, the index had never been replaced |
| RepairProtocol.StepRestoreOne | scripts/repair_region_pollution.py:1396-1449 | Putting one book back keeps the invariant |
| RepairProtocol.CrashTail | scripts/repair_region_pollution.py:651-655 | A crash leaves as unfinished last line only a record that was being appended, so one that tells the truth |
| RepairProtocol.StepKeeps | scripts/repair_region_pollution.py:626-1209 | Every step, crash and other writer's step keeps the invariant |
| RepairProtocol.HistoryKeeps | scripts/repair_region_pollution.py:1311-1338 | Every history of runs, crashes, rollbacks, restarts and restores keeps the invariant |
| RepairTheorems.AtMostOnce | scripts/repair_region_pollution.py:721-787 | In every history no index is replaced twice unless some run started blind, and every marker in the file, newline or not, belongs to a committed replacement |
| RepairTheorems.SeriesRowsGoLast | scripts/repair_region_pollution.py:1259-1275 | A series_author row is gone only once every listed book was replaced |
| RepairTheorems.FoundExactly | scripts/repair_region_pollution.py:762-787 | Reconciling finds exactly the replacements that committed, were not restored and have no marker |
| RepairTheorems.MarkedIffReplaced | scripts/repair_region_pollution.py:762-787 | After reconciling, the marked indexes are exactly the replaced ones if and only if opening the file cut no whole marker off |
| RepairTheorems.CheckedIffNotBlind | scripts/repair_region_pollution.py:1329-1338 | The committed indexes a start is checked against are exactly the replaced ones if and only if the start is not blind |
| RepairTheorems.RestoreUndoesReplacements | scripts/repair_region_pollution.py:1411-1481 | Restore puts the first, still polluted, record of every replaced pair back if and only if no marker was cut off, and in either case leaves every pair never replaced alone |
| RepairTheorems.RestoreEndsWhereItBegan | scripts/repair_region_pollution.py:1411-1481 | With no other writer, any history followed by a restore ends with the books and series rows it began with |
| RepairRun.NextBatch | scripts/repair_region_pollution.py:1139-1147 | A batch is the longest stretch of one region from its start, up to fifty books and the end |
| RepairRun.Repairer.ReconcileCommits | scripts/repair_region_pollution.py:762-787 | The loop appends markers only, and leaves marked exactly what was marked plus what the store shows replaced |
| RepairRun.Repairer.OpenRun | scripts/repair_region_pollution.py:1329-1338 | A run is admitted exactly when the records it holds after reconciling say its start repeats nothing |
| RepairRun.Repairer.RepairOne | scripts/repair_region_pollution.py:1043-1136 | One book is left alone, or fails with nothing changed and no marker, or is replaced and committed once; then it is marked, or its marker fails and the run ends |
| RepairRun.Repairer.ReplaceOne | scripts/repair_region_pollution.py:968-1014 | Record, then replacement, change that one book, add its index to the commits and mark nothing yet |
| RepairRun.Repairer.LoseMarker | scripts/repair_region_pollution.py:1014-1025 | A marker that cannot be appended ends the run with the books and commits as they were and the file's last line torn, whole but for its newline, or complete, as much as was written |
| RepairRun.Repairer.RestoreAll | scripts/repair_region_pollution.py:1411-1497 | Exactly the first so many marked pairs, in the order of their first records, have that record back, all of them with no limit; series rows come back only then |
| RepairRun.RestoreOrderIs | scripts/repair_region_pollution.py:1419-1426 | That order has each marked index with a record exactly once |
| RepairRun.FirstBackedUpFirst | scripts/repair_region_pollution.py:1423-1426 | And of two pairs the one whose first record the file holds first comes first |
| RepairRun.Repairer.RestoreRows | scripts/repair_region_pollution.py:1453-1462 | Every series_author row in the backup is re-inserted and nothing else changes |
| RepairRun.Repairer.Process | scripts/repair_region_pollution.py:1130-1209 | Each book the cursor passed and replaced holds its answer's columns, narrators, genres and track, its links with the clean old ones, and what it keeps; every other book is as it was; each replacement is committed once and marked but one whose marker failed; it stops short only for an outage, a failure, a lost marker or a stop |
| RepairRun.Repairer.SeriesAuthorPass | scripts/repair_region_pollution.py:1212-1275 | Deferred exactly while a listed pair has no marker; otherwise the listed rows up to the first stop that were there are backed up, deleted and counted, and no other row moves |
| RepairFindings.RepeatIffBlind | scripts/repair_region_pollution.py:732-759 | A start can be admitted over an already replaced book if and only if it is blind |
| RepairFindings.TornMarkerRepeatsABook | scripts/repair_region_pollution.py:641-705 | A concrete history, torn markers in two crashes, that replaces one book twice |
| RepairFindings.WrongListPoisonsTheBackup | scripts/repair_region_pollution.py:726-787 | From every reachable state, a start given another list is refused; the backup is unchanged and its own list still accepted if and only if every committed replacement is marked or restored; otherwise no list is |
| RepairFindings.MarkedIsFound | scripts/repair_region_pollution.py:762-787 | On reachable states the markers such a start appends are for exactly the replacements its own list's start would find |
| RepairFindings.OneCrashAndAWrongList | scripts/repair_region_pollution.py:726-787 | A reachable state, one crash after a replacement, from which a start with another list leaves a backup no list is accepted for |
| RepairLog.ReadBackupFile | scripts/repair_region_pollution.py:680-705 | The loop over the split text returns the records read line by line, forgiving only an unreadable last line with no newline |
| RepairLog.RefusedAtTheFirstBadLine | scripts/repair_region_pollution.py:680-705 | For every text whatever, the file is refused at the number of its first line that is JSON but no record, or no JSON and not an unended last line; with no such line exactly the records of its lines are read |
| RepairLog.FileReadsAndOpens | scripts/repair_region_pollution.py:633-705 | For every file a crash can leave, reading gives the complete records and a whole unfinished one, and opening leaves exactly the complete lines |
| RepairLog.AppendCutAnywhere | scripts/repair_region_pollution.py:651-655 | An append cut after any number of characters leaves the file as it was, torn, whole but for its newline, or one record longer |
| RepairLog.CodecExists | scripts/repair_region_pollution.py:646-655 | Whatever records a file is to hold, there are lines for them of the kind these two count on |
| GateModel.NoLostWakeup | scripts/backfill_chapters.py:344-358 | Whenever some task waits un-notified, at least limit minus active notified tasks are on their way; with none on their way every slot is taken |
| GateModel.NeverAboveHighestLimit | scripts/backfill_chapters.py:349-353 | The active tasks never outnumber the largest limit ever set |
| GateModel.WakesSettle | scripts/backfill_chapters.py:349-358 | Once every notified task has resumed, in whatever order, the free slots are taken or nobody waits |
| GateModel.WaitersKeepTheirPlaces | scripts/backfill_chapters.py:344-358 | No call notifies a task before one that has waited longer, and a new waiter goes behind all who wait |
| GateModel.SharedGate.SetLimit | scripts/backfill_chapters.py:344-347 | The new limit is stored and every waiter is notified |
| GateModel.SharedGate.Acquire | scripts/backfill_chapters.py:349-353 | A slot is taken if one is free; otherwise the task joins the waiters |
| GateModel.SharedGate.Release | scripts/backfill_chapters.py:355-358 | One slot is given back and the oldest waiter, if any, is notified |
| GateSteps.StatementKeeps | scripts/backfill_chapters.py:344-358 | Each statement takes the running call one step nearer to its effect, and only its last gives the lock back |
| GateSteps.CallsAreAtomic | scripts/backfill_chapters.py:344-358 | No task suspends holding the gate's lock, so no task finds it taken, and between calls the gate is what the finished calls, each as one step, make it |
| GateSteps.NoLostWakeupInSteps | scripts/backfill_chapters.py:325-358 | The wakeup guarantee and the limit hold of runs taken statement by statement |
| RampModel.SortedOrders | scripts/backfill_chapters.py:373-377 | The ordered window is ascending and holds exactly the window's samples |
| RampRuns.P95IsTheRank | scripts/backfill_chapters.py:373-377 | The p95 of a full window is one of its samples, and for every x more samples than lie past 95 in a hundred are above x exactly when x is below it |
| RampRuns.P95OfSixty | scripts/backfill_chapters.py:373-377 | Of sixty samples at most 2 are above the p95, and 3 or more above anything less |
| RampModel.RampControl.Record | scripts/backfill_chapters.py:413-485 | One request's effect on its region, the freeze and the gate's limit |
| RampModel.RecordedStays | scripts/refresh_corpus.py:452-513 | A ramp alone stays between its start and the larger of start and ceiling, rises by at most a step, and never once frozen |
| RampRuns.RunRemembers | scripts/backfill_chapters.py:413-485 | Over every run of records, an unfrozen ramp's memory of each region is what the records say: its last samples since the limit last rose, how many it gave, the least p95 any full window of it had, and its clean streak |
| RampRuns.RampFollowsTheRecords | scripts/backfill_chapters.py:413-485 | Over every run, a record freezes the ramp a step lower, not below its start, exactly when many of the window it completes exceed the ratio times the least p95 its region had, after the warm-up; it raises the limit a step, not past the ceiling, exactly when every region that had a full window has dwelt; otherwise the limit stays |
| RampRuns.SteadyNeverSlows | scripts/backfill_chapters.py:437-439 | A region whose samples never differ by more than the ratio never steps the ramp down |
| RampRuns.SteadyNeverFreezes | scripts/refresh_corpus.py:452-485 | While every region is so, the ramp is never frozen |
| RampRuns.BackfillSlowsIff | scripts/backfill_chapters.py:161-194 | With the backfill's constants: a book freezes the ramp exactly when its region has given 180 samples and more than 2 of the last 60 exceed twice the least p95 it had |
| RampRuns.BackfillClimbsIff | scripts/backfill_chapters.py:161-194 | And the limit rises by 3, to 10 at most, exactly when every region that had a full window has made 300 clean requests in a row over sixty seconds since the last rise |
| RampRuns.SteadyBackfillNeverFreezes | scripts/backfill_chapters.py:413-485 | A backfill without a 401, 403 or 429 whose regions keep their times within a factor of two never freezes its ramp |
| Ratchet.RatchetState.Observe | scripts/backfill_chapters.py:538-553 | The first trouble ever answers "floor" unless more came with it; any further trouble answers "abort" |
| Ratchet.FinishBook | scripts/backfill_chapters.py:1077-1103 | One book's bookkeeping: ramp, then ratchet, then the floor and the freeze |
| Ratchet.FoldedInIsTheTrouble | scripts/backfill_chapters.py:538-553 | The changes folded in book by book add up to every 401 and 403 and the sentinel's whole count of 429s, however many came between two looks |
| Ratchet.AbortsAtTheSecondTrouble | scripts/backfill_chapters.py:538-553 | Over every run whose 429 count never falls, the ratchet trips exactly when all the 401s, 403s and 429s number one and aborts exactly when they number two |
| Ratchet.AbortedIff | scripts/backfill_chapters.py:1077-1103 | A run is aborted exactly when the trouble numbers two or something else aborted it |
| Ratchet.LimitInRange | scripts/backfill_chapters.py:161-164 | Over every run the limit is between 1 and 10 |
| Ratchet.FrozenAndFloored | scripts/backfill_chapters.py:1077-1091 | Once frozen the limit never rises; from the first trip it is 1 for good or the run is aborted |
| Ratchet.ClimbsOnEvidence | scripts/backfill_chapters.py:379-465 | The limit is at most its start plus 3 for every 300 books |
| Backlog.CommittedBooksFit | scripts/refresh_corpus.py:680-696 | In every reachable state the queue is within its capacity, and it, what every active chunk may still queue, and the chunk past the water mark together pass the mark by at most a chunk for each slot the ramp ever opens and one over |
| Backlog.SomethingIsShed | app/services/db/persist_queue.py:405-434 | When the mark leaves less room than that, a dispatcher that never runs out of chunks has a batch refused |
| Backlog.NeverShedsIff | scripts/refresh_corpus.py:798-822 | For every water mark the script starts with, set or derived, no batch of such a dispatcher is ever shed if and only if the mark leaves a chunk for every slot the ramp ever opens and one over, or the ramp starts at none; for the derived mark, if and only if the ramp does not start above its maximum |
| Backlog.BreaksFiftyASlot | scripts/refresh_corpus.py:243-252 | A reachable state where the queue and 50 books for every active slot pass the capacity, whenever the mark leaves less than two chunks a slot and one over |
| Backlog.FiftyASlotIff | scripts/refresh_corpus.py:243-252 | The queue and 50 for every active slot fit the capacity in every reachable state if and only if the mark leaves two chunks a slot and one over, for the derived mark if and only if twice the largest limit the ramp reaches is within its maximum |
| Json.EachKeyOnce | libex_core/audible/extras.py:236-239 | A dictionary built by assignments has exactly the assigned keys, each once |
| Json.LastWins | libex_core/audible/extras.py:236-239 | Each key carries the value of its last assignment |
| Json.BitLengthBounds | libex_core/audible/extras.py:159-170 | A bit length of at most k means exactly a magnitude below 2 to the k |
| Json.LeafBecomes | libex_core/audible/extras.py:173-243 | Exactly a float that is not finite, an integer of more than 14283 bits and the NULs of a string are refused, each counted under its own name: the first two become null, the string loses its NULs, and anything else stays as it is |
| Json.StripNulParts | libex_core/audible/extras.py:173-243 | Stripping takes out the NULs and keeps every other character in its order |
| Json.CleanIsSafe | libex_core/audible/extras.py:173-243 | The copy holds no NUL, no non-finite float and no over-wide int, at any depth |
| Json.SafeIsUnchanged | libex_core/audible/extras.py:173-243 | A value with none of those is its own copy and counts nothing |
| Json.CleanNotDeeper | libex_core/audible/extras.py:173-243 | The copy is nested no deeper than the original |
| Json.CleanKeepsEveryKey | libex_core/audible/extras.py:220-239 | With NUL-free keys the copy has every key in its place, with the copy of its value |
| Json.NulKeysCollide | libex_core/audible/extras.py:236-239 | Of two keys that differ in a trailing NUL the copy has one, with the later one's value |
| Json.KeepsEveryEntryIff | libex_core/audible/extras.py:236-239 | The copy of a dictionary has every entry, each in its place under its stripped key, if and only if no two keys differ only by NULs; otherwise it has fewer |
| ExtrasWalk.WalkCounts | libex_core/audible/extras.py:207-243 | The walk in the stack's order stops exactly when something is nested too deep; otherwise it counts all there is, and never more |
| Extras.Fill | libex_core/audible/extras.py:217-241 | Walking one popped container fills its copy with finished leaves and linked, still empty children, pushes exactly those children, counts what its own walk comes to, and stops exactly when a child would lie below level 32 |
| Extras.BuiltDenotes | libex_core/audible/extras.py:214-243 | With the stack empty, the linked nodes read as the recursive copy |
| Extras.Sanitize | libex_core/audible/extras.py:173-243 | Nothing is returned exactly when some container is nested deeper than 32; otherwise the nodes read as the recursive copy and the counts are the recursive counts; a stopped run has counted exactly what the stack's order had met |
| Extras.BoundExtras | libex_core/audible/extras.py:246-285 | A blob is kept, as its sanitized copy with everything changed counted, exactly when it nests at most 32 deep and its copy encodes to at most 65536 bytes; it is dropped for depth, for not encoding or for size exactly when that is the first of the three to fail, with what had been counted |
| Extras.BoundMeans | libex_core/audible/extras.py:246-285 | The same of the value every other part of the model bounds with |
| Extras.SmallerIsKept | libex_core/audible/extras.py:281-285 | A blob no deeper and no larger than one that is kept is kept |
| Extras.BoundingAgainChangesNothing | libex_core/audible/extras.py:246-285 | Bounding what was kept keeps it unchanged and counts nothing |
| Extras.StripPodcastRelationships | libex_core/audible/extras.py:135-156 | The kept entries are those of no stripped type, in order, and each type's count is how many of it went |
| Extras.StripAccountsForAll | libex_core/audible/extras.py:135-156 | Kept entries and the two counts add up to all the entries |
| Extras.StripsPodcastParts | libex_core/audible/extras.py:135-156 | An entry is stripped exactly when it says its relationship_type is episode or season |
| Extras.BuildExtrasKeepsEveryKey | libex_core/audible/extras.py:288-324 | Every key of a product's passthrough is in its kept blob, sanitized, relationships shorter by exactly the stripped entries |
| Extras.BuildExtrasKeepsOnlyThose | libex_core/audible/extras.py:288-324 | And nothing else is in the kept blob, no key twice |
| Chapters.NormalizeChapter | libex_core/audible/chapters.py:202-249 | The method, updating the record as it recurses, returns the recursive chapter and adds to the record what that chapter and all below it cost |
| Chapters.NormAllAt | libex_core/audible/chapters.py:236-240 | Sub-chapters are normalized each on its own and keep their order |
| Chapters.RawExtrasExact | libex_core/audible/chapters.py:72-76 | The raw extras are exactly the chapter's keys that have no field of their own for the value sent: not a string title, not a scalar the model accepts within the widest integer, not sub-chapters normalized above level 32, not a null or empty chapters |
| Chapters.ChapterConserves | libex_core/audible/chapters.py:202-249 | Every key of a chapter, a null or empty chapters aside, is published in its field, carried in the chapter's extras under its own key, or went with the whole extras, whose reason the record counts |
| Chapters.ExtrasAreTheLeftOver | libex_core/audible/chapters.py:232-248 | A chapter has no extras, and none were withheld, exactly when every key of it has a field of its own; extras that are kept hold the other keys, sanitized, and no more |
| Chapters.FieldsSayWhatWasSent | libex_core/audible/chapters.py:106-146 | Each scalar is the value sent under its key when the model accepts it and otherwise 0, a title that is no string is empty, and there are sub-chapters exactly when a nonempty list of them was sent above level 32 |
| Chapters.PublishedIsCutTree | libex_core/audible/chapters.py:236-240 | The published tree is the input tree in order, cut at level 32 |
| Chapters.RecordCountsChapters | libex_core/audible/chapters.py:159-249 | The record counts each chapter cut at the deepest level once and each chapter whose extras were withheld once, under its reason |
| Chapters.RecordAddsUpCosts | libex_core/audible/chapters.py:159-249 | Its sanitized counts add up, chapter by chapter at every level, the NULs of the title and what bounding the raw extras counts |
| ChapterResponse.NormalizeChapters | libex_core/audible/chapters.py:252-353 | Chapters, groups and leftovers, all through one record, come to the recursive response and to what its parts cost together |
| ChapterResponse.ResponseConserves | libex_core/audible/chapters.py:280-287 | Every key of the response but the echoed response_groups is carried under "response", or the extras are withheld with their reason, or it is the content_metadata object read next |
| ChapterResponse.MetadataConserves | libex_core/audible/chapters.py:289-334 | Every key of content_metadata is carried under "contentMetadata", or is the chapter_info object, or is a group in its own field, bounded, withheld by name or null |
| ChapterResponse.InfoConserves | libex_core/audible/chapters.py:296-316 | Every key of chapter_info, a null chapters aside, is published in its field, its chapters each normalized in order, or carried under "chapterInfo" |
| ChapterResponse.ResponseLeftExact | libex_core/audible/chapters.py:280-287 | What is left of the response is exactly its keys but response_groups and a content_metadata object |
| ChapterResponse.MetadataLeftExact | libex_core/audible/chapters.py:289-334 | What is left of content_metadata is exactly its keys but a chapter_info object and the two groups sent as an object or null |
| ChapterResponse.InfoLeftExact | libex_core/audible/chapters.py:296-316 | What is left of chapter_info is exactly its keys but the five scalars the model accepts and a list of chapters or a null |
| ChapterResponse.LeftoversAreTheLeftOver | libex_core/audible/chapters.py:336-347 | The response has no extras, and none were withheld, exactly when nothing is left on any level; extras that are kept hold under each level only keys left on it |
| ChapterResponse.ResponseSaysWhatWasSent | libex_core/audible/chapters.py:296-334 | Each scalar is the value sent under its key when the model accepts it and otherwise its default, a group is missing exactly when neither an object nor a null was sent, and there are chapters exactly when a nonempty list of them was |
| ChapterResponse.RecordAddsUpTheWhole | libex_core/audible/chapters.py:159-353 | The record counts each cut and each withheld chapter extras at every level, and its sanitized counts add up the chapters, the two groups and the leftovers, once each |
| Releases.BothWindowsFit | libex_core/audible/releases.py:71-106 | In both windows, nothing as old as a date that stops the walk is wanted |
| Releases.WindowsMeet | libex_core/audible/releases.py:71-106 | The two windows share no date, together they are the dates within so many days of now, both ends included, and nothing after now is a new release or at or before it coming soon |
| Releases.StopsWhenNothingIsLeft | libex_core/audible/releases.py:71-106 | For at least a day, either walk stops at a date exactly when nothing dated at or before it is wanted |
| Releases.GatherExactly | libex_core/audible/releases.py:322-333 | The filter's ASINs are exactly those of accepted products, each once |
| Releases.GatherKeepsLast | libex_core/audible/releases.py:332-334 | Of the books accepted under one ASIN the last is kept |
| Releases.AnswerExactly | libex_core/audible/releases.py:322-344 | The filter's answer lists exactly the accepted ASINs without repeats, and is an error exactly when something servable was there and all of it failed |
| Releases.CollectPage | libex_core/audible/releases.py:320-334 | One page's outcomes are gathered up to the first that stops the walk, and no further |
| Releases.StopLosesNothing | libex_core/audible/releases.py:320-337 | Newest first, what is gathered when the walk stops is what the whole catalog gathers, and is no error |
| Releases.WalkCatalog | libex_core/audible/releases.py:244-344 | On a catalog served newest first in pages of 50 that ends short, empty or by repeating its last page, the walk ends and answers what filtering the catalog up to its first repeated page would |
| Releases.AllVisibleIff | libex_core/audible/releases.py:293-300 | That is the whole catalog if and only if no page of it repeats the one before |
| Releases.FetchNewReleases | libex_core/audible/releases.py:347-369 | Less than a day is refused; otherwise, the catalog served newest first, the answer lists exactly the ASINs of servable books dated from so many days ago to now, each once with such a book, newest first, or the first error when all that was servable failed |
| Releases.FetchComingSoon | libex_core/audible/releases.py:372-394 | The same for the books dated after now and at most so many days ahead, soonest first |
| Releases.SortBooksSorts | libex_core/audible/releases.py:109-116 | The sort puts the books in order, undated last, and keeps those of one date as they stood |
| Taxonomy.Flattener.Emit | libex_core/audible/releases.py:133-141 | The recursion over the shared set and list appends the first row of each (id, parent) in preorder |
| Taxonomy.FlattenGenreNodes | libex_core/audible/releases.py:119-144 | The rows are the first of each (id, parent) among all the visits, in order |
| Taxonomy.FlattensWhatHangs | libex_core/audible/releases.py:119-144 | An id is listed under a parent exactly when a named node with that id hangs there, at whatever depth, nodes without a name passed through and nodes without an id not |
| Taxonomy.OrderSorts | libex_core/audible/releases.py:204-219 | The sort is a permutation, by name code point by code point, and stable |
| Taxonomy.LessMeans | libex_core/audible/releases.py:204-219 | A name is before another exactly when it is a shorter beginning of it or has the smaller code point where they first differ |
| Taxonomy.GroupByParent | libex_core/audible/releases.py:168-173 | The grouping holds under each parent exactly its rows, in order |
| Taxonomy.BuiltIsBuild | libex_core/audible/releases.py:181-219 | Building the sorted rows is sorting the built nodes |
| Taxonomy.BuildFlat | libex_core/audible/releases.py:176-200 | For any rows and depth, the flat form is the preorder of the nested form, each node with its root path, and with a stack counted in levels neither finishes without the other |
| Taxonomy.FlatTellsThePlace | libex_core/audible/releases.py:176-200 | The flat form has one node for every node of the tree, each with the way down to it, root first, and after its parent |
| Taxonomy.NestedFinishesFlatFinishes | libex_core/audible/releases.py:176-219 | With two of the interpreter's frames to a nested level and one to a flat one, the flat form finishes, with the same tree, wherever the nested does |
| Taxonomy.BuildCategoryTree | libex_core/audible/releases.py:147-221 | A depth below 1 is refused and nothing else is; the flat answer is the preorder of the nested one |
| Taxonomy.LimitedBuildEnds | libex_core/audible/releases.py:202-219 | A depth limit ends the recursion whatever the rows |
| Taxonomy.CyclesNeverEnd | libex_core/audible/releases.py:202-219 | Without one, rows that lead back to themselves never finish |
| Taxonomy.RowsUnder | libex_core/audible/releases.py:133-144 | When an id decides its subtree, the flattened rows under a node are its children, each once, in order |
| Taxonomy.RoundTrip | libex_core/audible/releases.py:119-221 | Building from the flattened rows gives the original tree, siblings once and sorted by name at every level, cut at the depth asked |
| Taxonomy.LimitLeavesItsLevels | libex_core/audible/releases.py:202-219 | A limit of d levels leaves a tree of more than d with exactly d, and any other as it is |
| Taxonomy.SortedAlready | libex_core/audible/releases.py:202-219 | A tree already in order, without repeated siblings, comes back unchanged |
| BackfillModel.EqualsOneUpdateIff | scripts/region_keys.py:540-548 | The update of the named keys alone equals one join update of the column if and only if no row with the empty key would change |
| BackfillModel.JoinNamedFills | scripts/region_keys.py:545-548 | After the update every region that is set was set before or is its source's, no other column moves, and a row is null exactly when it was and its key is empty or its source is missing or null |
| BackfillModel.EmptyKeyIsLeftBehind | scripts/region_keys.py:540-548 | A row with the empty key that the join update would fill and the batches do not |
| BackfillModel.RestartsAddUp | scripts/region_keys.py:538-590 | However much an interrupted run filled, what a complete one then comes to is the same |
| BackfillModel.ReadPage | scripts/region_keys.py:540-544 | The page is the least keys of null rows after the cursor, distinct, ascending, at most the limit |
| BackfillModel.BatchAdvances | scripts/region_keys.py:545-576 | One batch takes the column from its cursor's state to that of the page's last key |
| RegionKeys.Database.BackfillColumn | scripts/region_keys.py:538-590 | Finished, every row is as it was or filled from its source, a named one null exactly when it was null and its source is missing or null; it is the one join update over named keys, and that of the whole column if and only if no row with the empty key would change; cut anywhere, it is that update up to some key |
| RegionKeys.Database.Backfill | scripts/region_keys.py:593-620 | It fails exactly when a column is missing, changes no flag, and done leaves every column filled |
| RegionKeys.Database.BuildIndex | scripts/region_keys.py:637-666 | Done, the index is valid and unique; it fails only on a valid index that is not unique, and an interrupted build is rebuilt |
| RegionKeys.Database.MakeNotNull | scripts/region_keys.py:785-814 | On a column with no null it ends NOT NULL with no CHECK, from whatever an interrupted run left |
| RegionKeys.Database.Finalize | scripts/region_keys.py:817-865 | Left to itself it is done exactly when every column can be filled and no index is in the way; done, every column is NOT NULL with no null and no CHECK, both indexes valid, no row added or lost; with stragglers nothing was constrained |
| RegionKeys.Database.Unfinalize | scripts/region_keys.py:870-904 | Left to itself, with the columns there, it ends with every column nullable, no CHECK, no window index and the rows untouched |
| RegionKeys.FinalizeAtLast | scripts/region_keys.py:817-865 | After any number of finalize and unfinalize runs cut at any statement, a complete finalize ends where one on the first state would |
| RegionKeys.UnfinalizeAtLast | scripts/region_keys.py:870-904 | And a complete unfinalize ends rolled back |
| Keyset.ReadPage | scripts/backfill_chapters.py:649-701 | The page is the first rows after the cursor in (asin, region) order, and skips none |
| Keyset.PageLeavesNothingBehind | scripts/backfill_chapters.py:635-646 | A row after the cursor is on the page or after its last row, its asin's other regions included |
| ChapterWalk.KeysRise | scripts/backfill_chapters.py:649-701 | Within a pass every key of a later page is greater |
| ChapterWalk.PresentReadOnce | scripts/backfill_chapters.py:1203-1219 | A row present throughout a pass is read exactly once in it, whatever is inserted or deleted meanwhile |
| ChapterWalk.Walk | scripts/backfill_chapters.py:745-759 | For finitely many rows ever, the walk makes exactly two passes, each to the end, and ends |
| RefreshChunks.ChunksForPage | scripts/refresh_corpus.py:575-605 | The loops produce the regions in order, each one's distinct ASINs in slices |
| RefreshChunks.EachPairOnce | scripts/refresh_corpus.py:575-605 | Every distinct pair of a page is in exactly one chunk, of one region and at most the size, no chunk is empty and none asks for anything else |
| RefreshRun.StepKeeps | scripts/refresh_corpus.py:966-1034 | Every step of the dispatcher, its chunks and the queue, a stop, a kill and a restart keep every chunk of the page accounted for and every pair an answered chunk asked for in exactly one place: in no answer, refused, queued, written or lost with its write |
| RefreshRun.CursorIsHonest | scripts/refresh_corpus.py:1003-1024 | Whenever the cursor has moved past a page, each of its pairs was asked for in exactly one chunk, every chunk had finished, and each pair had been written since, refused, lost, or was in no answer |
| RefreshRun.PageLandedIff | scripts/refresh_corpus.py:998-1015 | When the cursor is about to move, every pair of the page has been written since the page was read if and only if no step since then was a failed request, an answer with a pair left out, a refused batch or a write that lost a book |
| RefreshLanding.AlwaysAdmitted | scripts/refresh_corpus.py:680-696 | Where pages fit the queue, or the mark leaves a chunk for every slot and one over, the queue takes every batch of every run |
| RefreshLanding.CursorPassesAFailedChunk | scripts/refresh_corpus.py:629-673 | In every configuration that can run, a reachable state where the cursor is past a book whose request failed, with nothing shed and nothing lost |
| RefreshFlood.CursorPassesAShedBook | app/services/db/persist_queue.py:405-434 | With the derived mark, a ramp started above its maximum and pages larger than the queue: a reachable state where the cursor is past a book the queue refused for want of room |
| RefreshLanding.CursorPassesALostBook | app/services/db/persist_queue.py:437-444 | In every configuration that can run, a reachable state where the cursor is past a book whose write failed, the backlog released all the same |
| RefreshFlood.NoPageShedIff | scripts/refresh_corpus.py:243-252 | With the derived mark, no run over any table moves the cursor past a page with a shed book if and only if the ramp does not start above its maximum or a page is no larger than the queue |
| RefreshRun.NothingSkipped | scripts/refresh_corpus.py:966-1034 | Over every chain of stopped, killed and restarted runs, a row every read saw lies at or before the cursor exactly when a confirmed page had it, and only one did |
| RefreshRun.EndOfCorpus | scripts/refresh_corpus.py:966-971 | The run that reads an empty page has confirmed every such row |
| RefreshRun.AtMostOneRepeatPerRun | scripts/refresh_corpus.py:1003-1034 | Pages read are the confirmed ones, at most one held per run, and at most one at work |
| Windows.RecentTwice | scripts/backfill_chapters.py:505-517 | What an earlier look dropped from a window, no later look would count |
| Windows.RecentAre | scripts/backfill_chapters.py:505-517 | A window is the events no older than it, each as often as it happened |
| Windows.ThrottleSentinel.Emit | scripts/backfill_chapters.py:500-510 | Of the throttle lines alone, every 429 is counted and every 5xx remembered, pruned at once or not |
| Windows.ThrottleSentinel.SustainedServerErrors | scripts/repair_region_pollution.py:857-862 | It answers exactly whether enough of all 5xx ever seen are inside the window now, for the pruning and the lazy sentinel |
| Windows.BackoffWindow.Record | scripts/backfill_chapters.py:569-573 | The window is exactly the requests no older than it, of all since it was cleared |
| Windows.BackoffWindow.ShouldCooldown | scripts/backfill_chapters.py:575-580 | It is the rate test over exactly those, as of the last record, or an error exactly when there are none and the minimum of samples is not positive |
| Windows.NoneRateGuard.Record | scripts/backfill_chapters.py:602-620 | It fires exactly when there are 260 outcomes, half of the last 60 are NONE and their share is at least three times that among all before them |
| FishGuards.ReadIsPlain | libex_core/cli/_render.py:122-144 | No group read off a parser, at any depth, has options of its own |
| FishGuards.ReadKeepsTheTree | libex_core/cli/_render.py:122-144 | Reading keeps every name in its place, the options and positionals of a command without subcommands, and names a group's subcommands as its one choice |
| FishGuards.FishLines | libex_core/cli/_render.py:492-534 | The loops return the rows of the command and all below it, or refuse what lies too deep |
| FishGuards.DescendantNames | libex_core/cli/_render.py:484-489 | The names are exactly those of commands below, to any depth |
| FishGuards.ExcludedAre | libex_core/cli/_render.py:537-543 | The excluded words are exactly the other commands holding one of this name |
| FishGuards.TooDeepIff | libex_core/cli/_render.py:505-508 | The script is refused for depth exactly when a command lies three levels down |
| FishGuards.OwnFire | libex_core/cli/_render.py:509-531 | A command's own rows fire all together or not at all |
| FishGuards.OffersAre | libex_core/cli/_render.py:509-531 | A group offers its children in order and nothing else; any other command exactly its options and the choices of its positionals that have some |
| FishGuards.TopOn | libex_core/cli/_render.py:492-543 | A top-level command's rows are on exactly when the line's path ends there, shared names included |
| FishGuards.ChildOn | libex_core/cli/_render.py:492-558 | A child's rows are on exactly when the path ends at that child |
| FishGuards.OnlyItsOwnRowsFire | libex_core/cli/_render.py:561-582 | For every accepted tree, on a line whose only command words lead to one command, the rows that fire offer exactly its child list, or its options and choices |
| FishGuards.MutualHoldersClash | libex_core/cli/_render.py:546-558 | Two groups that hold each other cannot be told apart: the rows of both children are on together |
| FishGuards.CheckUnambiguous | libex_core/cli/_render.py:546-558 | The loops refuse a tree exactly when two commands hold each other or one holds itself, the names at the top level distinct |
| FishGuards.FishAnswers | libex_core/cli/_render.py:561-582 | The script is refused as ambiguous exactly then, as too deep exactly when otherwise some command lies three levels down, and given in every other case |
| FishGuards.SharedNameAccepted | libex_core/cli/_render.py:546-558 | A tree in which a group holds another top-level command's name is accepted |
| PathCheck.FixedIff | libex_core/audible/client.py:387-398 | An absolute path is a fixed point of dot-segment removal (section 5.2.4 of RFC 3986) exactly when no segment of it is a dot segment |
| PathCheck.DecodeSegments | libex_core/audible/client.py:396-397 | Decoding every %2e, in either case, decodes each segment and moves no boundary |
| PathCheck.DotTestsExact | libex_core/audible/client.py:391-397 | The lower-cased tests on a segment are exactly "is a dot segment", as it stands and once decoded |
| PathCheck.DotTestsMeanFixed | libex_core/audible/client.py:387-398 | A path passes the dot tests if and only if removal leaves it alone, both as given and decoded |
| PathCheck.HasUnsafePathSegment | libex_core/audible/client.py:387-398 | The loop refuses exactly a "?" or "#" or an unsafe segment anywhere |
| PathCheck.GetAudibleUrl | libex_core/audible/client.py:454-468 | A URL is built, with the path as given, exactly for an accepted path, the check of the finished URL included |
| PathCheck.OnlyTheHostIntended | libex_core/audible/client.py:458-467 | That last check never fires: whatever begins with "/" is put after the host, the URL's scheme (section 3.2 of RFC 3986) is https, its host the one intended, and it names no port |
| PathCheck.AcceptedIsFixed | libex_core/audible/client.py:401-468 | What is accepted is a fixed point, as given and decoded, and keeps its segments |
| PathCheck.AcceptedIff | libex_core/audible/client.py:387-468 | A path is accepted exactly when it begins with one slash, holds no backslash, "?" or "#", hides no percent-encoded slash or backslash in either case, and is a fixed point of dot-segment removal as given and decoded |
| Ledger.HeaderSays | app/core/response_headers.py:64-96 | No header exactly for an all-zero tally, a bare token exactly when one source has a count, otherwise "mixed" with exactly the sources that have one |
| Ledger.MixedTellsAll | app/core/response_headers.py:64-96 | A header with counts determines the tally |
| Ledger.ResponseFacts.RecordSource | app/core/response_headers.py:212-226 | The named source's count grows; a source outside the vocabulary records nothing |
| Ledger.ResponseFacts.RecordSourceKeys | app/core/response_headers.py:229-251 | The source's count grows by the keys named and each of them is attributed to it |
| Ledger.ResponseFacts.SourceHeaderValueFor | app/core/response_headers.py:170-205 | The loop's header is that of the restricted tally, or absent when the totals differ |
| Ledger.RecordAll | app/core/response_headers.py:212-251 | The object after any calls is the ledger those calls make |
| Ledger.RecordingsKeep | app/core/response_headers.py:212-251 | After any recordings each source's tally is at least the keys attributed to it |
| Ledger.EqualTotalsMeanEqualTallies | app/core/response_headers.py:170-199 | The aggregate is never below the keyed entries, and equals them exactly when every source's tally is its keys |
| Ledger.CountsKnownKeys | app/core/response_headers.py:200-205 | Over distinct keys the restricted tally counts exactly the known ones among them, each under its source |
| Ledger.AllKeysSameHeader | app/core/response_headers.py:170-205 | When the totals agree, the header restricted to every recorded key is the whole header |
| Ledger.HeaderOnlyWhenAllKeyed | app/core/response_headers.py:170-205 | After any recordings, whatever keys are asked for, there is a restricted header only while every source's tally is exactly its keys, and then it is that of the restricted tally |

## Left out

- HTTP, sessions, logging, signals, pacing, retries and the configuration: what they
  answer is a parameter of the models.
- SQL and Postgres: a transaction is one step, an index or column a few flags, a key its
  rank in the database's order. Locks are not modelled, so runs of one script do not overlap.
- JSON encoding: `RepairLog` takes a codec with no newline in a line and no proper prefix
  of a line parsing; `Extras` takes the size json.dumps would give.
- Repair: the listed books start polluted; dry runs and the planning of the list are not
  modelled.
- RepairProtocol.StepKeeps: it is assumed of other writers that they remove no book, take no
  book's last foreign link and give none to a book that has none. `reconcile_commits` tells a
  replaced book by the store alone, so were one polluted again before it is marked, the next
  start would take it for one never replaced.
- RepairRun.Repairer.RestoreAll: a stop is a limit reached; a restore that fails on a book
  is a history of `RepairProtocol` and not an outcome here.
- RepairProtocol.StepReplace: a book's columns and links are one value replaced at once.
  That the answer carries no foreign link is an assumption: no caller in the script checks
  it, and it follows from the answer having been normalized for the book's own region.
- ChapterResponse.NormalizeChapters: turning the collected record into extrasWithheld; a
  part withheld whole shows its reason in the part's own place.
- Releases.WalkCatalog: requests are not modelled, nor the check of the region's name.
- Taxonomy.BuildFlat: the interpreter's recursion limit is a parameter, the levels left;
  what a level takes of the interpreter's frames is in `NestedFinishesFlatFinishes`.
- RegionKeys.Database.Finalize: its own last comparison of row counts and flags is left
  out, because the contract shows that it cannot fire; a build that fails for another
  reason than a cut, and the rows-updated totals it logs, are not modelled.
- RegionKeys: expand, index, validate and verify add only easy members.
- ChapterWalk.Walk: a walk stopped on the way starts over, as the script's does; which
  books of a page are fetched is one filter.
- RefreshRun.StepKeeps: the ramp may move whenever a chunk frees its slot, and a run may be
  stopped at any step; that a run must stop after a 429, enough 5xx or enough failed chunks
  is not modelled. Which books a failed write keeps is left open.
- RefreshFlood.NoPageShedIff: for a water mark that was set, only that nothing is shed when
  the mark leaves a chunk for every slot and one over, or pages fit the queue.
- Backlog.NeverShedsIff: a page's end, where the queue drains, is in `RefreshRun`; the ramp
  may move whenever a slot is freed, whatever its samples say.
- Backlog: what other writers of the persist queue hold in it is not modelled.
- RampRuns.RampFollowsTheRecords: nothing but its records moves the ramp's gate there; in the
  backfill that is so until the ratchet trips (`UntroubledRampRuns`), and from then on the
  ramp is frozen.
- Ratchet.FinishBook: the back-off window and the tests for sustained 5xx and a spike of
  NONE are in `Windows`; here they are one input, whether they abort. The interleaving of
  several books' bookkeeping, each of which is one step here once setting the limit is.
- GateSteps.CallsAreAtomic: cancellation of a waiting task.
- FishGuards.OnlyItsOwnRowsFire: shells' word splitting and the check that words are safe
  to emit; the rows for the first word of a line do not compete with these.
- PathCheck.GetAudibleUrl: what httpx refuses to parse at all (control characters, a URL that
  is too long); letters are lower-cased in ASCII only, which is all the tests look at.
- Ledger.ResponseFacts.SourceHeaderValueFor: the incomplete reasons, a closed list in a
  fixed order.
- The bash, zsh and man page renderers, the seeder, and the API's routes and cache.
