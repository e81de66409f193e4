# Review import pipeline: a Dafny model

This project models the JL import of the review system, found in
`ReviewImportService`. Each line of a JL file is one JSON document describing a
hotel review. The importer has six parts:

- **Gate.** It parses each line and passes it through a required-field gate.
- **Reference data.** It resolves the provider, the hotel and the reviewer. Each
  is found or created in its repository.
- **Duplicate skip.** It skips a review whose id is already stored.
- **Mapping.** It maps the `comment` object to a `Review`. It collects one
  overall-by-provider row (OBP) per `overallByProviders` entry, and one grade row
  per member of that entry's `grades` object.
- **Batching.** It buffers reviews, grade lists and OBPs, and flushes them to
  `saveBatchWithRetry` whenever the review buffer reaches the batch size, and
  once more at end of file. The writer first bulk-saves each kind of row. On any
  failure it retries every review one save at a time, with each failure
  isolated.
- **File claims.** Files come from a local folder or a bucket. A worker claims a
  listed name by renaming it (a copy then a delete in the bucket), imports it,
  and moves the claim to a `_processed.jl` name.

The model is structured like the program:

| module | file | what |
|---|---|---|
| `Wrappers` | wrappers.dfy | `Option` (Java null) and `Outcome` (a value or a thrown exception) |
| `Json` | json.dfy | the parsed tree and the `JsonNode` accessors and coercions used |
| `Entities` | entities.dfy | provider, hotel, reviewer, review, grade, OBP; the repositories as `Tables` |
| `Validation` | validation.dfy | `validateRequiredFields` |
| `Resolver` | resolver.dfy | `upsertProvider`, `upsertHotel`, `upsertReviewer` |
| `Mapping` | mapping.dfy | `mapReview` and the grade rows of one entry |
| `BatchWriter` | writer.dfy | `saveBatchWithRetry` as a function of the store failures |
| `Pipeline` | pipeline.dfy | the line loop, batching and end-of-file flush; `processReviewLine` |
| `Service` | service.dfy | class `ImportService`: the imperative methods, each proved equal to its function |
| `Naming` | naming.dfy | the name and key transformations and the listing filters |
| `Sources` | sources.dfy | classes `Folder` and `Bucket`: claim, import and complete workers |

The environment is made of inputs:
- The JSON parser, the date parser, and every store failure are inputs (`Pipeline.Env`, `BatchWriter.Faults`).
- For the files, the rename, copy, delete and download failures are inputs (`Sources.BucketFaults`), and so is the point where reading stops.
- A thrown exception is a `Thrown` outcome or a flag.

The repositories are fields of `ImportService`:
- Providers and hotels are maps keyed by id.
- Reviewers form a sequence in insertion order. `findAll()` has no sort, so its order is not fixed by the code. The model assumes insertion order, which decides which of several matching reviewers the scan returns.
- Reviews, grades and OBPs are each the sequence of successful saves, in order.

Every imperative method ensures that its new store and result equal the
function of the old store that the lemmas are about. Examples:
- `ImportService.ParseAndImportJLFile` against `Pipeline.ImportFile`;
- `ImportService.SaveBatchWithRetry` against `BatchWriter.SaveBatch`;
- `Folder.ImportOne` against `Sources.LocalWorker`.

The model follows the code, including these behaviours that a reader might not expect:

- **A read error still completes the claim.** A read error inside
  `parseAndImportJLFile` is caught there, so the caller still renames the file
  to `_processed.jl`. The file is not left claimed. Only an error that escapes
  the call, or a failed final rename, leaves it claimed as `.processing`, which the comments at
  `ReviewImportService.java:192` and `:287` describe as left for manual
  inspection. The error also skips the final flush of the remainder
  (`Pipeline.Finish`).
- **A throw inside a flush skips the clearing of the buffers.** It is caught as
  an error of that line, so the same reviews are re-sent with the next flush
  (`Pipeline.Apply`).
- **The duplicate check does not see the buffer.** It consults only the store.
  A review id repeated within one batch is buffered twice.
- **A throw inside an `overallByProviders` entry buffers a review without its
  grade list.** The buffers fall out of alignment
  (`Pipeline.BrokenLineMisaligns`). At the next bulk failure, the retry loop
  pairs a review with the next review's grades, then reads past the end of the
  grade buffer and throws (`BatchWriter.MisalignedRetry`).
- **OBPs are paired with their review by value.** The retry loop matches rows
  with `equals`. `Review` is a Lombok `@Data` class, so that comparison is
  structural. The model uses value equality, not object identity.
- **The bucket claim is not exclusive.** A failed delete after a successful copy
  leaves a stray claim object behind. Two workers that both copy before either
  deletes both claim the key (`Sources.BucketClaimNotExclusive`).
- **The temporary download file is deleted only on success.** The listing and
  rename semantics otherwise follow `File.renameTo` and the bucket calls.

## Model

| member | source | states |
|---|---|---|
| Json.Lookup | src/main/java/com/reviewsystem/service/ReviewImportService.java:75-90 | `get(key)` is null exactly when no member has that name; otherwise the value is some member's value |
| Json.FieldNames | src/main/java/com/reviewsystem/service/ReviewImportService.java:116-119 | the names visited by `fieldNames()` are one per member, and each is a member, so `get(category)` succeeds |
| Json.Elements | src/main/java/com/reviewsystem/service/ReviewImportService.java:101 | iterating a node visits an array's items, an object's member values, and nothing for a scalar |
| Json.TruncateToInt | src/main/java/com/reviewsystem/service/ReviewImportService.java:76 | the cast of a double to an integer truncates toward zero |
| Json.TrimStart | src/main/java/com/reviewsystem/service/ReviewImportService.java:471 | the leading characters at or below the space character are dropped and nothing else: the result is a suffix and starts with a visible character |
| Json.TrimEnd | src/main/java/com/reviewsystem/service/ReviewImportService.java:471 | the trailing characters at or below the space character are dropped and nothing else: the result is a prefix and ends with a visible character |
| Json.NatTextValue | src/main/java/com/reviewsystem/service/ReviewImportService.java:406-410 | the decimal text `asText()` gives a number reads back as that number |
| Json.OptText | src/main/java/com/reviewsystem/service/ReviewImportService.java:406-410 | an optional text is non-null exactly when the member is present and not JSON null |
| Json.OptInt | src/main/java/com/reviewsystem/service/ReviewImportService.java:411-415 | an optional integer is non-null exactly when the member is present and not JSON null |
| Json.OptDouble | src/main/java/com/reviewsystem/service/ReviewImportService.java:450 | an optional double is non-null exactly when the member is present and not JSON null |
| Json.OptBool | src/main/java/com/reviewsystem/service/ReviewImportService.java:416-418 | an optional boolean is non-null exactly when the member is present and not JSON null |
| Json.Fetch | src/main/java/com/reviewsystem/service/ReviewImportService.java:75-90 | `x.get(k).asX()` succeeds exactly when `x` is non-null and has the member; it then yields that member |
| Validation.MissingReportEmpty | src/main/java/com/reviewsystem/service/ReviewImportService.java:372-383 | the accumulated report is empty exactly when every listed field is present and non-null |
| Validation.Validate | src/main/java/com/reviewsystem/service/ReviewImportService.java:371-389 | a line passes only when every top-level field is present and non-null; a rejection always names at least one field; only an absent `comment`, with comment fields configured, throws |
| Validation.ValidateSpec | src/main/java/com/reviewsystem/service/ReviewImportService.java:371-389 | the gate passes if and only if every top-level field is non-null and, when comment fields are configured, `comment` has each of them non-null. A missing top-level field rejects the line before `comment` is read. The gate throws exactly when the top level is complete, comment fields are configured and `comment` is absent |
| Service.ImportService.ValidateRequiredFields | src/main/java/com/reviewsystem/service/ReviewImportService.java:371-389 | the two builder loops return exactly the verdict of `Validation.Validate` |
| Service.ImportService.MissingFields | src/main/java/com/reviewsystem/service/ReviewImportService.java:372-375 | one builder loop yields exactly `Validation.MissingReport`: the prefixed name and ", " of each missing or null field, in order |
| Resolver.FirstMatch | src/main/java/com/reviewsystem/service/ReviewImportService.java:421-424 | the scan returns the least index whose stored display name and country are non-null and equal to the incoming ones, and none exactly when no stored reviewer matches |
| Resolver.UpsertProviderSpec | src/main/java/com/reviewsystem/service/ReviewImportService.java:391-396 | a stored id returns the stored provider: the store is unchanged and the name is ignored. Otherwise exactly one provider with that id and name is added. Either way the id is stored afterwards and no other table changes |
| Resolver.UpsertProviderIdempotent | src/main/java/com/reviewsystem/service/ReviewImportService.java:391-396 | a second upsert of the same id, with any name, returns the same provider and changes nothing |
| Resolver.UpsertHotelSpec | src/main/java/com/reviewsystem/service/ReviewImportService.java:398-403 | the same find-or-create contract for hotels, with a possibly null name |
| Resolver.UpsertReviewerSpec | src/main/java/com/reviewsystem/service/ReviewImportService.java:405-442 | with a stored match, the first match is returned and nothing changes. Otherwise exactly one reviewer is appended, with the incoming name and country and the next generated id |
| Resolver.NullKeyCreatesReviewer | src/main/java/com/reviewsystem/service/ReviewImportService.java:420-441 | a null incoming display name or country always creates a new reviewer |
| Resolver.SameKeyCollapses | src/main/java/com/reviewsystem/service/ReviewImportService.java:420-441 | two upserts with the same non-null key yield one reviewer |
| Resolver.DifferentCountrySeparates | src/main/java/com/reviewsystem/service/ReviewImportService.java:420-441 | the same display name with a different, not yet stored country yields a second reviewer |
| Resolver.UpsertProviderKeepsStore | src/main/java/com/reviewsystem/service/ReviewImportService.java:391-396 | the provider upsert removes or alters no stored provider, hotel or reviewer, and leaves the review, grade and OBP tables alone |
| Resolver.UpsertHotelKeepsStore | src/main/java/com/reviewsystem/service/ReviewImportService.java:398-403 | the same for the hotel upsert |
| Resolver.UpsertReviewerKeepsStore | src/main/java/com/reviewsystem/service/ReviewImportService.java:405-442 | the same for the reviewer upsert; stored reviewers stay a prefix of the reviewer table |
| Resolver.UpsertReviewerCarriesKey | src/main/java/com/reviewsystem/service/ReviewImportService.java:405-442 | the reviewer returned is stored and has the incoming display name and country; at most that one reviewer is appended |
| Resolver.KeepsStoreTransitive | src/main/java/com/reviewsystem/service/ReviewImportService.java:74-87 | keeping the store is preserved across successive reference steps |
| Service.ImportService.UpsertProvider | src/main/java/com/reviewsystem/service/ReviewImportService.java:391-396 | the repository update and the result are exactly those of `Resolver.UpsertProvider` |
| Service.ImportService.UpsertHotel | src/main/java/com/reviewsystem/service/ReviewImportService.java:398-403 | the repository update and the result are exactly those of `Resolver.UpsertHotel` |
| Service.ImportService.UpsertReviewer | src/main/java/com/reviewsystem/service/ReviewImportService.java:405-442 | the first-match loop over the reviewer repository gives exactly `Resolver.UpsertReviewer` |
| Mapping.GradesFor | src/main/java/com/reviewsystem/service/ReviewImportService.java:115-127 | one grade per category, in order; each refers to the review, carries its category and has the member's score |
| Mapping.MapReviewExample | src/test/java/com/reviewsystem/service/ReviewImportServiceTest.java:130-143 | any comment whose rating is 5 and whose reviewComments is "Good" maps, with id 1, to a review with that id and those references, rating 5.0 and comments "Good" |
| Mapping.MapReviewSpec | src/main/java/com/reviewsystem/service/ReviewImportService.java:444-473 | the review carries the given id and references. Each of the 22 optional attributes, under its own member name, is null exactly when the member is absent or JSON null, and otherwise holds the member's value coerced as the code does. The date is null also when the date parser rejects the text; when the member is present it is exactly what the parser returns for the member's text |
| Mapping.NullMemberIsAbsent | src/main/java/com/reviewsystem/service/ReviewImportService.java:444-473 | for any member name, a comment with that member set to JSON null maps to exactly the same review as the comment without the member |
| Service.ImportService.GradesOfNode | src/main/java/com/reviewsystem/service/ReviewImportService.java:115-127 | the `fieldNames()` loop builds exactly `Mapping.GradesOf` and changes no repository |
| Pipeline.HotelName | src/main/java/com/reviewsystem/service/ReviewImportService.java:82 | the hotel name is null exactly when the member is JSON null |
| Pipeline.ResolveKeepsStore | src/main/java/com/reviewsystem/service/ReviewImportService.java:74-90 | resolving a line's references only adds providers, hotels and reviewers |
| Service.ImportService.ResolveReferences | src/main/java/com/reviewsystem/service/ReviewImportService.java:74-90 | the in-place upserts and reads give exactly `Pipeline.Resolve` |
| Pipeline.CollectContents | src/main/java/com/reviewsystem/service/ReviewImportService.java:99-129 | up to the first throwing entry, the row of entry k carries entry k's `overallScore` and `reviewCount`. The loop threw exactly when there are fewer rows than entries. The grades are the grade rows of those entries, concatenated in entry order |
| Pipeline.CollectSpec | src/main/java/com/reviewsystem/service/ReviewImportService.java:99-129 | collecting the entries keeps the store. Every row and grade refers to the line's review. Without a throw there is one row per entry |
| Service.ImportService.CollectEntry | src/main/java/com/reviewsystem/service/ReviewImportService.java:103-127 | one entry's provider upsert, row and grades are exactly `Pipeline.Entry` |
| Service.ImportService.CollectEntries | src/main/java/com/reviewsystem/service/ReviewImportService.java:100-129 | the entry loop gives exactly `Pipeline.Collect`, including the stop at the first throwing entry |
| Pipeline.SkippedLines | src/main/java/com/reviewsystem/service/ReviewImportService.java:67-94 | a line that does not parse, or fails the gate, buffers nothing and changes nothing. A line whose review id is stored buffers nothing, but keeps the upserts already done |
| Pipeline.ClassifyLine | src/main/java/com/reviewsystem/service/ReviewImportService.java:67-131 | whatever the line, its steps up to the buffers keep the store: they only add providers, hotels and reviewers |
| Pipeline.ClassifyLineSpec | src/main/java/com/reviewsystem/service/ReviewImportService.java:67-141 | every line keeps the store. A line that buffers a review has an id not yet stored, and its rows and grades refer to that review |
| Pipeline.ClassifyValidSpec | src/main/java/com/reviewsystem/service/ReviewImportService.java:74-130 | the same for a line that passed the gate |
| Service.ImportService.ImportLine | src/main/java/com/reviewsystem/service/ReviewImportService.java:67-131 | one line's in-place steps give exactly `Pipeline.ClassifyLine` |
| Pipeline.AcceptedKeepsAligned | src/main/java/com/reviewsystem/service/ReviewImportService.java:96-130 | appending one accepted line keeps the buffers aligned: one grade list per review, by position |
| Pipeline.BrokenLineMisaligns | src/main/java/com/reviewsystem/service/ReviewImportService.java:96-141 | a line that throws in an entry grows the review buffer by one and leaves the grade buffer as it was |
| Pipeline.ApplyKeepsInvariant | src/main/java/com/reviewsystem/service/ReviewImportService.java:130-138 | on the exception-free path, buffering a line and flushing at the flush size keeps the loop invariant. The flush size is the batch size, or 1 when the batch size is not positive. The invariant is: aligned buffers below the flush size, sent batches of exactly the flush size, and the sent reviews followed by the buffer are the accepted reviews |
| Pipeline.FlushKeepsInvariant | src/main/java/com/reviewsystem/service/ReviewImportService.java:133-138 | a flush at the flush size does not throw, sends a batch of exactly the flush size and empties the buffers, so the loop invariant holds after it |
| Pipeline.LineStepKeepsInvariant | src/main/java/com/reviewsystem/service/ReviewImportService.java:67-141 | one iteration of the line loop keeps the loop invariant |
| Pipeline.ImportLinesInvariant | src/main/java/com/reviewsystem/service/ReviewImportService.java:67-142 | the whole line loop keeps the loop invariant, for any configured batch size |
| Pipeline.FinishSendsRemainder | src/main/java/com/reviewsystem/service/ReviewImportService.java:143-146 | after the loop, a non-empty remainder is flushed once. Every accepted review has then been sent exactly once in line order, in batches of one to the flush size |
| Pipeline.ImportFileSendsEachOnce | src/main/java/com/reviewsystem/service/ReviewImportService.java:59-151 | on the exception-free path every accepted review reaches the writer exactly once, in line order, in non-empty batches of at most the flush size (the batch size, or 1 when it is not positive). Without store faults the stored reviews are the old ones followed by the accepted ones |
| Pipeline.ImportFile | src/main/java/com/reviewsystem/service/ReviewImportService.java:59-151 | importing a file only grows the store: no stored provider, hotel or reviewer is lost or altered, and the review, grade and row tables only have rows appended |
| Pipeline.ImportLinesGrows | src/main/java/com/reviewsystem/service/ReviewImportService.java:67-142 | the line loop only grows the store |
| Pipeline.LineStepGrows | src/main/java/com/reviewsystem/service/ReviewImportService.java:67-141 | one iteration of the line loop only grows the store, including its flush |
| Service.ImportService.ParseAndImportJLFile | src/main/java/com/reviewsystem/service/ReviewImportService.java:59-151 | the loop over the three local buffers gives exactly `Pipeline.ImportFile`: the store and the batches handed to the writer |
| BatchWriter.FlattenMembers | src/main/java/com/reviewsystem/service/ReviewImportService.java:489-492 | a grade is in the flattened list exactly when it is in some grade list. The flattened list is empty exactly when every list is |
| BatchWriter.SavedMembers | src/main/java/com/reviewsystem/service/ReviewImportService.java:508-514 | isolated single saves write exactly the records whose save does not fail |
| BatchWriter.SavedCounts | src/main/java/com/reviewsystem/service/ReviewImportService.java:508-514 | each record is written as often as it occurs, or not at all when its save fails |
| BatchWriter.SavedAllSurvive | src/main/java/com/reviewsystem/service/ReviewImportService.java:508-514 | with no failing save, every record is written, in order |
| BatchWriter.SavedSnoc | src/main/java/com/reviewsystem/service/ReviewImportService.java:508-514 | one more isolated save appends the record exactly when its save does not fail |
| BatchWriter.ObpsOfMembers | src/main/java/com/reviewsystem/service/ReviewImportService.java:516-517 | the rows selected for a review are exactly the buffered rows that refer to it |
| BatchWriter.BulkSaveOrder | src/main/java/com/reviewsystem/service/ReviewImportService.java:486-495 | with no bulk failure, the reviews, then the flattened grades, then the rows are appended, and nothing throws |
| BatchWriter.SaveBatch | src/main/java/com/reviewsystem/service/ReviewImportService.java:484-527 | whichever bulk save fails, the writer only appends reviews, grades and rows and leaves the reference tables alone |
| BatchWriter.RetryWritesSurvivors | src/main/java/com/reviewsystem/service/ReviewImportService.java:498-525 | the retry loop only appends and never touches the reference tables. With a complete grade buffer it does not throw and writes exactly the reviews whose save does not fail, in order |
| BatchWriter.RetryOneAppends | src/main/java/com/reviewsystem/service/ReviewImportService.java:499-524 | one iteration of the retry loop only appends; with a grade list for its review it does not throw and writes the review exactly when its save does not fail |
| BatchWriter.RetryNoThrow | src/main/java/com/reviewsystem/service/ReviewImportService.java:498-507 | with a grade list for every review, the retry loop never throws |
| BatchWriter.RetryStep | src/main/java/com/reviewsystem/service/ReviewImportService.java:498-525 | with a complete grade buffer, each iteration runs on what the previous ones wrote |
| BatchWriter.RetryOneGrades | src/main/java/com/reviewsystem/service/ReviewImportService.java:500-514 | an iteration writes the surviving grades of its review if the review's save succeeds, and none otherwise |
| BatchWriter.RetryOneObps | src/main/java/com/reviewsystem/service/ReviewImportService.java:500-524 | an iteration writes the surviving rows of its review if the review's save succeeds, and none otherwise |
| BatchWriter.GradeKeptStep | src/main/java/com/reviewsystem/service/ReviewImportService.java:498-514 | a grade survives the first n iterations exactly when it survives the first n-1, or belongs to review n-1, that review's save succeeds and the grade's own save succeeds |
| BatchWriter.RetryGrades | src/main/java/com/reviewsystem/service/ReviewImportService.java:498-514 | a grade is written by the retry loop exactly when it belongs to a review whose save succeeds and its own save succeeds |
| BatchWriter.RetryObps | src/main/java/com/reviewsystem/service/ReviewImportService.java:498-524 | a row is written by the retry loop exactly when its review is in the batch, that review's save succeeds and its own save succeeds |
| BatchWriter.IsolatesBadReviews | src/main/java/com/reviewsystem/service/ReviewImportService.java:496-505 | after a bulk review failure, a review whose save fails is never written. Each other review is written once per occurrence, and no later review is stopped |
| BatchWriter.RetryPathDependents | src/main/java/com/reviewsystem/service/ReviewImportService.java:496-525 | on the retry path with aligned buffers, every written grade and row belongs to a written review whose save succeeded. Every grade or row whose own save and whose review's save succeed is written |
| BatchWriter.GradeBulkFailureRetries | src/main/java/com/reviewsystem/service/ReviewImportService.java:486-525 | when the review bulk save succeeds and the grade bulk save fails, the retry runs on top of the bulk-written reviews. Each review whose own save succeeds is then written twice. The grades and rows written are exactly those whose own save and whose review's save succeed |
| BatchWriter.ObpBulkFailureRetries | src/main/java/com/reviewsystem/service/ReviewImportService.java:486-525 | when the review and grade bulk saves succeed and the row bulk save fails, the bulk-written reviews and grades stay. Each surviving review and each of its surviving grades is written a second time after them, and the rows written are exactly the surviving ones |
| BatchWriter.MisalignedRetry | src/main/java/com/reviewsystem/service/ReviewImportService.java:96-141 | with one grade list missing, the retry saves the second review's grades after the first review. It then throws on the second review, unless that review's save failed |
| BatchWriter.RetryStaysThrown | src/main/java/com/reviewsystem/service/ReviewImportService.java:498-507 | once the retry loop has thrown, later iterations change nothing |
| Pipeline.AlignedSaveDoesNotThrow | src/main/java/com/reviewsystem/service/ReviewImportService.java:484-527 | with a grade list for every review, `saveBatchWithRetry` never throws |
| Pipeline.NoFaultsSaveAll | src/main/java/com/reviewsystem/service/ReviewImportService.java:486-495 | without store faults, a batch is written in full by the bulk path |
| Service.ImportService.SaveBatchWithRetry | src/main/java/com/reviewsystem/service/ReviewImportService.java:484-527 | the bulk saves and fallback loop give exactly `BatchWriter.SaveBatch` |
| Service.ImportService.RetryIndividually | src/main/java/com/reviewsystem/service/ReviewImportService.java:498-525 | the indexed retry loop gives exactly `BatchWriter.Retry` over the whole batch |
| Service.ImportService.SaveGradesIsolated | src/main/java/com/reviewsystem/service/ReviewImportService.java:508-514 | the grade loop appends exactly the grades whose save does not fail |
| Service.ImportService.SaveRowsIsolated | src/main/java/com/reviewsystem/service/ReviewImportService.java:516-524 | the row loop appends exactly the review's rows whose save does not fail |
| Pipeline.ProcessLine | src/main/java/com/reviewsystem/service/ReviewImportService.java:304-369 | `processReviewLine` only grows the store, whatever fails |
| Pipeline.ProcessValidGrows | src/main/java/com/reviewsystem/service/ReviewImportService.java:311-365 | the same for a line that passed the gate |
| Pipeline.SaveEntriesGrows | src/main/java/com/reviewsystem/service/ReviewImportService.java:336-365 | the immediate entry loop only grows the store |
| Pipeline.SaveGradesAppends | src/main/java/com/reviewsystem/service/ReviewImportService.java:351-363 | the immediate grade saves only append grades |
| Pipeline.ProcessLineMatchesLoop | src/main/java/com/reviewsystem/service/ReviewImportService.java:304-369 | `processReviewLine` has the gating of the loop (`Pipeline.SameEffect`). A skipped line writes nothing beyond its upserts, and a review whose save fails writes no rows. Without faults, an accepted line writes exactly the review, grades and rows the loop buffers, and a broken line the review and the rows of the entries before the throw |
| Pipeline.ProcessValidMatchesLoop | src/main/java/com/reviewsystem/service/ReviewImportService.java:311-365 | the same for a line that passed the gate |
| Pipeline.EntryFrame | src/main/java/com/reviewsystem/service/ReviewImportService.java:339-348 | an entry changes only the provider table, and its row and grades do not depend on the other tables |
| Pipeline.CollectFrame | src/main/java/com/reviewsystem/service/ReviewImportService.java:336-365 | the entry loop changes only the provider table, and its result does not depend on the other tables |
| Pipeline.SaveGradesNoFaults | src/main/java/com/reviewsystem/service/ReviewImportService.java:351-363 | without faults, the immediate grade saves append every grade |
| Pipeline.SaveEntriesNoFaults | src/main/java/com/reviewsystem/service/ReviewImportService.java:336-365 | without faults, the immediate entry loop writes exactly the rows and grades the batch loop collects |
| Pipeline.CollectStaysThrown | src/main/java/com/reviewsystem/service/ReviewImportService.java:101-128 | once an entry has thrown, the later entries change nothing |
| Pipeline.SaveEntriesStaysThrown | src/main/java/com/reviewsystem/service/ReviewImportService.java:337-364 | once an immediate entry save has thrown, later entries change nothing |
| Pipeline.SaveGradesStaysThrown | src/main/java/com/reviewsystem/service/ReviewImportService.java:353-362 | once an immediate grade save has thrown, later grades change nothing |
| Service.ImportService.ProcessReviewLine | src/main/java/com/reviewsystem/service/ReviewImportService.java:304-369 | the immediate-write method gives exactly `Pipeline.ProcessLine` |
| Service.ImportService.SaveEntriesNow | src/main/java/com/reviewsystem/service/ReviewImportService.java:336-365 | the immediate entry loop gives exactly `Pipeline.SaveEntries` |
| Service.ImportService.SaveEntryNow | src/main/java/com/reviewsystem/service/ReviewImportService.java:338-364 | one entry of the immediate loop (provider upsert, row save, grade saves) gives exactly `Pipeline.SaveEntry` |
| Service.ImportService.SaveGradesNow | src/main/java/com/reviewsystem/service/ReviewImportService.java:351-363 | the immediate grade loop gives exactly `Pipeline.SaveGrades` |
| Service.ImportService.constructor | src/main/java/com/reviewsystem/service/ReviewImportService.java:44-57 | a service over the given configuration and repositories |
| Naming.ProcessedName | src/main/java/com/reviewsystem/service/ReviewImportService.java:170 | a ".jl" name keeps its stem and ends in "_processed.jl" instead, ten characters longer; any other name is kept |
| Naming.ListedLocally | src/main/java/com/reviewsystem/service/ReviewImportService.java:159 | a name ending in ".processing" is never listed by the folder filter |
| Naming.ListedInBucket | src/main/java/com/reviewsystem/service/ReviewImportService.java:231 | the bucket filter accepts exactly the names the folder filter accepts: its ".processing" test never decides |
| Naming.EndsWithAppended | src/main/java/com/reviewsystem/service/ReviewImportService.java:159 | a name followed by a suffix ends with that suffix and starts with the name |
| Naming.DerivedShapes | src/main/java/com/reviewsystem/service/ReviewImportService.java:170-174 | for a name ending in ".jl", the processed name, the local claim name and the bucket claim key are its stem followed by "_processed.jl", "_processed.jl.processing" and ".processing" |
| Naming.DerivedNamesNotListed | src/main/java/com/reviewsystem/service/ReviewImportService.java:159-236 | no processed or claim name passes its listing filter, so a claimed or processed item is never listed again |
| Naming.ProcessedNameRoundTrip | src/main/java/com/reviewsystem/service/ReviewImportService.java:170 | a processed name gives back the name it came from |
| Naming.DerivedNamesInjective | src/main/java/com/reviewsystem/service/ReviewImportService.java:170-273 | distinct listed names get distinct processed names, claim names and claim keys |
| Naming.DerivedNamesDistinct | src/main/java/com/reviewsystem/service/ReviewImportService.java:170-273 | each derived name differs from the listed name and the claim differs from the processed name |
| Naming.ClaimIsNeverProcessed | src/main/java/com/reviewsystem/service/ReviewImportService.java:174-273 | no claim name or claim key equals any processed name |
| Sources.ReadLines | src/main/java/com/reviewsystem/service/ReviewImportService.java:64-67 | the lines read are a prefix of the file, the whole file exactly when reading does not fail |
| Sources.LocalWorker | src/main/java/com/reviewsystem/service/ReviewImportService.java:168-189 | a folder worker creates no file besides the claim and the processed name. One that does not claim changes nothing. A completed one leaves the original lines under the processed name |
| Sources.LocalWorkerSpec | src/main/java/com/reviewsystem/service/ReviewImportService.java:168-189 | a folder worker claims exactly when the name exists and the rename succeeds. A claimed name is gone, so a second claim of it does nothing. A completed one's lines are under the processed name with no claim left. A failed completion leaves the claim. The listing then loses the name exactly when it was claimed |
| Sources.LocalWorkerFrame | src/main/java/com/reviewsystem/service/ReviewImportService.java:170-189 | a folder worker leaves every other listed name and its processed name exactly as they were |
| Sources.LocalStep | src/main/java/com/reviewsystem/service/ReviewImportService.java:167-194 | one more folder worker keeps the state of the worker loop |
| Sources.ProgressStep | src/main/java/com/reviewsystem/service/ReviewImportService.java:167-194 | a worker that leaves the other names alone and does to its own name what its outcome says keeps the state of the worker loop |
| Sources.Folder.RenameTo | src/main/java/com/reviewsystem/service/ReviewImportService.java:174 | a rename succeeds exactly when the source exists and the platform does not refuse. It then moves the lines to the new name |
| Sources.Folder.ImportOne | src/main/java/com/reviewsystem/service/ReviewImportService.java:168-193 | the folder worker changes the files exactly as `Sources.LocalWorker`. A claimed file's readable lines are imported into the store, which only grows |
| Sources.Folder.ImportFolder | src/main/java/com/reviewsystem/service/ReviewImportService.java:153-200 | every listed name gets a worker. An unclaimed name is left unchanged, a claimed one is gone, and a completed one's lines are under its processed name. The listing keeps just the unclaimed names. The store only grows |
| Sources.Folder.constructor | src/main/java/com/reviewsystem/service/ReviewImportService.java:153-159 | a folder with the given files and failures |
| Sources.BucketWorker | src/main/java/com/reviewsystem/service/ReviewImportService.java:233-288 | a bucket worker creates no object besides the claim key and the processed key. A completed one leaves the original lines under the processed key |
| Sources.BucketWorkerSpec | src/main/java/com/reviewsystem/service/ReviewImportService.java:233-288 | a bucket worker claims exactly when the key exists and both the copy and the delete succeed. A failed delete leaves a stray claim copy. A claimed key is gone. It completes exactly when download, copy and delete all succeed, leaving the lines under the processed key and no claim. Otherwise the claim stays in place |
| Sources.BucketWorkerFrame | src/main/java/com/reviewsystem/service/ReviewImportService.java:236-281 | a bucket worker leaves every other listed key and its processed key exactly as they were |
| Sources.BucketWorkerListing | src/main/java/com/reviewsystem/service/ReviewImportService.java:229-251 | the bucket listing loses the key exactly when the worker claimed it |
| Sources.BucketStep | src/main/java/com/reviewsystem/service/ReviewImportService.java:229-290 | one more bucket worker keeps the state of the worker loop |
| Sources.BucketClaimNotExclusive | src/main/java/com/reviewsystem/service/ReviewImportService.java:239-246 | two workers that both copy a key before either deletes it both claim it |
| Sources.Bucket.CopyObject | src/main/java/com/reviewsystem/service/ReviewImportService.java:239-245 | a copy succeeds exactly when the source exists and the store does not refuse |
| Sources.Bucket.DeleteObject | src/main/java/com/reviewsystem/service/ReviewImportService.java:246 | a delete succeeds unless the store refuses, even for a missing key |
| Sources.Bucket.ImportOne | src/main/java/com/reviewsystem/service/ReviewImportService.java:233-288 | the bucket worker changes the objects exactly as `Sources.BucketWorker`. A claimed and downloaded object's readable lines are imported into the store, which only grows |
| Sources.Bucket.ImportBucket | src/main/java/com/reviewsystem/service/ReviewImportService.java:211-302 | every listed key under the prefix gets a worker, with the same outcome guarantees as the folder. The store only grows |
| Sources.Bucket.constructor | src/main/java/com/reviewsystem/service/ReviewImportService.java:211-228 | a bucket with the given objects, prefix and failures |

## Left out

- Concurrency: the worker pools, the joining of futures and the scheduler's overlap gate are not modelled. Workers run one after another, so races between workers are out of scope, except for the one pure race lemma `Sources.BucketClaimNotExclusive`.
- Jackson's parser is an input (`Env.parse`). It stands for the tree Jackson builds, in which a repeated member name has already been resolved to its last value. `Json.Lookup` reads the first member of a name, which agrees with that on such a tree. Plain JSON doubles are kept as exact reals.
- The coercions are modelled only as far as the importer uses them. `asText` of a double is the empty text here, whereas Jackson prints its decimal form. Review and reviewer fields of such a shape are affected.
- Json.AsLong, Json.AsDouble: Jackson parses a text node that spells a number (`"5"` reads as 5). That parse is not modelled: every text reads as 0 and 0.0 here. A text `providerId`, `hotelId`, `overallScore`, `reviewCount`, rating or grade score is affected.
- Json.AsBoolean: a text is trimmed and compared with "true", as Jackson does. Jackson's literal "false" and its default for any other text both read as false here.
- Numeric widths: `asInt` and `asLong` are both unbounded `AsLong`, so 32- and 64-bit overflow is not modelled. Ratings and scores are reals, not binary doubles.
- The date parser is an input (`Env.parseDate`). Its failure becomes null, as at lines 475-482.
- Reference-data failures are not modelled: `providerRepository.findById` and `save` are assumed never to fail. The same holds for the hotel and reviewer repositories. Only review, grade and OBP saves have failure inputs.
- Reviewer ids are modelled as the count of reviewers plus one. The identity column's real sequence (gaps, restarts) is left out.
- JPA merge-on-save is not modelled. The review, grade and OBP tables are write logs, so a row saved twice appears twice. The auditing timestamps of the entities are not modelled.
- Service.ImportService.ProcessReviewLine: the rollback of the `@Transactional` method is not modelled. The rows saved before a failing save stay saved. The same holds for `Pipeline.ProcessLine`, `Pipeline.ProcessLineMatchesLoop` and `Pipeline.ProcessValidMatchesLoop`, whose broken-line and failed-save clauses describe the store without the rollback.
- The regex `\.jl$` is modelled as "ends with .jl". A name whose `.jl` is followed by a line terminator is not covered.
- The file system is modelled as names mapped to lines. Absolute paths, the directory check, temporary-file creation and deletion, and byte decoding are not modelled.
- Bucket listing pagination is not modelled: a single listing returns every key under the prefix. The credentials and the client construction are left out too.
- `Sources.Bucket.ImportOne` folds a failure to create the temporary file into the download failure input.
- `importJLFiles`, the controller, the application runner, the configuration classes and the logging are wrappers and are not modelled.
