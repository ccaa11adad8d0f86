# cvetool, modelled and verified in Dafny

cvetool scans container images for vulnerabilities: it keeps advisories in an SQLite store, assembles images from
local OCI archives, and enriches index reports from a catalog of repository packages. This project models the parts
of it that have state, protocols or formats, and proves what they are for. `dafny verify dfyconfig.toml` checks all
of it.

**The matcher store** (`Advisory`, `Tables`, `StoreProgress`, `CutProgress`, `MatcherStore`, `StoreIntegrity`,
`StoreRefinement`, `StoreLog`, `LatestOps`, `StoreRuns`, `SplitUpdate`, `SplitCollection`, `GarbageCollection`,
`Deltas`, `Records`, `VersionRange`). The tables and the latest-operation view are maps; the class `Store` issues the
statements of the source in order, in place, inside transactions that commit or restore. Each method is proved to take
one of the steps defined in `Tables`. Over these steps, every run refines a plain log that says what each operation
publishes (`RunRefinesLog`): interning, digest look-ups, row ids and their reuse, and cleanup cannot be seen through it.
For orderly runs the log folds to a plain map from updaters to sets of advisories (`RunRefinesFold`). `SplitUpdate` and
`SplitCollection` take a delta's selection and its transaction, and the statements of a collection, apart and say which
commits may come between them. `Records` says, on the records that callers hand in, what is stored of each, what an
update publishes and what a collection removes.

**Get** (`Query`, `RowScan`, `Answers`, `Selection`, `Scenarios`). The database is an adversary: it visits the rows that
a query needs, and any others, in any order, and it may call the version test early. The theorems say what an answer
holds in any case, and exactly when it is complete; `Selection` says what is selected on the fields of rows and index
records. `Scenarios` has runs of the store, from the empty tables, at which what can go wrong does.

**Two concurrent components** (`LockSource`, `FetchArena`, `TrackingArena`, `Errors`). Each is a machine whose
events are the statements or critical sections of the source, so that a run is an interleaving of all callers. The
classes beside the machines run the source's methods without interruption; their contracts say that the state they
leave is the one the machine's events lead to, whatever surrounds the object.

**The catalog and the codecs** (`Nevra`, `CatalogIndex`, `Generate`, `EnrichReport`, `Pipeline`, `LocalArchive`,
`ParseArchive`, `Fingerprints`). Rows become packages, an index, sorted lookups, and an enriched report; the result
is a relation between rows, mapping and environments, independent of every order. An archive is assembled slot by
slot, with every resource accounted for. `Text` and `Order` hold the few library functions used.

## What the proofs rely on

* For `RunRefinesLog`, that no two differently stored records of a run share a digest (`NulFreeRunRefinesLog`: for
  enrichments without NUL bytes, nothing). `PublishedIffNoClash` says exactly what is published otherwise,
  `DigestIdentifiesNothing` that no digest alone guarantees it, and `EnrichBytesIdentifyIff` for which enrichments one
  does. Also that a delta's selection and its transaction see the same tables; `SplitIsStepIff` and `SplitAmongOthers`
  say when it makes no difference if they do not. A collection may be interleaved with (`CollectionInterleaves`).
* For `RunRefinesFold`, also that a record's updater is the one performing the call, that an updater's operations are
  dated in the order of their ids, that collections keep at least one operation and that explicit deletions name no
  updater's latest one. Without these the log still says what is published: a deletion or a cut may uncover an older
  operation (`SurvivesEveryCutIff`), and a delta may carry what another updater publishes (`Deltas`). The date column
  has a resolution of one second.
* Foreign keys and `ON DELETE CASCADE` are enforced, as the schema comment intends; no statement in the modelled files
  switches foreign keys on.
* Operation ids are never reused (AUTOINCREMENT); the ids of the other tables may be.
* A releasing cancel function is called at most once; a layer is realized at most once and not after the arena is
  closed. Where these fail, an if-and-only-if lemma says what is lost.
* Digests of other texts, used as identifiers, are injective.

One updater may write both kinds of records: contents are tagged with their kind, so nothing rests on a convention
there.

## Where the code falls short of its documentation

* `md5Vuln` promises a context-free identifier of a record, but writes its fields without separators and omits the
  updater and the normalized severity: for every storable record there is a different one with the same digest
  (`DigestIdentifiesNothing`; inputs in `VulnHashCollides`). An enrichment's digest identifies it if and only if it has
  no tags and no NUL byte in its data (`EnrichBytesIdentifyIff`; an input in `EnrichBytesCollide`).
* A `context.CancelFunc` may be called again without effect; the lock source's releases the key a second time, from
  whoever holds it by then (`OwnershipIff`, over every run; an input in `DoubleGrantReachable`).
* Two operations of an updater dated in the same second may be cut in either order, so a collection that keeps one
  may keep the older (`SurvivesEveryCutIff`; an input in `TieDropsNewest`).
* An enrichment update whose final ANALYZE fails returns an error although it is committed
  (`Store.UpdateEnrichments`).
* `Get` does not ask the row iterator for an error, so a failing version test silently ends a record's rows, although
  the row that fails may belong to an older operation or to none. With a driver that steps once when it runs a query, a
  test that fails before the first row is reported; any later one is silent. `ScanCompleteIff` and `GetCompleteIff` say
  exactly when something is hidden; an input in `FailingTestHidesRow`. An added matcher can then bring an entry back
  (`MatcherShrinksScanIff`).
* A temporary layer file is left to its name if and only if its unpacking failed: the call that unlinks it comes last,
  and its own error is ignored (`ParseLocalArchive`).
* A delta selects ids outside its transaction. What is committed in between can make it publish what its updater has
  withdrawn (`StaleSelectionRevives`) and even another updater's record, when an id was given out again
  (`ReusedIdNamesAnotherRow`). `SplitIsStepIff` says exactly when it does what it would do in one piece.
* Deltas treat rows shared with other updaters by the row's own updater (`SharedRowIsDropped`, `SharedRowIsRevived`;
  inputs in `SharedRowDroppedRun`, `SharedRowRevivedRun`).
* Repeating a repository ID changes the package fingerprint if and only if its repository has a row, and never a lookup
  (`RepeatedIdShowsIff`).
* `version_in` runs past its ten-element array on a bound with an eleventh number, where it means to return an error
  (`VersionInPanicsIff`); no column that an update writes has such a bound.

## Model

| member | source | states |
|---|---|---|
| `StoreLog.RunRefinesLog` | datastore/sqlite/update_vulnerabilities.go:61-273 | After any run of full, delta and enrichment updates, failed updates, deletions of any operations and collections of any depth, in any order and at any dates, each operation publishes exactly what a plain log machine without rows, ids, interning or garbage says. Each update, with a delta's selection, is one step; the only assumption on the records is that no two of them share a digest. |
| `StoreLog.NulFreeRunRefinesLog` | datastore/sqlite/update_enrichments.go:142-151 | The same with no assumption on enrichments but that their tags and data hold no NUL byte. |
| `StoreRuns.RunRefinesFold` | datastore/sqlite/update_vulnerabilities.go:61-273 | In a run in which operations are dated in the order of their ids, records carry their updater's name, deletions spare latest operations and collections keep at least one, what an updater publishes through the latest-operation view is the fold of its own committed commands over a plain set, and nothing else. |
| `StoreLog.RunKeepsIntegrity` | datastore/sqlite/migrations/02-add-metadata.sql:12-46 | Every table state of every run keeps its keys and foreign keys, its unique digests, and rows whose name and description ids lead to the texts they were inserted with; no assumption on records or clocks. |
| `StoreLog.OperationNeverChanges` | datastore/sqlite/migrations/03-updates.sql:21-41 | An operation publishes the same content for as long as it exists, although the ids of deleted rows are handed out again. |
| `StoreRuns.CutKeepsLatest` | datastore/sqlite/gc.go:104-130 | A cut to one or more operations by date never takes an updater's latest operation when dates follow ids. |
| `StoreIntegrity.VulnStepKeepsInv` | datastore/sqlite/update_vulnerabilities.go:172-256 | A committed vulnerability update keeps every key, foreign key and interned reference. |
| `StoreIntegrity.EnrichStepKeepsInv` | datastore/sqlite/update_enrichments.go:85-119 | A committed enrichment update keeps them as well. |
| `StoreIntegrity.DeletionKeepsInv` | datastore/sqlite/gc.go:21-62 | So does a deletion of operations followed by any removal of unreferenced rows. |
| `StoreIntegrity.VulnStepFrame` | datastore/sqlite/update_vulnerabilities.go:107-112 | An update leaves the content of every older operation as it was, so an unused row id it takes is never captured by an old association. |
| `StoreIntegrity.DeletionFrame` | datastore/sqlite/gc.go:141-200 | Deleting operations and cleaning up, updater by updater over shared tables, changes nothing that any retained operation of any updater is associated with. |
| `StoreIntegrity.DeletionOnLog` | datastore/sqlite/gc.go:21-62 | The log of published contents afterwards is the log before, restricted to the retained operations. |
| `StoreRefinement.PublishedIffNoClash` | datastore/sqlite/update_vulnerabilities.go:308-346 | A batch is published exactly as handed in if and only if none of its digests is shared with a differently stored row or record. |
| `StoreRefinement.CarriedSurvives` | datastore/sqlite/update_vulnerabilities.go:69-87 | In every store, a delta carries exactly the entries written for this updater that some latest operation publishes and whose name is neither in the batch nor deleted. |
| `StoreRefinement.ExistingIsLatestIff` | datastore/sqlite/update_vulnerabilities.go:69-87 | The rows selected are those of the updater's latest operation if and only if that operation holds no other updater's rows and no other latest operation holds a row of this updater that it does not. |
| `StoreRefinement.VulnStepContent` | datastore/sqlite/update_vulnerabilities.go:172-256 | In every store, a committed update publishes what carries forward and the rows its batch leads to; these are the storable records of the batch if and only if no digest clashes. |
| `StoreRefinement.EnrichStepContent` | datastore/sqlite/update_enrichments.go:92-119 | A committed enrichment update publishes the rows its records lead to; these are its records if and only if no digest clashes. |
| `Deltas.DeltaMeaning` | datastore/sqlite/update_vulnerabilities.go:154-169 | Entry by entry: an old entry stays unless its name occurs in the batch in any role or in the deletion list; an inverted or package-less record still evicts; an added record is there whatever was deleted. |
| `Deltas.DeltasCompose` | datastore/sqlite/update_vulnerabilities.go:124-192 | Two successive deltas equal one explicitly composed delta. |
| `Deltas.RowShownIff` | datastore/sqlite/update_vulnerabilities.go:69-192 | After any delta, an entry of the store is published by the new operation if and only if the selection carries its row or the batch has its digest. |
| `Deltas.SharedRowIsDropped` | datastore/sqlite/update_vulnerabilities.go:80-87 | A row first written by another updater is visible through this one's latest operation; after a delta of this one it is visible if and only if the batch has its digest: the selection tests the row's updater. |
| `Deltas.SharedRowIsRevived` | datastore/sqlite/update_vulnerabilities.go:74-87 | A row this updater withdrew is published again by its next delta if and only if the batch has its digest, or its name is neither in the batch nor deleted and another updater's latest operation shares it: the selection joins every latest operation. |
| `Scenarios.SharedRowRevivedRun` | datastore/sqlite/update_vulnerabilities.go:74-87 | A run from the empty store, for any record: two updaters publish it, the first withdraws it, and an empty delta of the first publishes it again. |
| `Scenarios.SharedRowDroppedRun` | datastore/sqlite/update_vulnerabilities.go:80-87 | And there an empty delta of the second, which still publishes it, drops it. |
| `SplitUpdate.SplitIsStepIff` | datastore/sqlite/update_vulnerabilities.go:118-192 | A delta whose selection read an earlier state than its transaction wrote to is the delta run in one piece if and only if every row that one of the two selections carries and the other does not is still there and the batch has its digest: a condition on the tables before the call. |
| `SplitUpdate.SplitKeepsInv` | datastore/sqlite/update_vulnerabilities.go:118-192 | Whatever was committed in between, it keeps every key and reference. |
| `SplitUpdate.SplitContent` | datastore/sqlite/update_vulnerabilities.go:118-192 | It publishes the rows that the carried ids name by then, whatever they named when they were selected, and the rows its batch leads to. |
| `SplitUpdate.SplitPublishesSeen` | datastore/sqlite/update_vulnerabilities.go:118-192 | In any run, when the operations that the selection drew on still exist, each carried id names the row that was selected and the delta publishes what survives of what it saw. |
| `SplitUpdate.SplitIsAtomic` | datastore/sqlite/update_vulnerabilities.go:118-192 | In any run, it is the delta run in one piece when the operations the selection draws on are the same at both moments. |
| `SplitUpdate.SplitAmongOthers` | datastore/sqlite/update_vulnerabilities.go:118-192 | Updates of other updaters, deletions of other operations and collections that keep this updater's latest operation may all commit in between, when no row is shared between updaters. |
| `SplitUpdate.StaleSelectionRevives` | datastore/sqlite/update_vulnerabilities.go:118-192 | When no row is shared between updaters and a full update of the same updater withdraws a row in between, a delta that had selected it publishes it again if and only if its name is neither in the batch nor deleted or the batch has its digest; in one piece it would not be carried. |
| `Scenarios.ReusedIdNamesAnotherRow` | datastore/sqlite/update_vulnerabilities.go:118-192 | A run from the empty store, for any two records: one updater publishes the first and withdraws it, its row is collected, another updater's record takes the row's id, and a delta that selected before all that publishes the other updater's record. |
| `GarbageCollection.CountsAfterGc` | datastore/sqlite/gc.go:129-136 | After a collection each updater has exactly the smaller of its previous count and `keep` operations. |
| `GarbageCollection.SecondGcChangesNothing` | datastore/sqlite/gc.go:21-62 | A second collection with the same count changes no table. |
| `GarbageCollection.CutByIsValid` | datastore/sqlite/gc.go:104 | Breaking date ties so that one chosen operation comes last gives a possible cut. |
| `CutProgress.CutIffListings` | datastore/sqlite/gc.go:101-137 | The possible cuts are exactly those that drop, for each updater, what some listing by descending date, equal dates in any order, has past the first `keep`. |
| `GarbageCollection.SurvivesEveryCutIff` | datastore/sqlite/gc.go:101-137 | An operation survives every possible cut if and only if fewer than `keep` other operations of its updater are dated no earlier. |
| `GarbageCollection.NoRivals` | datastore/sqlite/gc.go:104 | With dates that follow ids nothing rivals the newest operation. |
| `GarbageCollection.TieDropsNewest` | datastore/sqlite/gc.go:104-130 | Two updates dated in the same second: a cut to one may keep the older. |
| `SplitCollection.SplitDeletionSparesLatest` | datastore/sqlite/gc.go:21-35 | The references are selected in one statement and deleted in another: in any run, if the cut spared every latest operation and what commits in between deletes no latest operation, the deletion spares every operation that is latest by then. |
| `SplitCollection.NothingSpared` | datastore/sqlite/gc.go:21-35 | If the operations that an updater was to keep are deleted in between, it is left with none. |
| `SplitCollection.CollectionInterleaves` | datastore/sqlite/gc.go:27-59 | A collection whose statements others interleave with is part of a run like any other: its deletion is a deletion by references, and any cleanup of updaters that have operations is a collection that stopped early. |
| `CutProgress.ListByDate` | datastore/sqlite/gc.go:104 | Lists an updater's operations by descending date, ties in any order. |
| `CutProgress.EligibleUpdateOps` | datastore/sqlite/gc.go:101-137 | Collects the references of exactly the operations past the cut, once each. |
| `MatcherStore.Store.InsertOperation` | datastore/sqlite/update_vulnerabilities.go:63-64 | Fails on a used reference; otherwise takes the next AUTOINCREMENT id, never used before. |
| `MatcherStore.Store.GetMetadata` | datastore/sqlite/update_vulnerabilities.go:275-303 | Returns the id under which the text is interned, adding at most one row. |
| `MatcherStore.Store.InsertVuln` | datastore/sqlite/update_vulnerabilities.go:91-112 | Adds a row under an unused id unless the digest is there, and yields the id the digest then leads to. |
| `MatcherStore.Store.InsertEnrichment` | datastore/sqlite/update_enrichments.go:45-72 | The same for enrichment rows. |
| `MatcherStore.Store.SelectExisting` | datastore/sqlite/update_vulnerabilities.go:136-152 | Fills the map from names to the ids of the selected rows, whatever the row order. |
| `MatcherStore.Store.DropNames` | datastore/sqlite/update_vulnerabilities.go:154-169 | Both callback passes leave exactly the names that are neither in the batch nor deleted. |
| `MatcherStore.Store.AssocExisting` | datastore/sqlite/update_vulnerabilities.go:181-192 | Associates exactly the ids left in the map with the new operation, in any order of names; fails only if there is one to associate. |
| `MatcherStore.Store.WriteRecord` | datastore/sqlite/update_vulnerabilities.go:202-255 | One callback: an inverted record changes nothing, a package-less one interns its two texts and touches no row or association, a full one leaves the operation associated with the row of its digest. |
| `MatcherStore.Store.Begin` | datastore/sqlite/update_vulnerabilities.go:118-192 | Selection, new operation and carried associations; succeeds exactly when each of these statements does and the reference is new. |
| `MatcherStore.Store.WriteRecords` | datastore/sqlite/update_vulnerabilities.go:197-256 | The callback loop stops at the first failing item and otherwise writes the whole batch. |
| `MatcherStore.Store.UpdateVulnerabilities` | datastore/sqlite/update_vulnerabilities.go:61-273 | Succeeds exactly when the reference is new, the transaction begins, selects, inserts and carries, every item is a record that is inverted or whose statements succeed, and the commit succeeds; then the tables take the update step, otherwise they are unchanged. `Records.UpdatePublishes` says what that publishes of the records. |
| `MatcherStore.Store.UpdateEnrichments` | datastore/sqlite/update_enrichments.go:35-140 | The same for enrichments, whose new rows carry the caller's updater; when only the ANALYZE after the commit fails, the update has taken effect although the caller gets an error. |
| `MatcherStore.Store.DeleteUpdateOperations` | datastore/sqlite/update_operations.go:31-48 | Deletes exactly the operations with the given references, with their associations, and returns how many. |
| `MatcherStore.Store.Cleanup` | datastore/sqlite/gc.go:141-200 | Deletes exactly the unreferenced rows of one updater and kind. |
| `MatcherStore.Store.CleanupAll` | datastore/sqlite/gc.go:36-59 | Run to its end, leaves no unreferenced row of any registered updater; stopped early, has only removed such rows. |
| `MatcherStore.Store.GC` | datastore/sqlite/gc.go:21-62 | Takes a collection step, complete when it succeeds, and then reports 0 remaining; when only the deletion fails, reports the number of operations past the cut; any other failure keeps what was done before it. |
| `Records.StoredIff` | datastore/sqlite/update_vulnerabilities.go:227-249 | The entry stored of a record is the one that, read back column by column in the order of Get's select list, shows the record's own name, description, date, links, severities, package, distribution, repository, fixed-in version, architecture operation and updater, under the digest of its bytes and with its range. |
| `Records.UpdatePublishes` | datastore/sqlite/update_vulnerabilities.go:154-256 | On the records handed in: when no digest clashes, an update publishes exactly the entries that stay (written for this updater, in some latest operation, with a name that no record and no deletion carries) and each record that is not inverted and has a package name, as it is. |
| `Records.EvictedByName` | datastore/sqlite/update_vulnerabilities.go:154-169 | Whatever clashes: after a delta, an entry whose name some record handed in or some deletion carries is published only if a record with its digest was handed in. |
| `Records.VulnOrigin` | datastore/sqlite/update_vulnerabilities.go:239-249 | Every vulnerability row of every run was written for a record that some update handed in. |
| `Records.EnrichOrigin` | datastore/sqlite/update_enrichments.go:99-102 | Every enrichment row of every run was written for a record that some update handed in, and carries the name of the updater that made the call. |
| `Records.ListedIsHanded` | datastore/sqlite/get.go:49-107 | What Get lists is, field by field, a record that some update of the run handed in. |
| `Records.VulnerabilityCollected` | datastore/sqlite/gc.go:141-170 | After a complete collection no vulnerability row is left whose digest only records of one updater had and no operation publishes, if that updater still has a vulnerability operation. |
| `Records.EnrichmentCollected` | datastore/sqlite/gc.go:172-201 | The same for enrichments, by the updater that handed them in. |
| `Query.BuildGetQuery` | datastore/sqlite/query_builder.go:14-89 | No query for an empty package name or an unknown matcher; otherwise each distinct matcher once. |
| `Selection.ListedIff` | datastore/sqlite/query_builder.go:19-88 | What a successful Get lists under a package id, on fields, when no version has a negative component and version_in is called last: the visible entries for which some record with that id has a name, has the row's (name, kind) as its own or its source's, agrees with the row's field for every matcher, and, with version filtering, has a version in the range of the record the row was made from. |
| `Selection.ListedBySource` | datastore/sqlite/query_builder.go:29-40 | A record whose source package is the row's is listed the row whatever its own name and kind. |
| `Selection.OneFieldDecides` | datastore/sqlite/query_builder.go:42-79 | A record that copies the row but for the field of one matcher is listed the row exactly when it is not asked to match by that one. |
| `Query.VersionTestMeaning` | datastore/sqlite/query_builder.go:81-88 | On stored columns the version condition is a lexicographic test of the record's range, false when kinds differ, and fails exactly when a component involved is negative. |
| `Query.ScanRows` | datastore/sqlite/get.go:49-108 | One record's rows, in the order they are visited: those up to the first failing version test are delivered, and exactly the new entries among them are added; fails exactly when one of these cannot be read or the driver reports the failing test. |
| `Query.Get` | datastore/sqlite/get.go:21-113 | Succeeds exactly when the transaction begins and commits, every query that can be built runs, no failing version test is reported and every row delivered can be read; then lists, once each, exactly the entries of the delivered rows. A query may test any rows of vuln, current or not. `Selection.ListedIff` says on fields what is selected. |
| `Answers.AnswerIsSound` | datastore/sqlite/get.go:49-108 | Every entry listed is visible and selected by a record with that package id, none twice. |
| `RowScan.ScanCompleteIff` | datastore/sqlite/get.go:83-108 | Every order of visiting gives a query all its rows, or an error, if and only if no row that may be visited fails its test or no two rows pass (no row, when the driver does not step once as it runs a query). |
| `Answers.GetCompleteIff` | datastore/sqlite/get.go:49-108 | For drivers that step and that do not, and for engines that call version_in last or at any time: every successful call delivers every selected row if and only if no call can succeed or each selected entry is selected for its package by a record that cannot miss it, that is, no row of vuln, current or not, fails the record's test or, with a driver that steps, no other row passes. |
| `Answers.EnginesAgreeIff` | datastore/sqlite/get.go:49-108 | And exactly then do any two successful calls, to records and matchers permuted or repeated, deliver the same entries. |
| `Scenarios.FailingTestHidesRow` | datastore/sqlite/get.go:83-108 | A run from the empty store after which three rows are visited: all current rows pass, the second row is held by an older operation only and fails, and the third is not delivered, without an error; a matcher that rejects the second brings the third back. |
| `Answers.SameQuestionSameAnswer` | datastore/sqlite/get.go:29-112 | Of two answers that no failing version test cut short, to records and matchers that are permuted or repeated, the listed entries are the same. |
| `Answers.MoreMatchersFewerEntries` | datastore/sqlite/query_builder.go:42-79 | Adding a matcher adds no entry to an answer that no failing version test cut short. |
| `Answers.MatcherShrinksScanIff` | datastore/sqlite/query_builder.go:42-88 | However the query is run, an added matcher delivers no row that was not delivered before, if and only if it holds of every row of vuln whose version test fails, or then no row is selected at all. |
| `Query.VisibleIsPublished` | datastore/sqlite/query_builder.go:118-123 | The rows Get can see are exactly what the updaters publish. |
| `VersionRange.WriteParts` | datastore/sqlite/update_vulnerabilities.go:359-367 | The buffer loop writes the printed components, joined by commas, in braces. |
| `VersionRange.RangeFmt` | datastore/sqlite/update_vulnerabilities.go:348-381 | Two braced versions and the kind, or empty braces and no kind when there is no range or its kinds differ. |
| `VersionRange.FromString` | datastore/sqlite/matcher_store.go:74-85 | Fills the receiver in place with the numbers before the first part that is no 32-bit integer or does not fit, leaves the rest at zero, and says which of these ended it. |
| `VersionRange.PrintParse` | datastore/sqlite/matcher_store.go:74-85 | Parsing what was printed gives back every ten-part 32-bit version. |
| `VersionRange.RangeRoundTrip` | datastore/sqlite/update_vulnerabilities.go:245 | The stored column splits into the two versions it was made from, negatives and extremes included. |
| `VersionRange.NoRangeColumn` | datastore/sqlite/update_vulnerabilities.go:349-352 | The column of a missing or mixed range is one that no version test accepts. |
| `VersionRange.DottedSegments` | datastore/sqlite/matcher_store.go:66-72 | A printed version reads back as its segments exactly when no component is negative. |
| `VersionRange.SegmentsMeaning` | datastore/sqlite/matcher_store.go:107-110 | On digits and dots, a version has one segment per dotted part, each of one digit or more, with its value. |
| `VersionRange.CompareIsLexicographic` | datastore/sqlite/matcher_store.go:123-130 | Segment-wise comparison is lexicographic order. |
| `VersionRange.VersionInMeaning` | datastore/sqlite/matcher_store.go:92-131 | The test holds exactly when lower <= version < upper lexicographically, and errs exactly on negative components. |
| `VersionRange.VersionInPanicsIff` | datastore/sqlite/matcher_store.go:74-115 | The test indexes past its array, instead of returning an error, if and only if the version parses, the column has two bounds and one of them has an eleventh number: the lower, or the upper when the lower parses. |
| `VersionRange.TrimMeaning` | datastore/sqlite/matcher_store.go:74-76 | What is parsed is the text without the braces at its two ends, and only these are taken off. |
| `Text.ParseInverts` | datastore/sqlite/matcher_store.go:78-82 | Parsing a printed 32-bit integer gives it back, extremes included. |
| `Text.ParseMeaning` | datastore/sqlite/matcher_store.go:78-82 | The texts that parse as 32-bit integers: an optional sign and at least one digit, in range. |
| `Advisory.VulnHashCollides` | datastore/sqlite/update_vulnerabilities.go:308-346 | Two pairs of records: one differs in where the name ends, one only in the updater; each pair feeds the same bytes to the hash. |
| `Advisory.OneFieldShows` | datastore/sqlite/update_vulnerabilities.go:308-346 | Two records that differ in exactly one of the 26 fields written have different digests. |
| `Advisory.EnrichmentStored` | datastore/sqlite/update_enrichments.go:99-102 | The stored data are the record's, and tags without commas read back as its multiset of tags, in order. |
| `Advisory.DigestIdentifiesNothing` | datastore/sqlite/update_vulnerabilities.go:308-346 | No storable record is identified by its digest: another record of the same updater has it and is stored differently. |
| `Advisory.EnrichBytesCanonical` | datastore/sqlite/update_enrichments.go:142-151 | Without NUL bytes, the bytes hashed determine the multiset of tags and the data, and are determined by them. |
| `Advisory.EnrichBytesIdentifyIff` | datastore/sqlite/update_enrichments.go:142-151 | The bytes hashed identify an enrichment among all others if and only if it has no tags and no NUL byte in its data. |
| `Advisory.EnrichBytesCollide` | datastore/sqlite/update_enrichments.go:142-151 | A NUL byte in the data lets an untagged record hash like a tagged one. |
| `LockSource.NoLostWakeup` | cmd/cvetool/tmp_locallock.go:29-38 | In every reachable state, a goroutine asleep and not notified for a key means the key is held, or its deleter is about to broadcast. |
| `LockSource.WokenLooksAgain` | cmd/cvetool/tmp_locallock.go:57-65 | In every run, whoever sleeps when a broadcast comes, whatever its key, is awake until it takes the mutex to look its key up again. |
| `LockSource.MutualExclusion` | cmd/cvetool/tmp_locallock.go:29-50 | When no releasing cancel function is called twice, the held keys are exactly the keys with a live grant, one each. |
| `LockSource.FailedTryNeverDeletes` | cmd/cvetool/tmp_locallock.go:44-47 | In every run, no call of the cancel function of a failed TryLock ever comes to delete a key, however often it is called. |
| `LockSource.NeverStuck` | cmd/cvetool/tmp_locallock.go:29-65 | Either some goroutine inside a call can step, or all of them sleep for keys whose grants have not been cancelled. |
| `LockSource.RepeatedCancelHarmlessIff` | cmd/cvetool/tmp_locallock.go:57-65 | Calling a cancel function again keeps ownership intact if and only if nobody holds the key by then. |
| `LockSource.OwnershipIff` | cmd/cvetool/tmp_locallock.go:29-65 | Over every run, whatever is called how often: the held keys are the keys of the live grants, one each, in every state, if and only if no cancel function that was called before deletes a key that somebody holds. |
| `LockSource.RepeatedCancelDoubleGrant` | cmd/cvetool/tmp_locallock.go:40-65 | After a harmful repeated call the next TryLock is granted a key that is granted already. |
| `LockSource.DoubleGrantReachable` | cmd/cvetool/tmp_locallock.go:40-65 | From the initial state: a run in which a repeated cancel function leaves two goroutines with a live grant of one key. |
| `LockSource.KeyChangesHands` | cmd/cvetool/tmp_locallock.go:29-65 | A Lock of a held key waits, is woken when the key is given up, and takes it: the run, step by step, and the state it ends in. |
| `LockSource.RefusedRun` | cmd/cvetool/tmp_locallock.go:40-47 | A TryLock of a held key hands out a cancel function that releases nothing and leaves the key held. |
| `LockSource.LocalLockSource.Lock` | cmd/cvetool/tmp_locallock.go:29-38 | From taking the mutex to giving it up: waits exactly when the key is held, and makes exactly the steps of the machine. |
| `LockSource.LocalLockSource.TryLock` | cmd/cvetool/tmp_locallock.go:40-50 | Never waits; the returned function releases exactly when the key was taken. |
| `LockSource.LocalLockSource.Cancel` | cmd/cvetool/tmp_locallock.go:57-65 | Deletes the key and wakes all waiters, as the machine's steps do. |
| `FetchArena.RealizeExclusiveIff` | cmd/cvetool/fetcher.go:68-79 | Realize keeps ownership exclusive if and only if it is asked for no layer twice and each one is still pending or owned by nobody. |
| `FetchArena.OtherStepsKeepExclusive` | cmd/cvetool/fetcher.go:41-92 | Every other step keeps ownership exclusive, after any history. |
| `FetchArena.Conservation` | cmd/cvetool/fetcher.go:28-92 | A step loses no resource and adds none but the layers it realizes. |
| `FetchArena.OwnershipIsExclusive` | cmd/cvetool/fetcher.go:28-92 | In every state of every interleaving in which each layer is realized at most once and not after the arena's Close, no layer or reader set is in two places: pending, one realizer, one Close call, or closed. |
| `FetchArena.PresentIff` | cmd/cvetool/fetcher.go:28-34 | And each is in some place from the start, or from its realization, on. |
| `FetchArena.ClosedExactlyOnce` | cmd/cvetool/fetcher.go:41-92 | When all Close calls are over, the log of closes lists the readers and every layer given or asked for exactly once, and nothing else. |
| `FetchArena.NeverClosedTwice` | cmd/cvetool/fetcher.go:52-60 | Until then nothing has been closed twice and nothing still owned has been closed. |
| `FetchArena.DrainCloses` | cmd/cvetool/fetcher.go:87-91 | A closing loop run to its end closes what its call took, in order, and touches nothing else. |
| `FetchArena.LocalFetchArena.constructor` | cmd/cvetool/fetcher.go:28-34 | The pending set is the set of the given layers. |
| `FetchArena.LocalFetchArena.Close` | cmd/cvetool/fetcher.go:41-60 | Empties the arena and closes each pending layer once, in some order, then the readers; joins exactly the errors that came back; in any surroundings this is the machine's event followed by its closing loop. |
| `FetchArena.Realizer.Realize` | cmd/cvetool/fetcher.go:68-79 | Moves the layers from the arena's pending set to the realizer, as the machine's step does in any surroundings. |
| `FetchArena.Realizer.Close` | cmd/cvetool/fetcher.go:81-92 | Swaps the layers out, closes each of them in order and joins the errors; the machine's event followed by its closing loop. |
| `FetchArena.CloseLayers` | cmd/cvetool/fetcher.go:87-90 | One Close call and one answer per layer, in order. |
| `Errors.JoinNilIff` | cmd/cvetool/fetcher.go:91 | A joined error is nil exactly when everything joined is. |
| `TrackingArena.EveryCloseAgrees` | cmd/cvetool/fetcher.go:110-118 | Any two calls of Close at any two moments report the same error, and the wrapped arena has been closed exactly once by then. |
| `TrackingArena.CloseReports` | cmd/cvetool/fetcher.go:110-118 | What is reported is the join of the errors recorded when the first Close stored its result and the wrapped arena's error. |
| `TrackingArena.ReportCompleteIff` | cmd/cvetool/fetcher.go:112-132 | No realizer error is missing from the report if and only if none was still unrecorded at that moment and none came later. |
| `TrackingArena.RealizersFirst` | cmd/cvetool/fetcher.go:94-133 | If every realizer's Close is over before the first arena Close, every caller is told exactly the multiset of realizer errors and the wrapped arena's. |
| `TrackingArena.StoredNilIff` | cmd/cvetool/fetcher.go:115 | The report is nil exactly when nothing was recorded and the arena closed cleanly, and otherwise lists precisely these errors. |
| `TrackingArena.NeverStuck` | cmd/cvetool/fetcher.go:111-117 | No caller of Close is blocked for good. |
| `TrackingArena.TrackingFetchArena.Close` | cmd/cvetool/fetcher.go:110-118 | Only the first call closes the wrapped arena and stores; all return what is stored; the machine's events of one call reach the same state. |
| `TrackingArena.TrackingRealizer.Close` | cmd/cvetool/fetcher.go:125-133 | Returns the wrapped error and records it exactly when it is not nil, as the machine's events do. |
| `Nevra.EvrReprints` | catalog/nevra.go:58-76 | Every accepted version prints back to itself, or to itself with "0:" in front. |
| `Nevra.EvrRoundTripIff` | catalog/nevra.go:58-76 | Parsing gives back the three printed parts if and only if the epoch is non-empty and colon-free, the version non-empty, the release non-empty and dash-free. |
| `Nevra.EvrAcceptance` | catalog/nevra.go:58-76 | The accepted language, both directions. |
| `Nevra.EvrConfusesOnlyZeroEpoch` | catalog/nevra.go:68-75 | Two accepted strings parse alike only if equal or different by a leading "0:". |
| `Nevra.PackageAcceptance` | catalog/nevra.go:21-38 | A package is accepted exactly when it has a name, an architecture and a version that parses. |
| `Nevra.PackageRefusal` | catalog/nevra.go:21-38 | A refused package is told the first thing that is wrong with it. |
| `Nevra.RowMeaning` | catalog/nevra.go:40-52 | A row is accepted exactly when it is five tab-free fields of which only the epoch may be empty; the result is these fields, an empty epoch read as 0. |
| `Nevra.RowRefusal` | catalog/nevra.go:40-52 | A refused row has another number of fields, or one of the four that are needed is empty. |
| `Nevra.ValidateIff` | catalog/nevra.go:78-86 | An identity is complete exactly when none of its five fields is empty. |
| `Nevra.KeyIdentifiesIff` | catalog/nevra.go:54-56 | The key identifies five fields among all others if and only if none of them contains a bar. |
| `Nevra.PackageMeetsRowIff` | catalog/nevra.go:21-56 | When one of the two has no bar in its fields, a package and a row get equal keys exactly when they are the same package. |
| `CatalogIndex.QueryDnf` | catalog/dnf.go:294-320 | Fails at the first unreadable row; otherwise one package per key, sorted by key, taken from the last row with that key. |
| `CatalogIndex.ValuesByKey` | catalog/dnf.go:314-317 | Lists every package of the map once, in any order. |
| `CatalogIndex.JsonWriter.AddRepository` | catalog/json.go:61-75 | Fails on an empty ID or at the first invalid CPE; otherwise the repository's list gains exactly the new CPEs, sorted and without repetitions. |
| `CatalogIndex.JsonWriter.AddPackage` | catalog/json.go:77-92 | Fails on invalid arguments without a change; otherwise files the match under the key unless it is there. |
| `CatalogIndex.CheckMapping` | catalog/generate.go:46-50 | Passes exactly when every repository is mapped to valid CPEs; otherwise names the first that is not and why. |
| `CatalogIndex.QueryAll` | catalog/generate.go:85-100 | Succeeds exactly when every repository lists readable rows, and gives their (repository, key) pairs in order; otherwise names the first that does not and why. |
| `Generate.AddRepositories` | catalog/generate.go:124-130 | Afterwards each repository asked for has exactly its mapped CPEs, sorted, once each. |
| `Generate.AddPackages` | catalog/generate.go:131-138 | Afterwards the index is exactly the relation that pairs and mapping compose to. |
| `Generate.PackageText` | catalog/generate.go:107-111 | Builds the text the package fingerprint is taken of. |
| `Generate.Generate` | catalog/generate.go:36-138 | Succeeds exactly when there is a repository and each has an ID, valid CPEs and readable rows; a failure names the first repository with an invalid mapping, else the first with unreadable rows, else an empty ID. `GenerableIff` says on lines what readable is. |
| `Generate.LookupIsExact` | catalog/json.go:107-116 | A lookup is the strictly sorted list of exactly the (repository, CPE) pairs such that some row of the repository has the package's key and the mapping gives the CPE. |
| `Generate.LookupFindsThePackage` | catalog/json.go:107-116 | For a package without bars the row found is the package's own, on a line that holds more than white space. |
| `Generate.LookupFindsTheLine` | catalog/dnf.go:301-309 | A package without bars and not of white space alone is found if and only if the repository was asked for, some line printed for it parses as the package, and the mapping gives it the CPE. |
| `Generate.GenerableIff` | catalog/dnf.go:301-309 | A repository is accepted if and only if it has an ID, the mapping gives it CPEs and only valid ones, and every line printed for it that holds anything but white space parses. |
| `CatalogIndex.LookupInOrder` | catalog/json.go:107-116 | Lookups are listed by repository and, within one, by CPE. |
| `Order.StrLeIsLexicographic` | catalog/json.go:109-114 | The order of strings is lexicographic, a prefix first. |
| `Generate.IndexIgnoresOrder` | catalog/generate.go:89-138 | Order and repetition of IDs, rows and CPEs show in no lookup and no repository list. |
| `EnrichReport.IndexReport.Enrich` | catalog/enrich.go:22-90 | Fails exactly when some package's lookup fails or gives an invalid CPE, whatever the order, and then has enriched the packages before that one and not that one; otherwise enriches all, and the counts are exact. Either way every repository added tells, field by field, a match of some package. |
| `EnrichReport.IndexReport.EnrichOne` | catalog/enrich.go:34-87 | One package: all its matches are checked before anything changes. |
| `EnrichReport.IndexReport.EnrichPackage` | catalog/enrich.go:65-87 | All environments of a package gain what their matches ask for; the growth of the repositories is counted. |
| `EnrichReport.IndexReport.EnrichMatch` | catalog/enrich.go:69-85 | One match against one environment. |
| `EnrichReport.CheckMatches` | catalog/enrich.go:54-63 | Passes exactly when every match has a valid CPE; otherwise names the first invalid one. |
| `EnrichReport.GoodIff` | catalog/enrich.go:36-63 | A package is passed exactly when it does not parse, or its lookup succeeds and every CPE found unbinds; its matches are those found, or none. |
| `EnrichReport.OrderDoesNotMatter` | catalog/enrich.go:34-88 | Any two orders of visiting the packages reach the same report when synthetic IDs are injective. |
| `EnrichReport.Idempotent` | catalog/enrich.go:65-86 | Enriching again changes nothing. |
| `EnrichReport.OnlyAdds` | catalog/enrich.go:74-85 | Every package, environment entry, repository ID and repository stays as it was. |
| `EnrichReport.GainedIdsResolve` | catalog/enrich.go:73-85 | Every ID an environment gains names a repository of the report. |
| `EnrichReport.AddedTellsAMatch` | catalog/enrich.go:74-81 | Every repository added under an ID has that ID, the fixed key, the repository ID of some match of a package that was dealt with as its URI, and the unbound form of its CPE. |
| `EnrichReport.EnvCovers` | catalog/enrich.go:69-86 | Afterwards an environment lists, for each match, its repository or its synthetic ID. |
| `EnrichReport.SyntheticIdentifiesIff` | catalog/enrich.go:92-95 | A synthetic ID names one (repository, CPE) pair among all if and only if neither part contains a NUL byte. |
| `EnrichReport.SyntheticParts` | catalog/enrich.go:92-95 | A synthetic ID is the fixed prefix and the digest of a text that is, up to its first NUL byte, the repository ID and, after it, the CPE. |
| `Pipeline.EnrichmentIsExact` | catalog/enrich.go:34-88 | From rows to report: each environment lists, for every pair that rows and mapping relate to its package, the repository or its synthetic ID, and gains nothing else. |
| `Pipeline.GainedRepository` | catalog/enrich.go:65-86 | Each ID gained, unless the report had it before, resolves to a repository whose URI is a repository with a row for the package and whose CPE is the unbound form of one that the mapping gives it. |
| `ParseArchive.ParseLocalArchive` | image/manifest.go:184-338 | Succeeds exactly when the manifest can be read, the file rewinds and the layers assemble; then every layer carries its descriptor's digest and comes from the only entry with its blob's path; on any failure everything opened has been closed exactly once, every temporary file opened is unlinked but the one whose unpacking failed, and the reason is that of the first entry refused or the first layer missing. |
| `ParseArchive.ClosingAfterSuccess` | image/manifest.go:157-174 | After a success, closing the layers and the returned readers closes everything exactly once. |
| `ParseArchive.Assemble` | image/manifest.go:252-335 | The two loops and the final check, with the exact condition for success. |
| `ParseArchive.ProcessEntry` | image/manifest.go:271-329 | One entry passes exactly when every layer accepts it, repeated descriptors included. |
| `ParseArchive.TryLayer` | image/manifest.go:272-328 | One layer against one entry: the duplicate check, the extraction and the slot it fills; no slot is filled twice. |
| `ParseArchive.FindManifest` | image/manifest.go:212-218 | The digest of the i-th descriptor such that it is an image manifest and no earlier one is, or the empty string when none is. |
| `ParseArchive.ImageIff` | image/manifest.go:212-245 | The image read is the one whose manifest lies at blobs/algorithm/hex for the digest of the first image manifest of the index. |
| `LocalArchive.BlobPathParts` | image/manifest.go:228-230 | A blob path splits at its slashes into "blobs", the algorithm and the hex. |
| `LocalArchive.MediaTypes` | image/manifest.go:291-318 | When unpacking and initialising succeed, a layer is accepted exactly for the four OCI and Docker tar types, and unpacked exactly for the two that end in gzip. |
| `LocalArchive.ExtractLayer` | image/manifest.go:289-327 | Fills the slot exactly when every step succeeds; a failed unpacking leaves its temporary file linked. |
| `LocalArchive.Unpack` | image/manifest.go:293-312 | For every resource, how often the calls open, close and unlink it: the gzip reader is closed as often as it was opened on every path, the temporary file is left open to the readers, and it is unlinked exactly when the unpacking succeeds. |
| `LocalArchive.CloseManifestResources` | image/manifest.go:161-174 | Closes the non-nil layers in order and then the readers. |
| `LocalArchive.ClosingBalances` | image/manifest.go:184-191 | At any point of the assembly, the deferred cleanup closes whatever is open exactly once. |
| `Fingerprints.MappingInput` | catalog/repository_mapping.go:150-164 | The array hashed is sorted by ID, with sorted CPE lists, and holds each ID with its own CPEs as often as it was given. |
| `Fingerprints.MappingInputIff` | catalog/repository_mapping.go:150-164 | Any two such arrays are equal exactly when IDs and CPEs are the same up to order. |
| `Fingerprints.PackageInputIff` | catalog/generate.go:101-111 | Two catalogs have the same package text exactly when they list the same (repository, key) pairs equally often. |
| `Fingerprints.PackageInputIgnoresOrder` | catalog/generate.go:101-111 | Permuting IDs, and permuting or repeating rows, leaves the package text alone. |
| `Fingerprints.RepeatedIdShowsIff` | catalog/generate.go:89-111 | Repeating an ID changes the package text if and only if its repository has a row; every lookup stays the same. |
| `Fingerprints.TextDecodes` | catalog/generate.go:156-162 | With IDs free of NUL and newline and keys free of newline, the text can be read back. |

## Left out

- SQL text, drivers, the migrations runner, VACUUM, logging, throttling: only the meaning of each statement is modelled; a failing statement is an input.
- MatcherStore.Store.UpdateVulnerabilities: runs without other connections, so its selection and its transaction see the same tables; commits in between are the subject of `SplitUpdate`, which is a relation and not a method.
- Iterator errors in the first two passes of a delta: only slices are passed there, which have none.
- MD5, SHA-256, UUIDs, base64, JSON encoding, CPE unbinding, gzip and tar decoding: symbolic digests, abstract functions, or given outcomes.
- Time and CPE columns: a time is the pair of its two renderings, a CPE the string it is stored as; reading them back into structures is not modelled.
- `GetEnrichment`: several tags are stored as one comma-joined element, so a lookup by tag is only meaningful for records with one tag.
- Multi-byte white space and invalid UTF-8: strings are sequences of bytes; a line is blank when it holds ASCII white space only, and the scanner's line length limit is an outcome of the query.
- Nil arguments of `EnrichIndexReport`, and environments shared between packages: the report is a value of maps, so aliasing between environments cannot be expressed.
- Generate.Generate: checks of its options, the choice of a version-specific mapping for a target release, DNF architecture handling and failures to write or rename the output files are not outcomes; the mapping is the one selected, the rows are the ones queried.
- The order of sort.Slice among equal elements: equal elements agree in everything that is read afterwards.
- Errors returned by the deferred cleanup of `parseLocalArchive`: they are joined to an error that is there already.
- Registry client, HTTP, DNF execution, target roots, temporary file names, CLI commands and report output: plumbing around the modelled parts.
- The indexer store, updater status, architecture and os-release resolution, repository selection: only easy members.
- FetchArena.LocalFetchArena.Close: one call of the class runs without interruption; the interleavings of its closing loop with other callers are runs of the machine in the same module.
- Answers.SameQuestionSameAnswer: is about answers that are complete; `EnginesAgreeIff` says when any two are alike.
- Answers.MoreMatchersFewerEntries: needs a complete answer without the matcher; `MatcherShrinksScanIff` says when that does not matter.
- GarbageCollection.CutByIsValid: covers tie-breakings with one chosen operation last; `CutIffListings` covers all of them.
- Nevra.PackageMeetsRowIff: asks for bar-free fields on one side; `KeyIdentifiesIff` says when a key is ambiguous without that.
- Fingerprints.PackageInputIff: asks for IDs without NUL and newline and keys without newline, the characters the text itself is built with.
- LockSource.NeverStuck: says that some step is always possible, not that every waiter is eventually served; the condition variable gives no such guarantee.
- Cancellation of the parent context: a waiting Lock ignores it by design.
