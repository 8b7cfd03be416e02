# s3warm, modelled and proved in Dafny

s3warm is an S3 gateway in front of a Swarm node. It keeps a metadata index (buckets, object versions, multipart uploads), stores bytes on the node by reference, publishes each bucket as a chain of commits, and can rebuild a bucket's index from any commit. This project models the parts where the difficulty lies and proves what they promise.

`dafny verify dfyconfig.toml` checks the whole project.

## How the project is organised

| component | files | main results |
|---|---|---|
| byte order and prefix ranges | `ByteStrings`, `Rollup` | the prefix range of the SQL stores is the has-prefix test for all byte strings; a key is cut after the first delimiter behind the prefix, and roll-up is monotone because prefix intervals are contiguous |
| version index | `Objects`, `MemoryStore`, `SqlTable`, `StoreRefinement`, `SqlStore`, `StoreRuns` | the flagged-row store refines the sorted-stack store over every run; with stamps out of order, or for restored lists with repeated keys or delete markers, it provably does not |
| object listing | `Scanning`, `ObjectListing`, `MovingIndex` | each response is the first m items past the position; following resume tokens ends and yields the listing exactly once; while the index changes under the client nothing is returned twice and no key that stays is missed |
| version listing | `VersionPaging`, `TiedVersions`, `MovingVersions` | paging by (key, version) markers yields every row, delete marker and common prefix exactly once, in order; exactly which rows a page boundary loses when stamps are equal; exactly when resuming over a changed index is right, and that every version which stays is then shown exactly once |
| versioning | `Versioning`, `VersioningRaces` | exactly which versions each request adds and takes away in each mode; no non-null version is lost once versioning has been enabled, except by naming it or by a restore; with handlers that read the mode earlier this holds exactly when no plain delete from before is in flight |
| conditional writes | `ConditionalWrites`, `SqlConditions` | create-only and If-Match promises over all interleavings, and exactly when a second write under the same condition is admitted; on the table, exactly when it may be |
| commits | `Hex`, `Manifest`, `ManifestForks`, `CommitRoundTrip` | every object of a commit shows in its manifest by its reference or a descriptor of it; nothing key-bearing is published unsealed; commit then restore gives back the listing |
| commit protocol | `CommitProtocol`, `CommitAnomalies`, `Committer` | the head matches the index when nothing is outstanding and the build that set it was not overlapped; the parent chain is whole; the premises are needed, and every overlap that read something else leaves a stale head |
| ACT epochs and encryption boundary | `Gateway`, `GatewaySafety`, `GatewayContents`, `GatewayAnomalies` | what each request writes is what was sent or read for it; every stored reference is read with the history it was written under, and is key-bearing iff marked encrypted, with every read of a handler a step of its own, until a bucket is re-created over unfitting leftovers; every such re-creation goes wrong |
| composite objects | `Numbers`, `Text`, `Ranges`, `Multipart` | stitched ranges are slices of the concatenation; completion content, size and ETag; retries |
| aws-chunked bodies | `ChunkedFormat`, `ChunkedReader` | the reader delivers the decoding under every schedule; signed end of stream iff the whole chain verifies, unsigned iff the framing is whole |
| canonical query | `Escaping`, `CanonicalQuery` | the canonical string determines, and is determined by, the multiset of pairs, in byte order of their encodings |
| stamp autopilot | `Autopilot` | repeated passes come to rest exactly under a stated condition, with at most one top-up, as long as the times fit 64 bits |

Code that updates state in place (stores, committer, chunked reader, the scan, stitch and validation loops) is written as classes and methods with loops, each proved against a specification function; the lemmas are about those functions. Interleaved protocols are state machines: a run is a sequence of states and steps, and the theorems hold for every run and every position in it.

## Modelling choices

- Strings are sequences of characters; keys are byte strings (characters below 256), compared byte by byte as Go compares strings.
- SHA-256, HMAC, MD5 and age encryption are function-valued parameters. What is assumed of them is a premise of the lemma that needs it: hashes are 32 bytes, decryption with the matching identity undoes encryption, ciphertext is not empty, MACs are lowercase hex, the commit document and its manifest do not collide.
- A mantaray manifest is a finite map from path to entry whose entry width is fixed by its first entry. The node is a content-addressed map.
- SQL answers are relations: a `SELECT` may return any rows, in any order, that its WHERE, ORDER BY and LIMIT clauses allow. That the answer is unique is proved.
- Clocks, minted ids, page sizes, short reads and scheduling are parameters or nondeterministic choices.
- On the node, randomly drawn ACT references do not collide with references already in use, and an upload under a known history stays under that history, so the gateway's own tracking of a changed history during a PUT never fires.
- In the gateway machine a handler's reads of a bucket, of a source bucket, of a source object and of each page of a commit are separate steps. Only an upload's record, which never changes, is read together with the bucket that follows it.

## Where the code does less than its documentation suggests

- The SQL stores need the stamp of a write to exceed every stamp of its key. `StoreRefinement.PutRefinesOnlyIf` proves this exact: otherwise two rows of the key are flagged latest.
- The in-memory `ListVersions` treats a limit of 0 as unlimited, the SQL stores as nothing (`StoreRuns.ZeroLimitDiffers`). The gateway never asks for 0 rows.
- A write that is accepted but stamped before a version it leaves stays covered by it (`ConditionalWrites.WriteShows`). After a create-only write a second one is admitted next exactly when the first lies under a later-stamped delete marker (`ConditionalWrites.CreateAgainIff`), and after an If-Match write exactly when a later-stamped version with the same tag covers it (`ConditionalWrites.UpdateAgainIff`); both happen (`CreateTwiceWhenStampsDisagree`, `UpdateTwiceWhenStampsDisagree`).
- Deleting a bucket leaves its open uploads, requests in flight and commit roots behind. Re-creating it under the other ACT setting brings them back: an upload begun in an ACT bucket and completed in the re-created plain one gives an object that cannot be read and whose key-bearing reference is not marked encrypted (`GatewayAnomalies.RecreationBreaks`); a change of grants that is recorded late turns the re-created plain bucket into an ACT one that holds plain content (`GatewayAnomalies.GrantBreaks`). The results hold exactly as long as what is left over fits (`GatewaySafety.CreateKeepsIff`, `GatewayAnomalies.UnfitGoesWrong`).
- With equal stamps of one key, version paging loses exactly the rows tied with the last one of a page (`TiedVersions.ResumeLosesTies`). When the version a marker names is deleted between pages, the older versions of that key are missed (`MovingVersions.DeletedMarkerMisses`); when it is overwritten under its own id, as the null version is, versions already returned come again (`MovingVersions.RestampedMarkerRepeats`). Resuming is right exactly when the marker's stamp now separates the versions of its key as its old stamp did (`MovingVersions.ResumesRightIff`).
- With two rows flagged latest, a conditional write on the SQL stores checks whichever the row query returns (`SqlConditions.MayAdmitIff`): after a create-only write a second one may be admitted exactly when a delete marker carries the greatest stamp of the key.
- A plain DELETE that read the bucket before versioning was enabled removes all versions of its key when it lands afterwards (`VersioningRaces.LateDeleteRemoves`, `VersioningRaces.KeptIff`).
- Restoring a list with a repeated key or a delete marker, which only a hand-made commit can hold, leaves the two stores with different answers or is refused by SQL alone (`StoreRefinement.RestoreAgreesIff`).
- A commit that fails has already cleared the dirty mark and does not set it again (`CommitAnomalies.FailureLeavesStale`); a restore that overlaps a build is overwritten by that build's head (`CommitAnomalies.OverlapBreaks`), which stays wrong until the bucket is next written, committed or restored (`CommitAnomalies.OverlapLeavesStale`).
- A byte range with a number above 2^63-1, although satisfiable, is ignored and the whole object served (`Ranges.ParsePrinted`).
- A batch whose time to live exceeds 9,223,372,036 seconds looks expired, because the count of nanoseconds wraps around, and is topped up (`Autopilot.LongLivedIsToppedUp`).
- The autopilot never comes to rest on a mutable batch whose reported ratio stays above the threshold, or whose use exceeds what a 64-bit shift can express (`Autopilot.RestsIff`).
- A part-number request for an empty part leaves the range header alone (`Ranges.PreparePart`), so it does not serve that part's zero bytes.

## Model

| member | source | states |
|---|---|---|
| `ByteStrings.PrefixEnd` | internal/store/sqlite.go:899-911 | the incrementing loop returns a bound such that, for all byte strings, lying in the key range is the same as having the prefix |
| `ByteStrings.RangeIsPrefixTest` | internal/store/sqlite.go:718-737 | the SQL key range [prefix, prefixEnd) selects exactly the keys with that prefix, also for empty prefixes and prefixes of all 0xFF bytes |
| `ByteStrings.PastPrefix` | internal/api/list.go:16-31 | once the order has left a prefix, no later key or prefix of it falls back before it |
| `ByteStrings.LessMeaning` | internal/store/memory.go:354-376 | keys are ordered byte by byte: a smaller key is a proper prefix or has the smaller byte where the two first differ |
| `Objects.ConditionMeaning` | internal/store/store.go:35-50 | "*" asks for an object or for none, a tag for or against the object that carries it, a delete marker counts as absent, and both headers must hold |
| `MemoryStore.StableSortMeaning` | internal/store/memory.go:283-288 | the version sort is the stable one: newest first, a permutation, equal stamps keep their order |
| `MemoryStore.SortIgnoresFlags` | internal/store/memory.go:283-288 | the order and the new flags do not depend on the flags the versions came with |
| `MemoryStore.PutKeepsValid` | internal/store/memory.go:252-288 | every write leaves each stack non-empty, under its own key, newest first, with distinct version ids and only the first flagged |
| `MemoryStore.DeleteVersionKeepsValid` | internal/store/memory.go:331-352 | removing a version keeps all stacks well formed and drops a stack that becomes empty |
| `MemoryStore.RestoreMeaning` | internal/store/memory.go:229-250 | for any list, a restore leaves under each key all its objects, sorted newest first, and nothing else |
| `MemoryStore.RestoreOnePerKey` | internal/store/memory.go:229-250 | with one live object per key the restored index is well formed and holds exactly those objects |
| `MemoryStore.Memory.PutObject` | internal/store/memory.go:252-281 | accepts exactly when the condition holds of the current latest version, and then the stack is the write plus the surviving versions, sorted |
| `MemoryStore.Memory.DeleteOneVersion` | internal/store/memory.go:331-352 | returns the named version if present and removes exactly it |
| `MemoryStore.Memory.RestoreBucket` | internal/store/memory.go:229-250 | replaces the whole index and moves the head and the sequence number, for any object list; the result is well formed when keys are distinct |
| `MemoryStore.Memory.List` | internal/store/memory.go:354-376 | the newest live version of every key with the prefix past the position, ascending, cut to the limit |
| `MemoryStore.Memory.ListVersionRows` | internal/store/memory.go:378-417 | all versions past the (key, version) marker, keys ascending and newest first, cut to a positive limit |
| `SqlStore.Store.PutObject` | internal/store/sqlite.go:499-567 | demote, insert, promote: accepts exactly what the in-memory store accepts, and the table stands for the in-memory index afterwards iff an accepted write is stamped after the versions it leaves |
| `SqlStore.Store.DeleteOneVersion` | internal/store/sqlite.go:586-620 | returns and removes what the in-memory store would, and the table keeps standing for its index |
| `SqlStore.Store.DeleteAllVersions` | internal/store/sqlite.go:709-716 | the table keeps standing for the in-memory index without the key |
| `SqlStore.Store.RestoreBucket` | internal/store/sqlite.go:450-497 | a repeated row key rolls everything back; an accepted list leaves a table standing for the in-memory result iff it has one live object per key |
| `StoreRefinement.OneLatestRow` | internal/store/sqlite.go:499-567 | exactly one flagged row per present key, and it is the one with the maximal stamp |
| `StoreRefinement.GetObjectAgrees` | internal/store/sqlite.go:693-707 | the flagged-row query has exactly one possible answer: the top of the stack |
| `StoreRefinement.GetVersionAgrees` | internal/store/sqlite.go:569-584 | looking a version up by id gives the same answer in both forms |
| `StoreRefinement.PutRefines` | internal/store/sqlite.go:499-567 | a write whose stamp exceeds those of the key keeps table and stacks in correspondence |
| `StoreRefinement.PutRefinesOnlyIf` | internal/store/sqlite.go:499-567 | the table after a write represents some well-formed index if and only if the stamp exceeds all surviving stamps of the key |
| `StoreRefinement.TwoFlags` | internal/store/sqlite.go:540-560 | otherwise two different rows of the key end up flagged latest |
| `StoreRefinement.DeleteVersionRefines` | internal/store/sqlite.go:586-620 | deleting a version keeps the correspondence, whether or not it was the latest |
| `StoreRefinement.DeleteObjectRefines` | internal/store/sqlite.go:709-716 | deleting a key keeps the correspondence |
| `StoreRefinement.RestoreRefines` | internal/store/sqlite.go:450-497 | a restore of one live object per key succeeds and leaves corresponding states whatever was there before |
| `StoreRefinement.RestoreShows` | internal/store/sqlite.go:480-494 | any other list the SQL store accepts shows: a plain read of some key may answer differently from the in-memory store |
| `StoreRefinement.RestoreAgreesIff` | internal/store/sqlite.go:450-497 | the two stores agree after a restore iff the list has one object per key and no delete marker |
| `StoreRuns.ListObjectsAgrees` | internal/store/sqlite.go:718-753 | every answer the object query may give equals the in-memory listing, and the in-memory listing is such an answer |
| `StoreRuns.ListVersionsAgrees` | internal/store/sqlite.go:622-672 | the same for the version query with its marker sub-query |
| `StoreRuns.ZeroLimitDiffers` | internal/store/memory.go:408-414 | with limit 0 the two stores agree if and only if there is nothing to list |
| `StoreRuns.StepRefines` | internal/store/postgres.go:424-668 | each store operation gives equal answers and corresponding states |
| `StoreRuns.RunRefines` | internal/store/memory.go:252-417 | over every sequence of operations with increasing stamps and non-empty ids, all answers of the two stores are equal |
| `StoreRuns.FreshStoresAgree` | internal/store/memory.go:30-35 | in particular from two empty stores |
| `Rollup.ItemMonotone` | internal/api/list.go:44-63 | items (keys or rolled-up prefixes) come in the order of their keys |
| `Rollup.UnderPrefix` | internal/api/list.go:44-63 | every key under a common prefix rolls up to that same prefix |
| `Rollup.ItemIsOwnItem` | internal/api/list.go:16-31 | an item is its own item, so a resume token can be a rolled-up prefix |
| `Rollup.ItemMeaning` | internal/api/list.go:44-63 | a key rolls up iff the delimiter occurs behind the prefix, and then to the key cut after its first occurrence there |
| `ObjectListing.ScanObjects` | internal/api/list.go:32-77 | one response holds exactly the first maxKeys items past the position, split into keys and prefixes, is truncated iff more remain, and names the last item, for every inner batch size |
| `ObjectListing.PageShows` | internal/api/list.go:32-77 | in terms of keys and delimiters: a response shows as keys exactly the live keys under the prefix without a delimiter behind it, and as prefixes exactly the others cut after the first one, from the position to its last item |
| `ObjectListing.ScanPages` | internal/api/list.go:38-76 | the nested paging loops equal one pass over the whole remaining listing |
| `ObjectListing.ScanTracks` | internal/api/list.go:44-73 | after any number of objects the accumulator holds the first m distinct items seen |
| `ObjectListing.DistinctIsItems` | internal/api/list.go:16-31 | scanning keys past the position finds exactly the distinct items past it, also when the position lies inside a rolled-up prefix |
| `ObjectListing.ItemsRest` | internal/api/list.go:16-31 | resuming strictly after the m-th item leaves exactly the items after it |
| `ObjectListing.PageThenRest` | internal/api/list.go:32-77 | a page followed by the listing from its token is the listing, and the rest is shorter |
| `ObjectListing.ListEverything` | internal/api/list.go:82-193 | following tokens from the start until not truncated ends, and the pages concatenate to the sorted distinct items, each once |
| `ObjectListing.WholeListing` | internal/api/list.go:32-77 | the whole listing: every live key under the prefix is listed as itself iff no delimiter follows the prefix, else its common prefix is, and nothing else is listed; both ascending |
| `ObjectListing.NothingMissed` | internal/api/list.go:32-77 | an item is listed iff it is the item of some live key under the prefix |
| `MovingIndex.ResponseShows` | internal/api/list.go:32-77 | when every index read sees a different index, a response still shows exactly its first m distinct items, ascending and past the position |
| `MovingIndex.ResponseCovers` | internal/api/list.go:32-77 | a key live at every read is covered by the response or lies past its token |
| `MovingIndex.NothingTwice` | internal/api/list.go:16-31 | over a whole session of responses under any changes, the items shown are strictly ascending: none twice |
| `MovingIndex.StableKeysShown` | internal/api/list.go:16-31 | every key live throughout is shown, by itself or its rolled-up prefix |
| `MovingIndex.EveryStableKeyOnce` | internal/api/list.go:16-31 | from the start, the item of every key live throughout is shown exactly once |
| `MovingIndex.ShownWasLive` | internal/api/list.go:32-77 | every item shown belongs to a key that was live at some read |
| `VersionPaging.ListObjectVersions` | internal/api/list.go:240-305 | one response holds exactly the first maxKeys entries past the marker, is truncated iff more remain, and names the last entry |
| `VersionPaging.PageShowsPast` | internal/api/list.go:240-305 | in terms of versions and delimiters: a response shows exactly the versions past the marker and not past its own, rows and delete markers apart, and the other keys cut after their first delimiter |
| `VersionPaging.WholeListing` | internal/api/list.go:240-305 | from the start to the end every version under the prefix without a delimiter behind it is listed, and every other key by its common prefix |
| `VersionPaging.EncMeaning` | internal/api/list.go:262-275 | a prefix is shown as it is, or on request as clean text that percent-decodes to it |
| `VersionPaging.ListingMeaning` | internal/api/list.go:240-305 | the listing is in order (keys ascending, newest first) and contains exactly the entries that belong past the marker |
| `VersionPaging.BelongsAfter` | internal/api/list.go:240-305 | what belongs past an entry used as marker is what belonged past the old marker and comes after that entry |
| `VersionPaging.ListingRest` | internal/api/list.go:240-305 | resuming at the n-th entry leaves exactly the entries after it |
| `VersionPaging.RowsRest` | internal/store/memory.go:378-417 | index pages resumed at their last row continue the row listing exactly |
| `VersionPaging.EncInjective` | internal/api/list.go:262-275 | comparing url-encoded prefixes is the same as comparing the prefixes |
| `VersionPaging.ListEverything` | internal/api/list.go:195-305 | paging to exhaustion returns every version, delete marker and common prefix exactly once, in order |
| `VersionPaging.NothingMissed` | internal/api/list.go:240-305 | from the start, an entry is listed iff some stored row under the prefix gives it |
| `TiedVersions.ResumeLosesTies` | internal/store/memory.go:378-417 | without distinct stamps: resuming at a row returns the rows after it except exactly those of its key with its stamp |
| `TiedVersions.ResumeLosesNothingIff` | internal/store/memory.go:378-417 | a page boundary loses nothing iff the next row is not tied with the last one returned |
| `MovingVersions.ResumesRightIff` | internal/store/memory.go:378-417 | over any later index the resumed listing holds exactly the rows after the marker's row iff the stamp the marker stands for now separates the versions of its key as its old stamp did |
| `MovingVersions.GoneMarkerSkipsKey` | internal/store/memory.go:378-417 | when the version a marker names is gone, exactly the later keys are listed |
| `MovingVersions.DeletedMarkerMisses` | internal/store/memory.go:331-417 | for every index: once the marker's version is deleted, each older version of its key is still there and not listed |
| `MovingVersions.RestampedMarkerRepeats` | internal/store/memory.go:252-288 | for every index: once the marker's version is overwritten under its own id with a higher stamp, each version stamped in between is listed again |
| `MovingVersions.ResponseShows` | internal/api/list.go:240-305 | when every index read sees a different index, a response shows exactly the first m entries of what it read, in order and past the position |
| `MovingVersions.ResponseCovers` | internal/api/list.go:240-305 | a version held at every read is shown by the response or lies past its last entry |
| `MovingVersions.NothingTwice` | internal/api/list.go:240-305 | over a whole session whose markers resume right, the entries shown are in strict listing order: none twice |
| `MovingVersions.ResponsesShow` | internal/api/list.go:281-305 | the versions, delete markers and prefixes of all responses together are exactly those of these entries |
| `MovingVersions.StableVersionsShown` | internal/api/list.go:240-305 | every version held throughout is shown, by itself or its rolled-up prefix |
| `MovingVersions.EveryStableVersionOnce` | internal/api/list.go:240-305 | from the start, every version held throughout is shown exactly once |
| `MovingVersions.ShownWasHeld` | internal/api/list.go:240-305 | every entry shown comes from a version some read found in the index |
| `Versioning.RunKeeps` | internal/api/versioning.go:36-71 | once versioning has been enabled, no run removes or changes a non-null version except by naming it or restoring |
| `Versioning.WriteMeaning` | internal/api/versioning.go:36-46 | an accepted write in Enabled mode adds a version under its fresh id and keeps every version, the null one included; in the other modes it takes the place of the null version and of no other; a refused one changes nothing |
| `Versioning.WrittenIsFound` | internal/api/versioning.go:36-46 | afterwards the fresh id, or "null", names a version with the body, ETag and stamp of the write |
| `Versioning.DeleteMeaning` | internal/api/object.go:582-617 | a named delete removes exactly that version; a plain one removes the key, adds a marker under a fresh id, or replaces the null version by one, as the mode says |
| `Versioning.PutHolds` | internal/store/memory.go:252-288 | after a write exactly the written version and the versions of other ids are stored |
| `Versioning.RunMode` | internal/api/versioning.go:51-76 | after any run the mode is the one last set |
| `Versioning.OtherRequests` | internal/store/memory.go:229-250 | a restore leaves exactly one live version for each of its objects, with its content, id and stamp |
| `VersioningRaces.KeptIff` | internal/api/object.go:582-617 | handlers that read the mode and write in separate steps: a non-null version survives every continuation short of naming it or a restore iff no plain DELETE of its key that saw the bucket unversioned is in flight |
| `VersioningRaces.RunKeepsSafe` | internal/api/versioning.go:36-71 | without such a request no interleaving loses the version, and none such can arise |
| `VersioningRaces.LateDeleteRemoves` | internal/api/object.go:609-617 | such a request, when it lands, removes the version whatever the mode is by then |
| `Versioning.UndoDelete` | internal/api/object.go:582-617 | a plain delete in enabled mode followed by deleting its marker gives back the bucket exactly |
| `Versioning.PutThenDelete` | internal/store/memory.go:252-352 | adding a version under a new id and deleting it is the identity on stacks, whatever its stamp |
| `Versioning.DeleteHides` | internal/api/object.go:596-617 | the key reads as absent after a plain delete iff there was nothing live or the marker is stamped no earlier than the top |
| `Versioning.NullIsReplaced` | internal/api/versioning.go:36-46 | in suspended mode a write replaces the null version: the exclusion of null ids is needed |
| `ConditionalWrites.CreateOnce` | internal/api/object.go:36-54 | in every interleaving, between two successful create-only writes of a key, the first not under a later-stamped delete marker, the key was removed |
| `ConditionalWrites.CreateAgainIff` | internal/store/memory.go:252-280 | after an accepted create-only write a second one is admitted next iff the first lies under a later-stamped delete marker |
| `ConditionalWrites.UpdateAgainIff` | internal/store/memory.go:252-280 | after an accepted If-Match write that changes the tag, a second against the same tag is admitted next iff a later-stamped version with that tag covers the first |
| `ConditionalWrites.SuccessShows` | internal/store/memory.go:252-288 | what readers see after an accepted write: the write itself, or the later-stamped survivor that covers it |
| `ConditionalWrites.EarlyCheckIsTheStores` | internal/api/object.go:36-54 | the check before bytes move turns away exactly what the store would refuse then, and says NoSuchKey only for If-Match on an absent key |
| `ConditionalWrites.UpdateOnce` | internal/store/memory.go:252-280 | no lost update: after a tag-changing success not covered by a version with that tag, a second success needs the tag to have come back in between |
| `ConditionalWrites.UpdateReplacedTag` | internal/store/store.go:35-50 | a successful If-Match write found that tag on the latest version at the moment of the write, and is what readers see next iff it is stamped last |
| `ConditionalWrites.WriteShows` | internal/store/memory.go:252-280 | an accepted write becomes the latest version iff it is stamped no earlier than the versions it leaves |
| `ConditionalWrites.CreateTwiceWhenStampsDisagree` | internal/api/object.go:113-116 | with stamps out of order two create-only writes succeed with no removal in between |
| `ConditionalWrites.UpdateTwiceWhenStampsDisagree` | internal/api/object.go:113-116 | two If-Match writes stamped before the version they replace both succeed against its tag |
| `ConditionalWrites.RunKeepsValid` | internal/store/memory.go:252-281 | every interleaving of handlers, deletes and restores keeps the index well formed |
| `ConditionalWrites.DecidedAtTheStore` | internal/store/memory.go:252-281 | over any interleaving a request is decided once, by its own condition against the index it finds, and is written iff the condition holds then |
| `ConditionalWrites.CommitMeaning` | internal/store/memory.go:252-288 | an accepted commit replaces the version of its id and no other; a refused one changes nothing |
| `ConditionalWrites.OthersUntouched` | internal/store/memory.go:252-281 | a step leaves every key it does not name as it was |
| `SqlConditions.FlagsAfterPut` | internal/store/sqlite.go:542-565 | for every table: after a write the flagged rows of its key are exactly the written one and those with the greatest stamp |
| `SqlConditions.MayAdmitIff` | internal/store/postgres.go:435-461 | for every table: a condition may be admitted next iff the written row or a newest row of the key meets it |
| `SqlConditions.CreateMayFollowIff` | internal/store/sqlite.go:518-532 | after a write of a real object a create-only write may be admitted next iff a delete marker carries the key's greatest stamp, and may always be refused |
| `SqlConditions.UpdateMayFollowIff` | internal/store/sqlite.go:518-532 | after a tag-changing write, one against the old tag may be admitted next iff a live newest version carries it, and one against the new tag must be iff every newest version carries that |
| `Hex.DecodeMeaning` | internal/manifest/manifest.go:404-423 | decoding succeeds exactly on even-length hexadecimal text and halves the length |
| `Hex.DecodeEncode` | internal/manifest/manifest.go:340-349 | decoding undoes encoding for every byte string, and a root is twice as many digits |
| `Hex.EncodesLowercase` | internal/api/multipart.go:502-509 | encoded text is lower-case hexadecimal |
| `Manifest.HasKeyBearingRefs` | internal/manifest/manifest.go:96-116 | true exactly when the own reference or some part reference is 128 hexadecimal digits |
| `Manifest.SealObject` | internal/manifest/manifest.go:176-210 | the loop seals exactly the key-bearing references and keeps every other field |
| `Manifest.OpenObject` | internal/manifest/manifest.go:215-258 | the loop opens sealed references, reports rows that stay sealed, and fails when one cannot be decrypted |
| `Manifest.OpenSealed` | internal/manifest/manifest.go:176-258 | with the matching identity, opening a sealed object gives it back exactly; without one the row counts as sealed iff it holds a key-bearing reference |
| `Manifest.Build` | internal/manifest/manifest.go:299-349 | forks, commit document and manifest in the order the source saves them, stopping at the first error |
| `Manifest.GetCommit` | internal/manifest/manifest.go:429-467 | finds the document under its reserved path, checks its version, opens every row and counts the sealed ones |
| `Manifest.LoadsIff` | internal/manifest/manifest.go:429-470 | a root loads iff it leads through the commit fork to a document of version 1 or 2 whose rows all open; each refusal has exactly its own cause |
| `CommitRoundTrip.NothingLeaks` | internal/manifest/manifest.go:299-423 | nothing a build saves, failed builds included, carries an unsealed key-bearing reference: documents, descriptors or fork entries |
| `ManifestForks.BuiltShows` | internal/manifest/manifest.go:299-420 | a successful build: every object's fork is its decoded reference, or leads to a stored descriptor with its parts; a zero-byte object has none; the only other fork is the commit document's |
| `ManifestForks.SealDescribes` | internal/manifest/manifest.go:358-392 | a descriptor names every part with its number and size, and each reference opens to the object's for the recipient's identity |
| `CommitRoundTrip.BuildSucceedsIff` | internal/manifest/manifest.go:299-423 | with node references every fork entry is 32 bytes wide, and the build fails iff no recipient is given and some reference is key-bearing |
| `CommitRoundTrip.RefusalHasCause` | internal/manifest/manifest.go:351-375 | whatever the references look like, a refusal for want of a recipient means there is none and some reference is key-bearing |
| `CommitRoundTrip.LoadBuilt` | internal/manifest/manifest.go:429-477 | loading a built root, however much the node has grown, gives back the commit; the sealed count is the number of objects with key-bearing references |
| `CommitRoundTrip.HandleRestore` | internal/api/snapshot.go:92-160 | a refused restore leaves the index, head and sequence unchanged; otherwise all three are replaced |
| `CommitRoundTrip.RestoreListing` | internal/store/memory.go:229-250 | restoring any listing and listing again gives the same objects |
| `CommitRoundTrip.RestoreCommitted` | internal/api/snapshot.go:123-151 | commit, any later states, restore: the plan swaps in exactly the committed listing, or refuses iff no identity is given and some reference is sealed |
| `CommitProtocol.HeadMatchesIndex` | internal/manifest/committer.go:79-206 | in every interleaving: not dirty, nothing pending, no build of the bucket running, its last commit good and its head not set by an overlapped build imply that the head document lists exactly the live objects |
| `CommitProtocol.HeadMatchesSince` | internal/manifest/committer.go:79-206 | it is enough that no restore of this bucket has overlapped its build since a clean commit, a restore outside a build, or the start |
| `CommitProtocol.HeadMatchesSteps` | internal/manifest/committer.go:79-206 | by the steps of the run alone: every write notified, every notification followed by a build, the last one not failed and not overlapped, none running; then the head lists the index |
| `CommitProtocol.CommitCatchesUp` | internal/manifest/committer.go:122-206 | from any idle state a commit can run, and leaves a settled bucket whose head lists its index under the next sequence number with the old head as parent |
| `CommitProtocol.NextKeepsCurrent` | internal/manifest/committer.go:122-195 | each step keeps it: what the committer has read so far agrees with the index unless a notification is outstanding |
| `CommitProtocol.ChainIsWhole` | internal/manifest/committer.go:172-195 | under any interleaving, overlapping restores included: the head sequence is the bucket sequence, and parent links drop it by one each step down to 1 with an empty parent |
| `CommitProtocol.RunKeepsChained` | internal/api/snapshot.go:149-151 | commits and restores of saved roots keep heads, documents and the running build chained |
| `CommitProtocol.HistoryMeaning` | internal/manifest/committer.go:172-195 | the parent walk from any saved root visits exactly its sequence number of documents |
| `CommitAnomalies.OverlapBreaks` | internal/api/snapshot.go:149-151 | a concrete run: a restore during a build leaves a settled bucket whose head is not its index |
| `CommitAnomalies.OverlapLeavesStale` | internal/api/snapshot.go:149-151 | in every run: a restore that lands after a build has read its pages, with a document listing something else, leaves a head that is not current from the build's head update until the bucket is next written, committed, restored or created |
| `CommitAnomalies.FailureLeavesStale` | internal/manifest/committer.go:138-162 | a concrete run: after a failed commit the bucket is settled and its head stale |
| `Committer.CollectObjects` | internal/manifest/committer.go:158-170 | the paging loop reads the whole listing, whatever the page size |
| `Committer.CommitLoop.CommitNow` | internal/manifest/committer.go:122-206 | clears the mark however it ends, builds from the full listing on top of the current head, and moves the head only on success |
| `GatewaySafety.NextKeeps` | internal/api/object.go:186-366 | every step of PUT, part upload, copy, part copy, streamed copy, completion, grant, object and bucket delete, commit and restore keeps the invariant, and so does creating a bucket whose leftovers fit |
| `GatewaySafety.RunKeeps` | cmd/fakebee/main.go:47-108 | so it holds in every state of gateway and node up to the first re-creation of a bucket over unfitting leftovers |
| `GatewaySafety.CreateKeepsIff` | internal/api/bucket.go:58-131 | creating a bucket keeps the invariant iff what an earlier bucket of that name left behind fits: parts of open uploads, commit roots, and requests in flight with all they have read, grants included |
| `GatewaySafety.ReadsBackIff` | internal/api/object.go:337-366 | sound bytes read back, under their own history in ACT, iff they were written under the setting of the bucket they are in |
| `GatewayAnomalies.UnfitGoesWrong` | internal/store/memory.go:76-88 | the condition is exact: from every re-creation over unfitting leftovers steps lead to a stored object that does not read back, provided the node has a reference left of each length |
| `GatewayAnomalies.MisplacedFails` | cmd/fakebee/main.go:90-107 | sound bytes in a bucket they do not fit cannot be read outside ACT and have no history inside |
| `GatewayAnomalies.RecreationBreaks` | internal/store/memory.go:76-88 | a concrete run: upload in an ACT bucket, bucket deleted and re-created without ACT, upload completed; the object reads as nothing and its key-bearing reference is not marked encrypted |
| `GatewayAnomalies.GrantBreaks` | internal/store/memory.go:145-156 | a concrete run: grants being changed in an ACT bucket, the bucket deleted and re-created without ACT, an object stored, the new history recorded; the bucket is now an ACT one and holds content the node has under no history |
| `GatewaySafety.EveryReadSucceeds` | internal/api/object.go:337-366 | every stored reference is read back with the uploaded bytes; in ACT buckets under exactly the history the node holds for it, however often the bucket rotated |
| `GatewaySafety.KeyBearingMatchesFlag` | internal/api/multipart.go:322-335 | outside ACT buckets every object reference, own or part, is key-bearing iff the object is marked encrypted |
| `GatewaySafety.PartsMatchFlag` | internal/api/multipart.go:93-140 | the same for every part of every upload in progress whose bucket exists |
| `GatewaySafety.StreamedBytes` | internal/api/multipart.go:199-239 | a ranged or boundary-crossing part copy uploads exactly the requested range of the bytes originally stored for the object it read, whatever happens between its steps |
| `GatewayContents.CopyStores` | internal/api/object.go:661-743 | in every run a copy writes at its destination the flag, bytes and parts of the object it read; only the recorded history may differ, and it is the source bucket's when the source recorded none |
| `GatewayContents.CompleteStores` | internal/api/multipart.go:285-345 | in every run a completed upload is written with the upload's flag and exactly the named parts, in order |
| `GatewayContents.PutStores` | internal/api/object.go:26-180 | in every run a PUT writes at its destination the body that was sent, with the flag asked for and no parts |
| `GatewayContents.PartStores` | internal/api/multipart.go:93-140 | in every run a part upload records the body that was sent under its number, and nothing else changes |
| `GatewayContents.ReusedPartStores` | internal/api/multipart.go:186-200 | a part copied by reference holds the source's reference and bytes, with the history that reads them |
| `GatewayContents.StreamedPartStores` | internal/api/multipart.go:201-239 | a streamed part is recorded with the requested range of the bytes originally uploaded for its source |
| `GatewayContents.PublishedIsRead` | internal/manifest/committer.go:122-206 | a published root holds exactly the objects the commit's page reads found, as they found them |
| `GatewayContents.RestoreBrings` | internal/store/memory.go:229-250 | a restore makes the bucket's objects exactly those of the root and leaves every other bucket alone |
| `GatewayContents.StaysStored` | internal/api/object.go:661-743 | an object stays as it was stored until a write, a deletion or a restore names it |
| `GatewayContents.CopyGoesOnIff` | internal/api/multipart.go:584-592 | a copy goes on exactly under one bucket name or between buckets both outside ACT |
| `Ranges.ParsePrinted` | internal/api/object.go:981-1019 | parsing any printed single range gives exactly the bytes section 14.1.2 of RFC 9110 selects, unsatisfiable only if it selects none, ignored iff backwards within the object, if its numbers fit 64 bits; a range with a larger number is ignored unless its first position fits and is past the end, and that is exactly when parsing is right |
| `Ranges.SpacesIgnored` | internal/api/object.go:981-1019 | white space around the range does not matter |
| `Ranges.IgnoredHeaders` | internal/api/object.go:981-990 | a header in another unit, with several ranges or without a dash is ignored |
| `Ranges.RangeInside` | internal/api/object.go:981-1019 | for every header, an accepted range lies inside the object |
| `Ranges.Stitch` | internal/api/object.go:905-942 | sub-range reads over the parts add up to exactly the requested slice of the concatenation |
| `Ranges.ServeComposite` | internal/api/object.go:889-942 | 416, 206 with the slice, or 200 with everything, and the announced length is the length of the body |
| `Ranges.PreparePart` | internal/api/object.go:947-976 | bad numbers and missing parts are refused; an object without parts is one part; otherwise the range is where the part lies |
| `Ranges.GetPart` | internal/api/object.go:947-976 | requesting a non-empty part, through printing and re-parsing its range, serves exactly its bytes |
| `Ranges.OnlyPart` | internal/api/object.go:953-962 | part 1 of an object without parts selects the whole of it |
| `Multipart.MultipartETag` | internal/api/multipart.go:502-509 | the digest of the concatenated part digests, with the part count |
| `Multipart.CompleteUpload` | internal/api/multipart.go:285-345 | accepted iff the list is non-empty, strictly ascending, names uploaded parts by their ETags, and all but the last are large enough; each refusal names the first thing wrong |
| `Multipart.AnswerMeaning` | internal/api/multipart.go:285-318 | in plain terms: accepted iff the numbers are positive and ascending, every part was uploaded with the ETag named, bare or quoted, and all but the last have 5 MiB; otherwise the first part that will not do decides the error |
| `Multipart.QuotesDoNotMatter` | internal/api/object.go:1047-1049 | putting hexadecimal ETags of a request in double quotes does not change the answer |
| `Text.TrimETagAround` | internal/api/object.go:1047-1049 | surrounding white space and then quotes come off an ETag, and nothing else |
| `Multipart.AlreadyCompleted` | internal/api/multipart.go:363-378 | a retry is recognised iff the ETag recomputed from the request is the one stored |
| `Multipart.RequestDecodes` | internal/api/multipart.go:363-378 | a retried request stands for the decoded digests of the ETags it names, bare or quoted, in order |
| `Multipart.ETagReads` | internal/api/multipart.go:502-509 | a multipart ETag reads back as a lower-case digest, a dash and the number of parts |
| `Multipart.RequestMatchesParts` | internal/api/multipart.go:363-378 | with plain part ETags the request determines what the object ETag hashes |
| `Multipart.HoldsLatest` | internal/store/memory.go:443-452 | in every run a session holds the latest bytes stored under each part number since it was created |
| `Multipart.RunKeepsETags` | internal/api/multipart.go:173-239 | in every run, commits and restores included, each part ETag and each simple object ETag is the plain hex MD5 of its bytes, and sizes are lengths |
| `Multipart.CompletionMeaning` | internal/api/multipart.go:285-345 | in every run an accepted completion writes the concatenation of the latest upload of each named part, its size, and an ETag the request determines |
| `Multipart.RetryLater` | internal/api/multipart.go:252-283 | any time later, while the key is not rewritten or restored to something else, the retried request finds that ETag |
| `Multipart.SentPart` | internal/api/multipart.go:93-239 | a part uploaded or copied, and not touched since, is there with exactly the bytes sent: for a ranged copy, the bytes first to last of its source |
| `Multipart.RestoredObjects` | internal/api/snapshot.go:92-160 | a restore brings back exactly the objects that were committed under the root |
| `ChunkedFormat.DecodeEncode` | internal/auth/chunked.go:78-216 | decoding the framing of any non-empty chunks and trailers gives the concatenated payload and exactly those headers, signed or not |
| `ChunkedFormat.EndsIffVerified` | internal/auth/chunked.go:118-208 | for every input, signed decoding ends cleanly iff the frames, final empty one included, form one signature chain from the seed and the trailer verifies; then the payload is that of the frames |
| `ChunkedFormat.UnsignedEndsIffFramed` | internal/auth/chunked.go:118-208 | for every input, unsigned decoding ends cleanly iff the stream is framed to the end with a readable trailer, and then delivers the payload of its frames |
| `ChunkedFormat.LooseTrailer` | internal/auth/chunked.go:173-208 | a trailer counts by its lower-cased name and trimmed value, however it was spelt |
| `ChunkedFormat.SignatureRead` | internal/auth/chunked.go:118-146 | a chunk signature is what follows the semicolon, with or without its name |
| `ChunkedReader.Reader.Read` | internal/auth/chunked.go:78-114 | data is a non-empty prefix of what was to come; end and faults are reported exactly when nothing was, and stay reported |
| `ChunkedReader.Reader.Advance` | internal/auth/chunked.go:118-146 | consuming a header leaves what is to be delivered unchanged, or fails as the format says |
| `ChunkedReader.Reader.FinishChunk` | internal/auth/chunked.go:149-168 | checks the terminator and the signature over the whole chunk however it was read |
| `ChunkedReader.Reader.ReadTrailer` | internal/auth/chunked.go:173-208 | collects headers up to a blank line or the end and verifies their signature when required |
| `ChunkedReader.Drain` | internal/auth/chunked.go:78-114 | reading to the end with any buffer sizes delivers exactly what the reader had to deliver |
| `ChunkedReader.ReadStream` | internal/auth/chunked.go:67-227 | for every input, buffer schedule and pattern of short reads the result is the decoding of the input; signed streams end cleanly iff verified |
| `ChunkedReader.Receive` | internal/auth/chunked.go:67-227 | every framed upload arrives whole under every schedule |
| `Escaping.EscapeBytes` | internal/auth/sigv4.go:334-349 | the byte loop computes the escaping the laws below are about |
| `Escaping.UnescapeUndoes` | internal/auth/sigv4.go:334-349 | percent-decoding (sections 2.1 and 2.3 of RFC 3986) undoes escape for every byte string |
| `Escaping.EscapeInjective` | internal/auth/sigv4.go:334-349 | different texts escape differently |
| `Escaping.EscapedIsClean` | internal/auth/sigv4.go:334-349 | escaped text holds only unreserved characters, percent signs and, when kept, slashes |
| `Escaping.EscapedForm` | internal/auth/sigv4.go:334-349 | unreserved characters stand for themselves, slashes where kept, and every other byte is a percent sign and two upper-case digits |
| `CanonicalQuery.CanonicalDetermines` | internal/auth/sigv4.go:298-319 | two pair lists have the same canonical string iff they are the same multiset |
| `CanonicalQuery.CanonicalAscends` | internal/auth/sigv4.go:307-313 | the pairs come in byte order of their encoded names, and under one name of their encoded values |
| `CanonicalQuery.CanonicalPairs` | internal/auth/sigv4.go:298-319 | they are exactly the given pairs, name and value escaped with no slash kept |
| `CanonicalQuery.JoinMore` | internal/auth/sigv4.go:314-318 | a pair is name, equals sign, value, and an ampersand stands between two |
| `CanonicalQuery.QueryString` | internal/auth/sigv4.go:298-319 | whatever order the map is iterated in, the result is the canonical string of the pairs |
| `CanonicalQuery.SortedUnique` | internal/auth/sigv4.go:307-313 | the sorted sequence of a multiset is unique, so an unstable sort is enough |
| `CanonicalQuery.JoinInjective` | internal/auth/sigv4.go:314-318 | joined text determines the pairs, because names hold no = and nothing holds & |
| `Autopilot.TopupLands` | internal/stamp/autopilot.go:139-175 | while the times fit 64 bits: a top-up is affordable, puts the remaining time above the target by at most one block time, and leaves nothing to do |
| `Autopilot.DecisionMeaning` | internal/stamp/autopilot.go:118-175 | a mutable batch at capacity goes one level up; any other is topped up iff less than the minimum time remains, storage has a price, there is gas, and the wallet covers the amount for all 2^depth chunks |
| `Autopilot.AtCapacityIff` | internal/stamp/manager.go:57-65 | at capacity means the reported ratio, or else use over two to the levels above the bucket depth, reaches the threshold |
| `Autopilot.LongLivedIsToppedUp` | internal/stamp/manager.go:47-54 | beyond that bound: a batch with more than 9,223,372,036 seconds left, up to twice that, counts as expired and is topped up by an autopilot that can pay |
| `Autopilot.RunToRest` | internal/stamp/autopilot.go:118-175 | under the same bound, repeated passes end after finitely many dilutions and at most one top-up |
| `Autopilot.RestsIff` | internal/stamp/manager.go:47-65 | they end at all iff the batch is immutable, below the threshold, or can grow out of it |
| `Autopilot.NeverRests` | cmd/fakebee/main.go:243-259 | otherwise every pass dilutes once more, forever |

## Left out

- HTTP routing, XML and JSON shapes, headers, metrics, logging, configuration and credential loading: no deep property.
- Errors of the store, the node and the network: a step either happens or does not; I/O errors of the stream under the chunked reader are not modelled.
- Bucket records: each store model is one existing bucket, so lookups of missing buckets, tagging, CORS and tenancy do not appear; creation and deletion are modelled in the gateway machine and the commit protocol.
- Base64 continuation tokens: the resume position is passed as it is.
- Hashing, HMAC, age and mantaray internals: function parameters and finite maps, as described above.
- Signature acceptance, clock skew and presigned expiry in the request verifier: branch-by-branch checks.
- Feed publishing, the chequebook keeper and wall-clock debounce of the committer: when a build starts is a free choice.
- Several gateways committing one bucket at once: the commit lock belongs to one process.
- The write time sent along with ACT reads, and grantee lists: only the history decides a read in the node model.
- Postgres: same rows as SQLite; its per-key advisory lock is taken as making each transaction one atomic step.
- Object keys and versions in the gateway machine are one opaque slot per bucket; the version index is modelled separately.
- Autopilot.RunToRest: ratios are real numbers, so floating-point rounding near the threshold is not captured; times are bounded as `Autopilot.TimesFit` says, and `Autopilot.LongLivedIsToppedUp` shows what happens beyond.
- Autopilot.TopupLands: the same bound on times.
- Autopilot.RestsIff: the same bound on times.
- ConditionalWrites.UpdateOnce: stated on the in-memory index; the SQL stores give the same answers while stamps increase, and `SqlConditions` says what they may answer otherwise.
- ConditionalWrites.CreateOnce: likewise.
- ManifestForks.BuiltShows: the keys of the list are distinct, as in every listing; of objects with one key the last has the fork. What a fork carries beside its entry, such as the content type, is not modelled.
- Versioning.WriteMeaning: handlers are atomic, as in `Versioning.RunKeeps`.
- Versioning.RunKeeps: handlers are atomic; `VersioningRaces.KeptIff` is the result for interleaved ones.
- StoreRuns.RunRefines: restored lists have distinct non-empty keys and no delete markers, as every commit the gateway builds does; `StoreRefinement.RestoreAgreesIff` shows that the stores disagree on all others.
- StoreRefinement.RestoreRefines: the same; it is the agreeing half of that equivalence.
- MemoryStore.RestoreOnePerKey: the well-formed case; `MemoryStore.RestoreMeaning` covers every list.
- VersionPaging.ListObjectVersions: stamps of one key are distinct, as the gateway intends; what is lost otherwise is stated in `TiedVersions`.
- VersionPaging.ListEverything: likewise, and over an index that does not change; `MovingVersions` covers changing ones.
- MovingVersions.EveryStableVersionOnce: every marker resumes right, which `MovingVersions.ResumesRightIff` shows to be exactly what is needed, and stamps of one key are distinct at every read.
- MovingVersions.NothingTwice: the same.
- VersionPaging.ListingRest: likewise for distinct stamps.
- VersionPaging.RowsRest: likewise for distinct stamps.
- GatewayAnomalies.UnfitGoesWrong: assumes the node has a reference of each length left for an upload.
- Lower-casing maps ASCII letters only; no other character lower-cases to a hexadecimal digit.
- ChunkedFormat.DecodeEncode: trailers have lowercase names and trimmed one-line values, as clients send them; header-name canonicalisation on storage is not modelled.
- Multipart.CompletionMeaning: one bucket with a single entry per key; conditional completion has the semantics of a conditional PUT and is covered there.
