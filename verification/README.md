# Floceed in Dafny

Floceed compiles snapshots of AWS resources into reproducible bundles. This
project models the parts of it that carry state across failures, and proves what
they promise. `dafny verify dfyconfig.toml` checks everything.

**DynamoDB capture.** `Cohort` is the bounded sample, a max-heap under a limit
and a ceiling on retained bytes. `ExternalMerge` is the multi-pass 64-way merge of
sorted page runs, `DynamoChunks` cuts its output into chunks. `AttributeCodec` is
the attribute encoding, with JSON documents as trees. `ItemGovernance` says what
governance rules do to an item, `ItemCopy` is the copy on write that does it to
maps in memory, `CohortKeys` decides membership and rank, and `GovernedSource` ties
them to the capture. `ProtectedState` is the byte
layout of the protected resume file and `GovernedState` its validator.
`DynamoCapture` gives the uninterrupted capture as a function, page by page, and
`DynamoResume` is the real capture: a class with a work directory, a checkpoint
and a budget of steps after which the process is killed. Its main result is that
any run that finishes, after any number of crashes anywhere, hands over exactly
the result of the uninterrupted capture. `DynamoContents` says what that result
contains, in terms of the pages of the table, and `GovernedValues` what governing
leaves of a value.

**S3 capture.** `S3Inventory` is the listing as a function, `S3Packs` the pack
reader with its line of lookahead, `S3Freshness` the freshness evidence, `S3Units`
the report of objects that have gone. `S3Contents` says which objects of the bucket
a listing holds.
`S3Capture` is the capture with its inventory file, checkpoint and ledger. A run
that finishes has the dataset and the artifact bytes of an uninterrupted capture
of every pack, whatever was interrupted and whatever was reused.

**Stores.** `Ledger` is the content-addressed store, `Installer` the directory
replacement under a lock. In both, every step may fail or be the last one.

**Algorithms.** `DependencyGraph` (cycle check), `CapturePool` (worker pool under
every interleaving), `CredentialDetector` (window over a stream), `Prefixes`
(prefix compaction), `KeyCache` (derived keys under every interleaving),
`ManifestProjection`, `ProjectionOrder`, `ProjectionTells` and `Comparison`
(semantic comparison).

`ByteStrings`, `Sorting`, `Mapping`, `Sequences`, `Lines`, `Heaps`, `Packing`,
`Manifest`, `Identities`, `Projections` and `Wrappers` are shared.

How things are modelled:

- A crash loses memory and keeps the disk. The disk is a map from names to
  contents. `power` counts the steps that still happen, and the theorems hold for
  every budget of every run. A file that is written in place may be left torn; a
  file that is renamed into place is old or new (`internal/storage/write.go:12-36`).
- The table, the bucket and the policy are functions: what a page contains depends
  on the cursor and the requested limit only. Functions that may fail return an
  `Option`, and the error paths of the code are followed.
- SHA-256 is an injective function without a fixed length, AES-GCM is a function
  of kind, ordinal, nonce and plaintext that opens for its own kind and ordinal
  only and adds 28 bytes (`ProtectedState.SealsExist` gives such functions), HKDF is
  a function, JSON text is an injective encoding. Where the MAC of a cohort is taken
  to be injective, no length is assumed of it.
- `sort.Slice` gives any arrangement that is sorted by its key. Where the order is
  total on values (`bytes.Compare` on rows), there is one such arrangement.
- Integers are unbounded. The field widths of the record header are modelled.
  Consumed capacity counts the smallest unit that a scan reports.

Where the code falls short of what one might expect, the code is followed, and
the exact condition is proved:

- A protected checkpoint of a scan that was cut off at its limits keeps its cursor
  and is refused on resume; so is a sample with two identical candidates
  (`DynamoResume.ResumableExactly`, with captures that come to it in
  `DynamoResume.FirstPageCutOff` and `DynamoResume.TwinsAreRefused`). The writer
  does not enforce the record limit of the reader (`ProtectedState.LoadSaved`).
- The ledger publishes an index of any size and loads none over 64 MiB
  (`Ledger.PublishedLoads`).
- Whether a cohort capture errs may depend on the scan order: exactly if the
  smallest candidates fit under the ceiling and some other `limit` of them do not
  (`Cohort.OrderMatters`).
- A merge that was interrupted after it created an output blocks the capture
  directory (`DynamoResume.Capture.Attempt`); a partial blob blocks its generation
  (`Ledger.Store.Publish`); a lock left by a killed installer blocks later calls
  until it is removed (`Installer.Installation.Install`).
- The error of the cycle check says that a cycle involves a key, but the key may
  only lead to it (`DependencyGraph.ReportedKeyOffCycle`). It is the least key that
  leads to a cycle (`DependencyGraph.ValidateDependencyGraph`).
- A stream can be cut into writes that hide its matches from the credential
  detector exactly if all of them have more than 257 bytes
  (`CredentialDetector.FoundWhateverTheCut`, `CredentialDetector.LongerMatchMissed`).
- Operations have one projection exactly if their sort keys tell them apart, which
  an empty dependency name can prevent (`ProjectionOrder.OneProjectionOfOperations`).

## Model

| member | source | states |
|---|---|---|
| Cohort.RunRetainsBest | internal/governance/cohort.go:79-111 | after error-free offers the sample is exactly the smallest `limit` (rank, value) pairs, and a series of offers is error-free exactly when after each offer the smallest pairs so far fit under the byte ceiling |
| Cohort.RetainsSmallestRanks | internal/governance/cohort.go:59-64 | the sample is as many of the offers as the limit allows, in ascending order; no offer that was left out has a smaller rank than one that was retained, nor a smaller value at the same rank |
| Cohort.SizeOfSample | internal/governance/cohort.go:79-99 | what is held against the ceiling is 32 bytes for each candidate and the bytes of its value |
| Cohort.OrderIndependence | internal/governance/cohort.go:59-111 | two orders of the same candidates that both finish retain the same sample |
| Cohort.OversizeAlwaysErrs | internal/governance/cohort.go:79-99 | if the smallest pairs exceed the ceiling, every order of the offers errs |
| Cohort.EveryOrderFinishes | internal/governance/cohort.go:79-111 | every scan order finishes if and only if any `limit` of the candidates fit under the byte ceiling |
| Cohort.SomeOrderFinishes | internal/governance/cohort.go:79-111 | some scan order finishes if and only if the smallest candidates fit |
| Cohort.OrderMatters | internal/governance/cohort.go:79-111 | whether a capture errs is the same in every scan order if and only if any `limit` candidates fit or not even the smallest do |
| Cohort.ErrorDependsOnOrder | internal/governance/cohort.go:79-99 | a concrete case outside that condition: two orders of the same candidates of which one finishes and the other errs |
| Cohort.ResumeIsTransparent | internal/governance/cohort.go:115-147 | a sample visited in any order and restored accepts, rejects and errs on all later offers like the original |
| Cohort.RestoreAny | internal/governance/cohort.go:136-147 | restoring any sample that fits limit and ceiling succeeds and gives the same sample |
| Cohort.NewSelectionExact | internal/governance/cohort.go:66-73 | the byte counter after replaying a saved state is exact if and only if the state fits the limit |
| Cohort.Selection.constructor | internal/governance/cohort.go:66-73 | a replayed state leaves a max-heap of the smallest candidates; from an empty state the counter is exact |
| Cohort.Selection.OfferRanked | internal/governance/cohort.go:101-111 | the heap after an unchecked offer holds the best of old sample and candidate |
| Cohort.Selection.OfferChecked | internal/governance/cohort.go:79-99 | accept, displace, ignore or refuse exactly as the specification of one offer says; heap order and exact byte counter are kept, a refusal changes nothing |
| Cohort.Selection.RestoreOwned | internal/governance/cohort.go:136-147 | takes a saved candidate back exactly if its rank is a digest and limit and ceiling allow it |
| Cohort.Selection.Visit | internal/governance/cohort.go:115-132 | exposes exactly the retained candidates |
| Cohort.Selection.Values | internal/governance/cohort.go:149-156 | the retained values, sorted, none lost |
| Cohort.RestoreSelection | internal/services/dynamodb/data.go:302-316 | an empty selection fed with a saved sample equals the restored sample, or fails exactly if restoring does |
| Heaps.Push | internal/governance/cohort.go:101-111 | container/heap insertion keeps heap order and adds exactly one element |
| Heaps.Pop | internal/services/dynamodb/data.go:566-597 | container/heap removal returns an element that comes before all others and loses nothing else |
| Heaps.ReplaceRoot | internal/governance/cohort.go:101-111 | overwriting the root and fixing the heap exchanges exactly that element |
| Sorting.SortCanonical | internal/services/dynamodb/data.go:376-376 | a total order has exactly one sorted arrangement of the rows of a page |
| ExternalMerge.WorkDir.WriteRun | internal/services/dynamodb/data.go:468-501 | the run file holds the rows line by line and replaces an orphan of the same page |
| ExternalMerge.WorkDir.OpenScanners | internal/services/dynamodb/data.go:542-566 | every run of a group is opened and represented in the heap, or some row is too long for the scanner |
| ExternalMerge.WorkDir.MergeGroup | internal/services/dynamodb/data.go:542-598 | a group merges into the sorted permutation of its rows; it succeeds exactly if all rows fit the scanner and the output does not exist |
| ExternalMerge.WorkDir.MergePass | internal/services/dynamodb/data.go:515-540 | a pass keeps the multiset of rows, touches no page run, and succeeds exactly if all rows are short and no output is in the way |
| ExternalMerge.WorkDir.MergeRuns | internal/services/dynamodb/data.go:515-540 | for any number of runs and passes the result is the sorted permutation of all rows of all runs; page runs survive; exact success condition; the number of runs strictly falls; killed anywhere, the merge created nothing or an output is left |
| ExternalMerge.FinishedGroup | internal/services/dynamodb/data.go:566-597 | when the heap is empty the lines written are the sorted concatenation of the runs |
| Packing.PacksPartition | internal/services/dynamodb/data.go:600-671 | greedy packing partitions the items in order into nonempty admissible packs (shared by both engines) |
| Packing.PackIsLongest | internal/services/s3/data.go:390-422 | each pack is the longest admissible prefix of what is left |
| Packing.PacksResume | internal/services/s3/data.go:233-240 | packing is memoryless: what follows k packs is the packing of what they leave |
| Manifest.ValidateDataset | internal/model/model.go:354-376 | accepts exactly the datasets whose chunk totals are non-negative and add up to the declared totals |
| DynamoChunks.WriteChunks | internal/services/dynamodb/data.go:600-671 | the chunk writer with its pending line cuts the merged file into exactly the greedy packs, with exact counts |
| DynamoChunks.WriteChunk | internal/services/dynamodb/data.go:622-658 | one artifact is exactly the next pack of lines |
| DynamoChunks.ChunksOfCapture | internal/services/dynamodb/data.go:600-671 | the chunks concatenate to the merged file, none is empty, each has at most 64 MiB or one row, and the manifest accepts the totals |
| DynamoChunks.LinesOfRows | internal/services/dynamodb/data.go:600-671 | the lines of a file of rows are the rows, so the record count is the row count |
| AttributeCodec.EncodesExactly | internal/services/dynamodb/item.go:189-244 | an attribute encodes if and only if it contains no unsupported type, at any depth |
| AttributeCodec.EncodesAs | internal/services/dynamodb/item.go:201-244 | a value stands under its DynamoDB tag, sets in byte order, binaries in base64, lists and maps element by element |
| AttributeCodec.DecodeEncode | internal/services/dynamodb/data.go:1058-1148 | decoding an encoded attribute of any nesting returns it with its sets in canonical order |
| AttributeCodec.EncodeCanonical | internal/services/dynamodb/item.go:201-244 | the canonical form encodes to the same document |
| AttributeCodec.SameDocument | internal/services/dynamodb/item.go:201-244 | two attributes share a document if and only if they share a canonical form |
| AttributeCodec.CanonicalCheckAccepts | internal/services/dynamodb/data.go:890-897 | the canonical-form check accepts whatever the encoder wrote |
| AttributeCodec.CursorRoundTrip | internal/services/dynamodb/data.go:1052-1072 | a table key survives encoding and decoding unchanged |
| ItemGovernance.FiresExactly | internal/services/dynamodb/item.go:45-88 | a rule misses exactly if attributeAtPath finds nothing at its path, and errs exactly if what it finds cannot be changed |
| ItemGovernance.ChangesOnlyPath | internal/services/dynamodb/item.go:45-130 | a rule that fires leaves at its path what its transformation gives, and every unrelated path as it was |
| ItemGovernance.GovernedIsSupported | internal/services/dynamodb/item.go:104-130 | governing never makes an item that has an encoding lose it |
| ItemGovernance.FiredAreRules | internal/services/dynamodb/item.go:74-85 | only rules of the list are counted, and at most as many as there are |
| ItemGovernance.Independent | internal/services/dynamodb/item.go:45-88 | two rules for unrelated paths commute on every item, errors and misses included |
| ItemGovernance.Nested | internal/services/dynamodb/item.go:45-88 | of a rule for a map and a rule below it at most one fires, in either order |
| ItemGovernance.SplitDotsInjective | internal/services/dynamodb/item.go:19-28 | different paths split into different parts |
| ItemGovernance.OrderDoesNotMatter | internal/services/dynamodb/item.go:45-88 | every order of rules with different paths, nested ones included, gives the same item, the same counts and the same errors |
| ItemGovernance.CheckProfile | internal/config/config.go:749-773 | accepts exactly the rules among which no ID and no target occurs twice |
| ItemGovernance.AcceptedRulesCommute | internal/config/config.go:749-773 | the rules of an accepted profile govern the items of a table alike in every order |
| ItemGovernance.OverlapWouldShow | internal/config/config.go:764-772 | why the check for overlapping targets is needed: two rules it rejects, whose order would show |
| ItemCopy.TreeOnWay | internal/services/dynamodb/item.go:49-61 | after the maps on a path were copied, the root stands for the item with the edited map in place of the old one, whatever maps are shared |
| ItemCopy.Link | internal/services/dynamodb/item.go:57-60 | replacing a nested map by its copy changes nothing of what the item stands for |
| ItemCopy.CopyDown | internal/services/dynamodb/item.go:49-64 | the walk copies each map on the path and nothing else, keeps the item, and stops exactly where a map is missing |
| ItemCopy.Edit | internal/services/dynamodb/item.go:65-85 | omits or rewrites the attribute at the end of the path, or errs, as the specification of one rule says |
| ItemCopy.ApplyRule | internal/services/dynamodb/item.go:47-86 | one rule on a private copy does to the item what the specification says; only the root and new maps change |
| ItemCopy.GovernItem | internal/services/dynamodb/item.go:45-88 | the governed item is the specified one, the same rules fired, and no map of the source changed, whatever maps are shared |
| GovernedValues.PolicyLeaves | internal/governance/transform.go:49-79 | at the path of each rule a governed item has exactly what the action says: nothing, the replacement, the prefixed hash or the pseudonym under the key of the rule, in an attribute of the same kind, whatever the other rules do |
| GovernedValues.TellsOnly | internal/services/dynamodb/item.go:45-88 | two items that differ in the value at the path of a rule govern to the same item if and only if the action is to omit or replace, or their hashes or MACs agree; the same rules fire on both |
| GovernedValues.StaysApart | internal/governance/transform.go:57-79 | with injective hash and MAC, hashed and pseudonymized values that differ stay different |
| GovernedValues.PolicyFails | internal/services/dynamodb/item.go:68-84 | a policy fails on an item if and only if one of its rules meets, in the item as it was read, an attribute with parts, one it would rewrite that is no string or binary, or lacks secret, algorithm or key |
| GovernedValues.FiresOnce | internal/services/dynamodb/item.go:63-85 | a rule fires on an item exactly if there is an attribute at its path, and is counted once |
| CohortKeys.CohortKeyValues | internal/services/dynamodb/item.go:146-169 | key values exactly for items that meet all predicates and have all keys; an error exactly if a key cannot be encoded before one is missing |
| CohortKeys.MeetsExactly | internal/services/dynamodb/item.go:171-187 | for every expected value, which attributes meet it |
| CohortKeys.OneVerdict | internal/services/dynamodb/item.go:146-169 | the verdict on an item is unique |
| CohortKeys.FramedInjective | internal/governance/cohort.go:183-196 | different lists of key values are framed differently, whatever they contain |
| CohortKeys.Rank | internal/governance/cohort.go:183-190 | the rank is the MAC of the framed values |
| CohortKeys.RankTellsKeys | internal/governance/cohort.go:183-190 | two members of a cohort have the same rank if and only if their key attributes are the same up to the order of sets |
| GovernedSource.PolicyIsTame | internal/services/dynamodb/data.go:334-374 | what the capture model takes for granted about rules and ranks holds of every policy |
| GovernedSource.RuleCounts | internal/services/dynamodb/item.go:74-85 | the count of a rule in a capture is the number of captured items that have an attribute at its path |
| ProtectedState.SealsExist | internal/services/dynamodb/data.go:784-797 | sealing functions with the properties taken for granted exist, so no result about saved files is empty |
| ProtectedState.HeaderRoundTrip | internal/services/dynamodb/data.go:784-797 | the 13-byte header gives kind, ordinal and length back |
| ProtectedState.ReadFrame | internal/services/dynamodb/data.go:861-876 | reading a framed record gives it back exactly within the size limits of the reader |
| ProtectedState.FrameRead | internal/services/dynamodb/data.go:861-876 | accepted bytes are exactly the framing of the record read |
| ProtectedState.CandidateRoundTrip | internal/services/dynamodb/data.go:748-757 | the candidate payload layout is injective and parsed back |
| ProtectedState.Save | internal/services/dynamodb/data.go:722-774 | the file is the magic followed by the numbered records of the state and of every candidate, and the reference matches it |
| ProtectedState.LoadGovernedState | internal/services/dynamodb/data.go:799-859 | the loop over the records computes the specified reading |
| ProtectedState.LoadSaved | internal/services/dynamodb/data.go:799-859 | loading what was saved gives it back exactly when every record fits the limit that only the reader has |
| ProtectedState.OnlyReferencedFileLoads | internal/services/dynamodb/data.go:851-856 | under a reference only the file it was made for loads |
| ProtectedState.TruncatedOrExtendedIsRejected | internal/services/dynamodb/data.go:808-852 | a proper prefix or extension of a saved file is rejected under every reference |
| ProtectedState.SplicedFileIsRejected | internal/services/dynamodb/data.go:808-852 | records dropped, repeated, reordered or relabelled from one saved file are rejected, whatever the reference |
| GovernedState.ValidateGovernedState | internal/services/dynamodb/data.go:885-955 | accepts exactly the states that satisfy the declared conditions |
| GovernedState.ValidateCohortCheckpoint | internal/services/dynamodb/data.go:961-1005 | accepts exactly samples within limit, item count and ceiling with digest ranks and canonical values |
| GovernedState.NoDuplicates | internal/services/dynamodb/data.go:934-941 | the fingerprint set finds a repetition exactly if there is one |
| GovernedState.CheckRuns | internal/services/dynamodb/data.go:689-697 | accepts exactly if every referenced run is there byte for byte |
| GovernedState.RefusedShapes | internal/services/dynamodb/data.go:885-955 | any state is accepted on resume if and only if it has the shape a capture writes, no finished scan has kept its cursor, and no two retained candidates are identical |
| DynamoResume.ResumableExactly | internal/services/dynamodb/data.go:885-955 | the checkpoint of any reached state is taken back if and only if its records fit the reader, a finished scan has no cursor left, and no retained candidate occurs twice |
| DynamoResume.CutOffIsRefused | internal/services/dynamodb/data.go:395-400 | the checkpoint of a scan cut off at its limits with items left is never taken back |
| DynamoResume.FirstPageCutOff | internal/services/dynamodb/data.go:388-413 | every governed limited capture whose first page reaches its limits writes such a checkpoint |
| DynamoResume.TwinsAreRefused | internal/services/dynamodb/data.go:934-941 | every cohort capture whose first page is exactly two items that are alike after governing, have the same keys and fit, writes a checkpoint that is never taken back |
| GovernedState.SaveLoadRoundTrip | internal/services/dynamodb/data.go:722-955 | saving and loading gives state and sample back exactly unless a record is over the reader's limit, a finished scan kept its cursor or two candidates are identical |
| DynamoCapture.FinalStateUnique | internal/services/dynamodb/data.go:318-431 | an uninterrupted capture has at most one final state |
| DynamoCapture.PagesOk | internal/services/dynamodb/data.go:318-431 | after any number of pages: runs sorted, sample within limit and ceiling and of exact size, counters positive and bounded, truncation only of a finished bounded scan |
| DynamoCapture.SavedIsWritten | internal/services/dynamodb/data.go:395-413 | every state a capture saves has the shape the validator was written for |
| DynamoCapture.CursorSurvives | internal/services/dynamodb/data.go:241-248 | the saved cursor decodes to the place where the scan stood |
| DynamoContents.ReachedCaptured | internal/services/dynamodb/data.go:318-431 | every reached state stands behind a chain of scans and has exactly what their items give, up to the limit of a bounded capture: the canonical text of each governed item that belongs, the best of the candidates, exact items, bytes, capacity and rule counts; truncated exactly if a limit left something |
| DynamoContents.PageFails | internal/services/dynamodb/data.go:334-374 | a page errs if and only if the scan does, an item within the limit cannot be judged, governed or written, or a member does not fit the sample |
| DynamoContents.ReachedSaved | internal/services/dynamodb/data.go:403-411 | a governed capture has saved all but fewer than 100000 scanned items and fewer than 128 MiB of rows, and everything once it is complete |
| DynamoResume.CaptureItems | internal/services/dynamodb/data.go:334-374 | the item loop computes the specified rows, sample, counters and truncation, or fails exactly if an item does |
| DynamoResume.Capture.WritePage | internal/services/dynamodb/data.go:375-386 | a page run is written whole, or the process died and only this file is torn |
| DynamoResume.Capture.EndOfPage | internal/services/dynamodb/data.go:388-403 | cursor, truncation, completion and checkpoint interval after a page |
| DynamoResume.Capture.SaveProtected | internal/services/dynamodb/data.go:722-782 | at every crash point the checkpoint on disk stands for a state the uninterrupted capture reaches |
| DynamoResume.Capture.CapturePage | internal/services/dynamodb/data.go:318-431 | one page is one step of the uninterrupted capture; it fails only if that step fails; a checkpoint that is due is written; whatever dies, the disk stays resumable |
| DynamoResume.Capture.LoadCheckpoint | internal/services/dynamodb/data.go:219-239 | a checkpoint is taken back exactly if it is not one of the refused shapes, and then gives exactly the saved state |
| DynamoResume.Capture.Load | internal/services/dynamodb/data.go:219-317 | memory after loading is that of the uninterrupted capture at the saved state |
| DynamoResume.Capture.Finish | internal/services/dynamodb/data.go:432-457 | the result is the specified one; it fails only on an overlong row or a leftover merge output |
| DynamoResume.Capture.Attempt | internal/services/dynamodb/data.go:189-457 | a run that finishes has the result of the uninterrupted capture; a run that fails was refused its checkpoint, or the uninterrupted capture errs, or the merge is blocked; a killed run has come as far as its steps allow, at most four a page, and its checkpoint is the last one that was due; once a run has created an output of the merge, no later run finishes in this directory |
| DynamoResume.Capture.Session | internal/services/dynamodb/data.go:189-457 | over any series of runs, each killed after any number of steps, a result is that of the uninterrupted capture; a last run with enough steps is not killed; checkpoints only advance; a directory with an output of the merge never gives one |
| DynamoResume.ResultsAgree | internal/services/dynamodb/data.go:189-457 | any two captures of a table that finish, however often interrupted, agree on chunks, items, pages, truncation and rule counts |
| DynamoResume.FinishedContents | internal/services/dynamodb/data.go:189-457 | however often it was interrupted, a finished capture has exactly the sorted rows of the governed items that belong, or of the best candidates, in chunks with exact totals, and exact counts of items, pages, capacity and rules |
| DynamoResume.InterruptedMergeBlocks | internal/services/dynamodb/data.go:566-572 | while an output of the merge is there, the merge of the finished capture is refused |
| S3Packs.PackReader.Next | internal/services/s3/data.go:390-422 | delivers the first pack of the well-formed lines, leaves the following lines, and fails exactly if it must look at a malformed line |
| S3Packs.ScanPacks | internal/services/s3/data.go:352-379 | visits the first packs of a well-formed inventory in order |
| S3Packs.NextFromOffset | internal/services/s3/data.go:233-240 | after a pack the old reader with its pending line and a fresh reader at the offset stand for the same entries |
| S3Packs.InventoryDecodes | internal/services/s3/data.go:634-640 | every line of an inventory decodes to the entry it was written for |
| S3Inventory.ReachedKeeps | internal/services/s3/data.go:606-633 | in every reachable listing all three limits of a bounded capture hold |
| S3Inventory.FinalListingUnique | internal/services/s3/data.go:584-664 | a bucket has at most one finished listing |
| S3Contents.ReachedLists | internal/services/s3/data.go:584-664 | a reached listing holds the objects of the pages it has read, prefix after prefix and in order, up to the first at which a limit is hit, except those over the limit on single objects; it is complete exactly if it was stopped so or no page is left |
| S3Contents.FullListing | internal/services/s3/data.go:606-645 | a finished full listing holds every object of every page of every prefix, with key, ETag, size and metadata digest |
| S3Contents.LeftOut | internal/services/s3/data.go:608-622 | an object of a page that was read is missing only if it is too large by itself, or a limit was hit at it or before |
| S3Freshness.FreshnessInjective | internal/services/s3/data.go:454-471 | packs with equal freshness digests list the same keys, ETags, sizes and metadata in the same order, whatever the ETags contain |
| S3Capture.PackFreshness | internal/services/s3/data.go:454-471 | the hashing loop computes the specified evidence |
| S3Capture.PackArtifacts | internal/services/s3/data.go:424-444 | returns the data and the index artifact of the unit, or nothing exactly if there is not one of each |
| S3Capture.CheckpointDescribesInventory | internal/services/s3/data.go:584-664 | at every crash point the first InventoryBytes bytes are exactly the Records listed entries of total size SourceBytes, within all limits, and the packs done have exact totals |
| S3Capture.ListObjects | internal/services/s3/data.go:606-645 | the object loop adds, skips and stops as the listing does, and counts exactly what it writes |
| S3Capture.Capture.BuildInventory | internal/services/s3/data.go:584-664 | truncate and relist ends with the inventory of the uninterrupted listing, or fails only if that listing does |
| S3Capture.ReuseIsFresh | internal/services/s3/data.go:268-285 | a reusable unit names exactly the artifacts that capturing the pack afresh gives |
| S3Capture.Capture.TakeOver | internal/services/s3/data.go:269-281 | if both artifacts materialize they are the fresh ones; nothing but this pack's files changes |
| S3Capture.Capture.CapturePack | internal/services/s3/data.go:666-780 | a captured pack has the fresh chunk and files, whatever was in the way |
| S3Capture.Capture.ReuseOrCapture | internal/services/s3/data.go:253-291 | reuse, failed reuse with fallback and capture end with the same chunk and files, and with a unit that is honest again; the pack is reused exactly if the candidate was captured from the same objects and both artifacts are in the ledger |
| S3Capture.Capture.CapturePacks | internal/services/s3/data.go:233-313 | pack k of the inventory becomes chunk k, across any earlier interruption, and the checkpoint follows pack by pack |
| S3Units.MissingUnits | internal/services/s3/data.go:333-350 | reports missing objects exactly if the inventory is smaller than what the candidate packs counted, with the exact number |
| S3Capture.UnitsCount | internal/services/s3/data.go:233-303 | the units of a capture count the objects of its inventory, whether earlier, reused or captured |
| S3Capture.ReportUnits | internal/services/s3/data.go:315-317 | the units of a finished capture are honest, count its objects, and report missing ones, with their number, if and only if the candidate counted more |
| S3Capture.Capture.Attempt | internal/services/s3/data.go:127-323 | a run that finishes has the dataset and files of an uninterrupted capture of every pack, and leaves units that count its objects; a run fails only if the listing or a download does |
| S3Capture.Capture.Session | internal/services/s3/data.go:127-323 | the same over any series of killed runs with failing downloads; the last run failed only if the listing or one of its downloads did |
| S3Capture.ResultsAgree | internal/services/s3/data.go:127-331 | two captures of a bucket, however interrupted and whatever they reused, agree on dataset and artifact bytes, and the totals pass the manifest check |
| S3Capture.FullCapture | internal/services/s3/data.go:127-331 | a finished full capture, however interrupted and whatever it reused, has packs that list every object of the bucket in order, each staged with what was fetched and described with exact digests, sizes and counts |
| S3Capture.DatasetIsValid | internal/services/s3/data.go:326-331 | the packs concatenate to the inventory, each with at most 10000 entries and 256 MiB or a single entry, and the totals are exact |
| Ledger.Store.CopyVerified | internal/captureledger/store.go:410-427 | an exclusive copy ends whole and verified, or removed, or interrupted with a prefix; an existing file is never touched |
| Ledger.Store.OpenArtifact | internal/captureledger/store.go:172-194 | opens exactly the blobs whose size and digest match |
| Ledger.Store.Admit | internal/captureledger/store.go:288-330 | afterwards the blob is available; refused exactly if path, source or existing blob do not match; no other file changes |
| Ledger.Store.Publish | internal/captureledger/store.go:68-94 | at every crash point each index is wholly old or wholly new and names available blobs only, and no blob changes; a refusal has a named cause; a generation that names an incomplete blob is never published |
| Ledger.Store.LoadIndex | internal/captureledger/store.go:138-168 | loads exactly a valid index of the partition of at most 64 MiB with one matching resource |
| Ledger.Store.LoadCandidate | internal/captureledger/store.go:117-136 | a candidate exactly if the index loads, which one over 64 MiB does not, and then the only resource of the generation with this descriptor |
| Ledger.Store.Materialize | internal/captureledger/store.go:214-278 | afterwards the target matches the artifact; a refusal changes nothing; only the target can change |
| Ledger.Serve | internal/captureledger/store.go:68-94 | over any run of publications, materializations and crashes every loadable index names only matching blobs and no blob ever changes |
| Ledger.PublishedLoads | internal/captureledger/store.go:138-168 | the next capture loads the published resource with all its units, their freshness, outcome and artifacts, arranged, if and only if its index has at most 64 MiB |
| Ledger.CanonicalKeeps | internal/captureledger/ledger.go:173-195 | the canonical form has exactly the resources, units and artifacts of the generation, in the order of descriptors, IDs and paths |
| Ledger.CanonicalNamesExactly | internal/captureledger/ledger.go:173-195 | it names exactly the artifacts that the generation names |
| Ledger.StaysIncomplete | internal/captureledger/store.go:324-330 | a blob that an interrupted publisher left incomplete is never mended as long as blobs are kept |
| DependencyGraph.Search.Visit | internal/app/plan.go:366-382 | the shared colour map stays correct: a cycle is reported only if one is reached, and otherwise the node and all it leads to are done |
| DependencyGraph.BuildGraph | internal/app/plan.go:354-365 | an edge for exactly the required dependencies whose target is selected under the same ARN |
| DependencyGraph.OneMoreDependency | internal/app/plan.go:354-399 | one more dependency of a snapshot adds its edge if it is required and its target is selected under the same ARN, and changes nothing otherwise |
| DependencyGraph.ValidateDependencyGraph | internal/app/plan.go:353-394 | an error if and only if required, resolved dependencies form a directed cycle; the key in it is the first from which a cycle is reached |
| DependencyGraph.ReportedKeyOffCycle | internal/app/plan.go:388-391 | concrete snapshots with a circle whose reported key, the least that leads to one, is on no circle |
| Identities.KeyInjective | internal/app/plan.go:401-403 | without NUL in the names a key stands for one resource |
| Identities.KeysCollide | internal/app/plan.go:401-403 | with NUL two resources may share a key |
| CapturePool.NeverTooMany | internal/app/plan.go:279-318 | under every interleaving at most `concurrency` adapters run, and a job has an outcome exactly once it has reported or given up |
| CapturePool.OutcomesStay | internal/app/plan.go:291-316 | an outcome is written once and never overwritten |
| CapturePool.StepWrites | internal/app/plan.go:291-316 | an outcome slot is written by its own job only |
| CapturePool.Progress | internal/app/plan.go:279-318 | until all jobs are finished some job can move |
| CapturePool.RunsAreFinite | internal/app/plan.go:279-318 | every run ends after at most four steps of each job |
| CapturePool.FirstCaptureError | internal/app/plan.go:322-333 | no error exactly if all succeeded; otherwise the lowest-index error that is no cancellation, or the first error if there is none such |
| CapturePool.FailureHasCause | internal/app/plan.go:311-333 | unless the caller cancelled, a failed run has a job that failed for a reason of its own |
| CapturePool.FailureCancels | internal/app/plan.go:291-318 | under every interleaving, once a failed job has told the others the pool is cancelled, and no job gives up before |
| Installer.Installation.Install | internal/bundle/bundle.go:346-405 | a call with ten steps is not killed; one that is not killed installs the bundle if and only if there is no lock or backup, it was built and approved, and no step up to the rename is refused; at every crash point the last bundle is whole at the target or at the backup, and a failed call leaves it at the backup exactly if moving it back failed too |
| Installer.Installation.Replace | internal/bundle/bundle.go:376-404 | the rename sequence with its rollback, and which refused step leads where |
| Installer.Run | internal/bundle/bundle.go:346-405 | over any series of calls, crashes and removed locks the bundle installed last is never lost and a surviving backup is never overwritten |
| CredentialDetector.Detector.Write | internal/bundle/render.go:252-269 | the window and the sticky error after a write |
| CredentialDetector.EverySplit | internal/bundle/render.go:252-269 | for every way of cutting a stream into writes a match of at most 257 bytes is found, and nothing is found without a match |
| CredentialDetector.BoundedPatternsAreFound | internal/bundle/render.go:242-269 | patterns bounded by 257 bytes are found independently of the cut |
| CredentialDetector.AccessKeysAreFound | internal/bundle/render.go:202-205 | no cut hides an AWS access key ID |
| CredentialDetector.FoundWhateverTheCut | internal/bundle/render.go:242-269 | no way of cutting a nonempty stream into writes hides its matches if and only if one of them has at most 257 bytes |
| CredentialDetector.LongerMatchMissed | internal/bundle/render.go:202-205 | a concrete match of the second source pattern that two writes hide, with 300 spaces before the sign |
| Prefixes.CompactPrefixes | internal/services/s3/data.go:966-974 | comparing with the last kept prefix keeps exactly the minimal prefixes |
| Prefixes.Compact | internal/captureledger/identity.go:77-79 | adjacent repetitions of a sorted list are removed, nothing else |
| Prefixes.Normalize | internal/captureledger/identity.go:73-86 | any list is normalized to its minimal prefixes in order; no prefixes mean all keys |
| Prefixes.EachKeyOnce | internal/services/s3/data.go:136-141 | the compaction matches the same keys, each by exactly one prefix |
| Prefixes.CompactionUnique | internal/captureledger/identity.go:65-91 | the result depends neither on order nor on repetitions |
| Prefixes.CompactionIdempotent | internal/captureledger/identity.go:65-91 | normalizing twice changes nothing |
| KeyCache.EncodeDomainInjective | internal/governance/transform.go:127-137 | different lists of fields have different encodings, NUL, colons and digits included |
| KeyCache.SameEntrySameKey | internal/governance/transform.go:83-102 | rules that share a cache entry share their derived key |
| KeyCache.DerivedKeysTell | internal/governance/transform.go:111-125 | with one secret two derived keys are equal if and only if algorithm, profile, key ID, scope, service, resource, rule, kind and path are |
| KeyCache.Cache.Lookup | internal/governance/transform.go:84-93 | a hit or a fresh derivation is the derived key of the rule |
| KeyCache.Cache.Insert | internal/governance/transform.go:94-101 | an entry is added once, never replaced, and the derived key is returned |
| KeyCache.Interleave | internal/governance/transform.go:83-102 | under every interleaving of callers each call returns exactly the derived key of its rule, and entries never change |
| ManifestProjection.ProjectManifest | internal/inspect/project.go:17-119 | projects exactly the manifests with distinct snapshots and readable structures, into sorted components with their digests |
| ManifestProjection.ProjectData | internal/inspect/project.go:149-172 | the digest is that of the data with its chunks or artifacts in some key order |
| ManifestProjection.ProjectOperations | internal/inspect/project.go:62-67 | operations with sorted dependencies, in key order |
| ManifestProjection.ProjectGovernance | internal/inspect/project.go:198-216 | all four governance lists in key order |
| ManifestProjection.ProjectFindings | internal/inspect/project.go:219-226 | the same findings in key order |
| ManifestProjection.CollectStates | internal/inspect/project.go:27-61 | one state for every selected or captured identity, failing exactly on a repeated snapshot or an unreadable structure |
| ProjectionOrder.OrderDoesNotShow | internal/inspect/project.go:17-119 | permuting selections, snapshots, chunks, operations, dependencies, findings or governance lists, or moving artifacts, leaves projection and digest unchanged, though the sort is not stable |
| ProjectionOrder.ReorderedIsUnchanged | internal/inspect/compare.go:10-58 | comparing two arrangements of one manifest reports every resource, and reports it unchanged |
| ProjectionTells.DigestTellsContent | internal/inspect/project.go:17-147 | the projections of two manifests have the same digest if and only if the manifests have the same content, apart from order, artifact paths and the way structures are written |
| ProjectionTells.ProjectionSays | internal/inspect/project.go:17-147 | a projection has the source, target, operations, findings and governance of the manifest and one resource for every selected or captured identity, which says whether it was selected and has the digests of its own structure, data, operations and findings |
| ProjectionOrder.OneArrangement | internal/inspect/project.go:62-67 | sort.Slice has one result if and only if no two different elements share a key |
| ProjectionOrder.OneProjectionOfOperations | internal/inspect/project.go:62-67 | operations have one projection if and only if no two different ones, with sorted dependencies, share a key |
| ProjectionOrder.EmptyDependencyTies | internal/inspect/project.go:230-232 | a concrete pair of operations outside that condition |
| Comparison.Compare | internal/inspect/compare.go:10-58 | one change for every key of the union in order, with exact counts and categories |
| Comparison.ReceiptSaysRight | internal/inspect/compare.go:10-58 | one line for every resource of either side: added exactly if the baseline does not have it, removed exactly if the current side does not, and otherwise with exactly the categories of the components that differ |
| Comparison.BundleNames | internal/inspect/compare.go:60-78 | the categories of the receipt name exactly the parts of the bundles that differ |
| Comparison.CountsOfSides | internal/inspect/compare.go:33-55 | added is the number of keys of the current side only, removed that of the baseline only, changed and unchanged together that of both |
| Comparison.IndexedLast | internal/inspect/compare.go:80-86 | a key is indexed exactly if a resource has it, with the last one that has |
| Comparison.OneReceipt | internal/inspect/compare.go:10-58 | there is exactly one receipt, whatever order maps are ranged over |
| Comparison.CountsPartition | internal/inspect/compare.go:33-55 | the four counts add up to the size of the identity union |
| Comparison.CountsSwap | internal/inspect/compare.go:33-55 | swapping the sides swaps added and removed and keeps the rest |
| Comparison.UnchangedMeansSame | internal/inspect/compare.go:92-119 | a resource is unchanged if and only if nothing that is compared differs |
| Comparison.SelfComparison | internal/inspect/compare.go:10-58 | a projection compared with itself has no category and only unchanged resources |
| Comparison.NoBundleCategories | internal/inspect/compare.go:60-78 | no bundle category if and only if none of the five components differs |

## Left out

- ProtectedState.LoadSaved: asks for records below 4 GiB (`Addressable`), because the length field of the header has four bytes and a DynamoDB item has at most 400 KB.
- DynamoResume.Capture.Attempt: leaves out the credential detector, disk-space checks, progress events and context cancellation; a cancelled run behaves like a killed one.
- DynamoResume.Capture.Session: the table does not change between runs; the `resumed` flag of the dataset and findings of interrupted runs are not part of the result.
- S3Capture.Capture.Attempt: whether a download succeeds is given (`delivers`); rule counts are left out, because packs taken over from the ledger are not counted by the code.
- S3Capture.ReuseIsFresh: takes for granted that the ledger recorded artifacts of a capture, and that key, ETag, size and metadata digest determine the content of an object.
- CapturePool.FailureHasCause: takes for granted that adapters return a cancellation only after there was one.
- CredentialDetector.EverySplit: judges a match on its own bytes; regexp also decodes runes, so for a write that cuts one in two the code may see a match in a part that the whole stream does not have.
- ProjectionOrder.OrderDoesNotShow: asks for names without NUL and dependencies with a name.
- Installer.Installation.Install: removing the stage and the lock always succeeds.
- Ledger.Store.Publish: one publisher at a time, and fsync succeeds.
- Gzip and tar framing, HTTP headers and object tags inside S3 packs: `fetch` gives the finished archive and index.
- The reasons and times recorded for units, and the final sort of the units by ID.
- Governance of S3 metadata and bodies, and the other checks of a profile: rules reach `Govern` compiled, with trimmed paths.
- The order in which Go ranges over a JSON object with several type tags is arbitrary and given by a function.
- Symlinks, FIFOs, file modes, path checks and no-follow opens: a file is absent or regular.
- Most field checks of `Manifest.Validate` and `Generation.Validate`: they add only flat conditions.
- Rounding in the sum of consumed capacity, which is a float64 in the code.
- Arithmetic at the edge of 64 bits, and the estimate of the disk space needed.
- The user interface, configuration, rendering, replay and the structure-only adapters.
