# Kingfisher: attribution, storage, baselines and listing, verified

A Dafny model of the parts of Kingfisher, a secret scanner, whose results must not
depend on how they are computed.

**Git history attribution.** A scan of a Git repository lists every blob with the
commits that introduced it and the path at which each did. The plain way walks the
commit graph parents first, carrying the trees and blobs already seen. The fast way
drops blobs that cannot match, summarises each tree by a small set of candidates
(computed by workers that share one state array), skips trees that are clean or covered
by what ancestors have, and renumbers the rest. `TreeWalk` and `WalkMeaning` treat the
tree walk as a function and prove the simulation between two walks, and `WalkOrder` says
in which order a walk reports and by which path. `CommitHistory` says what a commit
introduces. `CandidateSummaries`, `RepositoryIndex`, `CommitGraph`,
`TreeTraversal`, `CommitWalk` and `GraphTraversal` are the code, in place and over dense
indexes, proved against that. `Enumerator.Run` puts them together: with or without
pruning, every blob has the eager run's appearances.

**Findings store.** `FindingRows` is the store as a list. `FindingsSpill` is a file with
faults. `FindingsStore` is the store that spills to it and stays in step with the list.

**Baselines.** `Fingerprints` reads fingerprint texts, digit by digit. `Baselines` orders
and normalises findings. `BaselineManagement` says what a managed baseline is and applies
one, `BaselineBuild` builds it, `BaselineExistence` shows that there always is one, and
`BaselineFixpoint` finds out exactly when building again changes nothing.

**Content gates.** `UnicodeGate`, `Base64Gate` and `ContentGates` decide which blobs are
worth walking the history for. They may keep too much but never too little; `Prepass`
joins them to the enumeration.

**Resumable listing.** `PathSelection` turns a selection into listing scopes,
`ObjectCache.dfy` keeps checkpoints and objects on disk, `ListingWorld` and `ListingRuns`
say what a run may rely on and what it keeps, and `AzureListing` and `GcsListing` are the
two loops. `AzureDownload` and `GcsDownload` fetch one object from a server that changes
between any two requests, and `ChangingBucket` follows the cache over any number of runs
against such servers, and says what a run that finishes has handed out.

Where something outside can go either way, the model leaves it open. A worker's
schedule is an arbitrary function that keeps to what every worker keeps to. Ready commits
are taken in any order. A script of faults decides what the findings' disk does. Durable
steps, requests and visitors may fail at every point of a listing, and
`Surroundings.Environment` counts how often they did, so that a run that fails for no
reason is ruled out.

Three results say exactly when a promise holds. Rebuilding a managed baseline is promised to
change nothing (`src/baseline.rs:766-784`). It does change the output for some earlier
baseline if, of two findings of one repository, one is listed behind another whose
sixteen-digit text also reads as it, and only then: `StableUnlessMisleading`, with a scan
that shows it. A Cloud Storage object without a positive generation is stored under the
tag of its metadata but is downloaded unconditionally (`src/gcs.rs:57-63`), so the tag may
belong to another version; `TagIsRightWhenPinned` says exactly when it cannot.
Spilling findings is to make no difference (`src/findings_store.rs:111-187`), but replacing
them leaves a metadata pool behind that spilling empties (`src/findings_store.rs:128-154`,
`218-229`); `SpillingShows` says exactly when that shows in the next row recorded, and
`Execute` proves that nothing shows while metadata depends on the blob only.

## Assumptions

- Content digests, the origin hash and the deduplication key are injective; a digest is
  modelled as the content itself.
- The object database does not change during an enumeration. A tree that cannot be read
  has no entries.
- For runs over a listing: the bucket does not change during one scan, continuation markers
  are finite in number, and a version label stands for one content. That each object is
  visited once needs, besides, that a scope lists it once. Overlap between scopes is not
  assumed away, it is proved impossible; and neither are circular listings.
- For downloads: a strong tag or a positive generation is never used for two contents.
- The regex scanner reports every rule that matches some window of what it is given.

## Model

| member | source | states |
|---|---|---|
| TreeWalk.Simulation | src/git_metadata_graph.rs:685-766 | Two walks of the same tree store, one entering extra trees that lead to nothing wanted: the smaller walk reports exactly the wanted part of the larger one's report, in the same order and at the same paths. Trees that bear nothing new are stuttering steps |
| TreeWalk.ScanMirrors | src/git_metadata_graph.rs:696-760 | Scanning one tree's entries in both walks keeps their worklists, seen trees and reports matched |
| TreeWalk.ScanStutters | src/git_metadata_graph.rs:696-760 | Scanning a tree that bears nothing wanted changes nothing in the smaller walk |
| WalkMeaning.WalkRefinesReference | src/git_metadata_graph.rs:685-766 | Any thorough walk, whatever else it enters or reports and whatever was seen before, reports the wanted blobs exactly as the walk of bearing trees only does |
| WalkMeaning.WalkIsExact | src/git_metadata_graph.rs:685-766 | A thorough walk reports a blob if and only if it is wanted and contained below the root, and every reported path names that blob from the root |
| WalkMeaning.IntroducedIsExact | src/git_metadata_graph.rs:671-766 | The reference attribution of a root holds exactly the wanted blobs below it, each at a true path |
| WalkMeaning.NamedIsContained | src/git_metadata_graph.rs:696-760 | A path that leads from the root to a blob witnesses that the root contains it |
| WalkOrder.WalkIsOrdered | src/git_metadata_graph.rs:685-766 | Which path and which order: each tree is visited once, under the first name it has in the tree that was visited first among those that list it; of the trees waiting, the next is the one listed last by the tree visited last; and the report is, visit by visit, the wanted blobs of the tree in the order of its entries |
| WalkOrder.IntroducedIsOrdered | src/git_metadata_graph.rs:671-766 | So are the blobs a commit introduces, in an order of visits that only depends on the trees which hold one of them |
| WalkOrder.ScanReports | src/git_metadata_graph.rs:740-757 | One tree's wanted blobs are reported in the order of its entries, under its path and their names |
| WalkOrder.ScanAdds | src/git_metadata_graph.rs:707-739 | Its new trees wait in the order of its entries, each by its first name |
| CommitHistory.InheritedFromParent | src/git_metadata_graph.rs:567-597 | A blob is in some proper ancestor's tree if and only if it is available at a direct parent: what lets one union over the parents stand for all ancestors |
| CommitHistory.AttributedIsExact | src/git_metadata_graph.rs:525-597 | The blobs attributed to a commit are exactly the candidates in its tree and in no proper ancestor's tree, at paths that name them |
| CommitHistory.AttributionCommutesWithFiltering | src/git_repo_enumerator.rs:108-152 | Filtering the candidates before the traversal gives the eager attribution filtered afterwards, order and paths included |
| ObjectIds.Bimap.Insert | src/git_metadata_graph.rs:128-143 | The first insertion of an ID appends it to the numbering, a later one changes nothing, and the table stays the inverse of the vector |
| ObjectIds.Bimap.GetIdx | src/git_metadata_graph.rs:147-153 | An index is found if and only if the ID was inserted, and it is that ID's own |
| ObjectIds.SelectAt | src/git_metadata_graph.rs:391-432 | Order-preserving selection moves a kept element to its rank among the kept ones |
| ObjectIds.SelectFrom | src/git_candidate_summaries.rs:75-83 | Every element of a compacted vector comes from exactly the selected position of its rank, whatever vector is compacted: two vectors compacted alike stay aligned |
| ObjectIds.SelectDistinct | src/git_metadata_graph.rs:358-369 | Re-indexing keeps IDs distinct |
| CommitGraph.Graph.GetCommitIdx | src/git_metadata_graph.rs:454-472 | A commit has one node; naming it again finds that node and can only add its tree |
| CommitGraph.Graph.AddCommitEdge | src/git_metadata_graph.rs:473-479 | Appends exactly one parent-to-child edge; parallel edges stay |
| CommitGraph.BuildGraph | src/git_repo_enumerator.rs:125-151 | The graph built edge by edge realises the plan of the commits read, skipping those that cannot be read or whose tree is not indexed |
| CommitGraph.PlanDescribesCommits | src/git_repo_enumerator.rs:125-151 | The graph says of the commits what they are: a commit has a root, its own tree, if and only if it is read and that tree is indexed, and there is an edge if and only if a commit that entered lists the parent |
| CommitGraph.NodesAreInOrder | src/git_repo_enumerator.rs:125-151 | Nodes are numbered in the order in which commits are first named, by themselves or as a parent |
| CandidateSummaries.SortedIsCanonical | src/git_candidate_summaries.rs:102-104 | Sorted duplicate-free candidate lists are equal when their sets are, so interning by list is interning by set |
| CandidateSummaries.EncodingsNeverCollide | src/git_candidate_summaries.rs:174-192 | Two exact 32-bit states that stand for the same candidate set are the same state: the clean, single and interned ranges and the interned sets never collide |
| CandidateSummaries.Merge | src/git_candidate_summaries.rs:95-105 | Adds exactly the candidates an exact state stands for to a bounded sorted list, and fails exactly when the state is not exact or the union exceeds the limit |
| CandidateSummaries.Summarize | src/git_candidate_summaries.rs:108-195 | Under every schedule of the other workers' writes: terminates even on cyclic tree references, returns and stores a state that, when exact, stands for exactly the tree's reachable candidates, gives up only for a reason below the tree (or a full interner), and leaves no tree above the depth cut unknown |
| CandidateSummaries.ReadTree | src/git_candidate_summaries.rs:129-163 | Collects the tree's own candidates and indexed subtrees exactly; it gives up only for a reason in the tree or below it |
| CandidateSummaries.MergeChildren | src/git_candidate_summaries.rs:164-173 | The merged list is the union of the tree's own candidates and everything below its children, in spite of concurrent writers; merging stops only for a reason below the tree |
| CandidateSummaries.Shared.Intern | src/git_candidate_summaries.rs:181-191 | Interning under the lock gives a state that decodes to the key's elements and moves no set interned before; it fails only when the interner is full |
| CandidateSummaries.Build | src/git_candidate_summaries.rs:40-63 | After all workers: no tree is unknown, every state that is not an overflow denotes exactly the tree's reachable candidates, and every overflow has a reason in or below the tree, or a full interner |
| CandidateSummaries.ExcusedByChild | src/git_candidate_summaries.rs:164-173 | A reason below a child is a reason for the parent |
| CandidateSummaries.HeldIsUnion | src/git_candidate_summaries.rs:129-173 | A readable tree holds what it lists and what its indexed subtrees hold |
| CandidateSummaries.Summaries.Relevant | src/git_candidate_summaries.rs:65-73 | Marks every tree that is not known to be clean |
| CandidateSummaries.Summaries.Retain | src/git_candidate_summaries.rs:75-83 | Keeps the states of the selected trees in order, and the interned sets as they are |
| CandidateSummaries.CoveredMeansHeld | src/git_candidate_summaries.rs:85-92 | A sound tree is covered if and only if its state is exact and all its reachable candidates are in the ancestor set |
| RepositoryIndex.Index.constructor | src/git_metadata_graph.rs:173-251 | Every readable object is numbered within its kind in database order, blobs below the minimum size excepted |
| RepositoryIndex.Index.RetainBlobIndexes | src/git_metadata_graph.rs:358-369 | The kept blobs stay in order under dense new indexes |
| RepositoryIndex.Index.PrepareCandidateTrees | src/git_metadata_graph.rs:371-385 | Summarising makes the index sound: every tree that holds a candidate is marked, any other only if its summary had to be given up, and the summaries mean what they say |
| RepositoryIndex.CoverageMeans | src/git_metadata_graph.rs:387-389 | A tree is passed over as covered if and only if its summary is exact and the commit's ancestors have all it holds |
| RepositoryIndex.Index.CompactCandidateTrees | src/git_metadata_graph.rs:391-432 | Compaction keeps the index sound and the graph rooted: each kept tree keeps its ID and summary together, each commit its root or, only when the root holds no candidate, none; without anything to drop it changes nothing |
| RepositoryIndex.RenumberTrees | src/git_metadata_graph.rs:408-418 | The renumbering is the selection of the old one, and the map sends each selected index to its rank and each other one to the sentinel |
| RepositoryIndex.RedirectNodes | src/git_metadata_graph.rs:422-427 | Each commit is redirected to the new index of the same tree, or to none |
| RepositoryIndex.CompactionLeads | src/git_metadata_graph.rs:391-432 | Dropping unmarked trees loses no tree that holds a candidate |
| RepositoryIndex.CompactionRoots | src/git_metadata_graph.rs:391-432 | A commit loses its root only if no candidate is below it |
| RepositoryIndex.RetainedAreSound | src/git_candidate_summaries.rs:75-83 | Summaries compacted together with the trees stay sound |
| BStringTable.Table.GetOrIntern | src/bstring_table.rs:73-84 | The symbol resolves to the string, earlier symbols and bytes stay, and it fails exactly when a new string would outgrow 32-bit offsets, which takes different names of that total length |
| BStringTable.Table.Resolve | src/bstring_table.rs:89-92 | For every symbol the table issued, gives the bytes it was issued for; symbols of a valid table never point outside its storage |
| BStringTable.SymbolsAreInjective | src/bstring_table.rs:73-84 | Symbols are equal if and only if the strings are, the empty string included |
| BStringTable.NamesAreStable | src/bstring_table.rs:73-92 | Issued symbol paths keep resolving to the same names as the storage grows |
| BStringTable.RenderSymbolPath | src/git_metadata_graph.rs:657-668 | Renders the slash-join of the original names |
| GitObjects.JoinedSplits | src/git_metadata_graph.rs:657-668 | Cutting a rendered path at its slashes gives the names back, so different paths of slash-free names are rendered differently |
| TreeTraversal.VisitEntry | src/git_metadata_graph.rs:696-760 | One entry over dense indexes and interned names tracks one step of the reference walk |
| TreeTraversal.VisitEntries | src/git_metadata_graph.rs:696-760 | All entries of a tree do |
| TreeTraversal.VisitTree | src/git_metadata_graph.rs:671-766 | The worklist loop reports what the reference walk reports, and afterwards knows the blobs known before and those reported, no others |
| CommitWalk.IndexIsThorough | src/git_metadata_graph.rs:708-725 | Skipping unmarked, covered and already seen trees loses no candidate that is not already known |
| CommitWalk.WalkAttributes | src/git_metadata_graph.rs:537-561 | A thorough walk with the inherited blobs as known reports the commit's attribution |
| CommitWalk.WalkHandsOver | src/git_metadata_graph.rs:537-567 | Afterwards the seen set knows exactly what is available at the commit, and every candidate below a seen tree: the invariant at commit boundaries |
| CommitWalk.NothingToAttribute | src/git_metadata_graph.rs:537-567 | A commit without a tree, or whose tree bears nothing, introduces nothing and hands on what it inherited |
| CommitWalk.VisitCommit | src/git_metadata_graph.rs:531-567 | One commit: introduces its attribution, hands on what is available at it |
| GraphTraversal.StuckMeansCyclic | src/git_metadata_graph.rs:589-600 | If every unprocessed commit has an unprocessed parent, the history has a cycle |
| GraphTraversal.RankedMeansAcyclic | src/git_metadata_graph.rs:589-600 | If every commit was processed after its parents, it has none |
| GraphTraversal.ArrivedKnowsAll | src/git_metadata_graph.rs:570-597 | Once all parents are processed, the union of what came along the edges is what all proper ancestors have |
| GraphTraversal.EdgeStep | src/git_metadata_graph.rs:571-597 | Visiting an edge, whether it hands over or merges a seen set, keeps the invariant |
| GraphTraversal.CommitStep | src/git_metadata_graph.rs:525-534 | Taking any ready commit keeps the invariant |
| GraphTraversal.ReadyIsUnvisited | src/git_metadata_graph.rs:525-533 | A popped commit was not popped before, all its parents were, and its seen set is present and right |
| GraphTraversal.Advance | src/git_metadata_graph.rs:525-597 | One turn of the worklist, whichever ready commit it takes, processes exactly that commit |
| GraphTraversal.AtTheEnd | src/git_metadata_graph.rs:598-600 | With nothing ready: either all edges are visited, all commits processed and the history acyclic, or it is cyclic |
| GraphTraversal.GetRepoMetadata | src/git_metadata_graph.rs:490-627 | For any order of ready commits: the result is the attribution of every commit, a function of the history alone, the cycle error comes only on cyclic histories and a result only on acyclic ones, and the interner fills up only when the names in the store exceed it |
| Enumerator.PruningPreservesAppearances | src/git_repo_enumerator.rs:108-252 | Pruning preserves meaning: a retained blob's ordered list of commits and paths is that of the eager run, empty lists of orphans included |
| Enumerator.AppearanceIsIntroduction | src/git_repo_enumerator.rs:165-235 | On an acyclic history every appearance is a readable commit with a committer that decodes, whose tree has the blob at that path and none of whose proper ancestors has it |
| Enumerator.IntroductionAppears | src/git_repo_enumerator.rs:165-235 | And every introduction of a candidate by a readable commit with a committer that decodes gives that commit an appearance |
| Enumerator.AppearancesAreComplete | src/git_repo_enumerator.rs:165-235 | A blob's appearances are exactly the places at which the walks of such commits list it, each with its path, in the order of the commit graph and then of the walk: none is left out, repeated or out of order |
| Enumerator.Credit | src/git_repo_enumerator.rs:222-231 | A commit's introductions are appended to the blobs they belong to, in order, and to no others |
| Enumerator.Run | src/git_repo_enumerator.rs:88-261 | End to end, with or without the content filter, under any schedule and pop order: the yielded blobs are the retained ones in index order, each with its eager appearances; there is no result only if the names in the store exceed the interner |
| Prepass.RetainContentCandidates | src/git_metadata_graph.rs:286-356 | The prepass keeps exactly the blobs within the size limit that are too large to look at, cannot be read, or pass the gate |
| Prepass.RetainedAreChosen | src/git_metadata_graph.rs:308-333 | The enumeration's filter, when it answers as the gate does, retains exactly those |
| Prepass.WorthwhileIsYielded | src/git_repo_enumerator.rs:108-120 | A scannable blob within the limit is yielded if it decodes as Unicode, has a match no longer than the overlap and one byte, hides decodable Base64, or cannot be read |
| Prepass.RejectedIsNotYielded | src/git_metadata_graph.rs:308-333 | A blob above the size limit, or one that the gate looked at and rejected, is not yielded once the prepass runs |
| Prepass.RunGated | src/git_repo_enumerator.rs:88-261 | Gate and enumeration together lose nothing: every such blob is listed with all its eager appearances |
| FindingRows.RecordAllConcat | src/findings_store.rs:291-376 | Recording a batch is recording its parts in turn, so chunk boundaries do not matter |
| FindingRows.PoolShares | src/findings_store.rs:350-353 | Shared metadata is that of the first row of the same blob, and everything else of a row is its own |
| FindingRows.RecordedBlobs | src/findings_store.rs:361-366 | The blobs known after recording are those known before and those of the rows added |
| FindingRows.PlainRecordAppends | src/findings_store.rs:291-376 | Recording without deduplication appends the batch, with blob metadata shared from the first row |
| FindingRows.DedupKeepsFirsts | src/findings_store.rs:291-376 | Deduplication keeps exactly the first occurrence of each new key, in order |
| FindingRows.DedupIsIdempotent | src/findings_store.rs:291-376 | Recording the same batch again with deduplication changes nothing |
| FindingRows.PoolAbsorbs | src/findings_store.rs:160-187 | Sharing metadata in a part first does not change what sharing over the whole gives |
| FindingRows.PoolOfSplit | src/findings_store.rs:160-187 | Rows put away and rows pending share metadata separately, and rebuild to the rows that were never split |
| FindingsSpill.Spill.Append | src/findings_store/spill.rs:88-113 | All rows or none: a failed append leaves what was saved, and only a failed rollback can damage the file |
| FindingsSpill.Spill.ReadBatches | src/findings_store/spill.rs:115-143 | Reads give exactly the saved rows, or an error when the file is damaged or a rule is unknown; never fewer or other rows |
| FindingsStore.LastIndexIsLast | src/findings_store.rs:369-372 | The index names a row of each blob and span, and no later row has them |
| FindingsStore.UpdatesReach | src/findings_store.rs:196-214 | Over all updates: the last row of each blob and span has the validation of the last update with that blob and span, and every other row and field is as before |
| FindingsStore.Store.Record | src/findings_store.rs:291-376 | Recording keeps the store in step with the in-memory list, and counts exactly the new blobs |
| FindingsStore.Store.EnableSpilling | src/findings_store.rs:111-126 | Storage that is full from the start leaves spilling off; any other fault is an error |
| FindingsStore.Store.RestoreSpilledWithCleanup | src/findings_store.rs:160-187 | A restore gives the in-memory rows, or leaves everything as it was; it fails exactly on unreadable or uncleared storage |
| FindingsStore.Store.SpillPending | src/findings_store.rs:128-154 | Whatever fault hits it, no row is dropped or duplicated: the rows are put away, or back in memory with spilling off if the storage is full, or still pending; and it is known exactly when it fails |
| FindingsStore.Store.RestoreSpilled | src/findings_store.rs:156-158 | On success everything is in memory as if it had never been spilled |
| FindingsStore.Store.UpdateMatchesInPlace | src/findings_store.rs:196-214 | The last row of each blob and span gets the validation of the last update with that blob and span; every other row and every other field stays as it was |
| FindingsStore.Store.ReplaceMatches | src/findings_store.rs:218-229 | Rows, index and blob set are those of the new rows; if metadata depends on the blob only, the store stays in step with the in-memory list that keeps its pool and keys |
| FindingsStore.Store.MergeFrom | src/findings_store.rs:542-551 | Chunked merging is recording the other store's rows at once, whatever rules that store was filled under |
| FindingsStore.Execute | src/findings_store.rs:111-376 | Spilling is invisible: after any interleaving of recording, merging, updating, spilling, restoring and changing rules, with any faults, deduplication keys and blobs are those of the plain list, and the restored rows are its rows; with replacing too, if the metadata of the rows of a script depends on the blob only. Only updating or replacing findings that are not in memory stops a script |
| FindingsStore.SpillingShows | src/findings_store.rs:160-229 | When spilling is not invisible: after rows of a store replaced its findings, recording one more row gives other metadata if spilled and restored than if not, if and only if its blob is in the old pool with other metadata and no replacing row has that blob |
| FindingsStore.ReplacementShows | src/findings_store.rs:111-376 | A script that records, replaces, spills, records and restores, after which a row has other metadata than in a store that never spills |
| Fingerprints.DecimalRoundTrip | src/baseline.rs:121-151 | Every 64-bit value is among the readings of its decimal form, and the only one unless that has sixteen digits |
| Fingerprints.PaddedHexRoundTrip | src/baseline.rs:121-151 | And of its sixteen-digit padded hexadecimal form, the only one if that has a letter |
| Fingerprints.PrefixedHexRoundTrip | src/baseline.rs:121-151 | And the only reading of its 0x and 0X forms |
| Fingerprints.SignedRoundTrip | src/baseline.rs:121-151 | With a plus sign the decimal form is read as one number, whatever its length |
| Fingerprints.OverflowIsNotRead | src/baseline.rs:121-151 | A number beyond 64 bits is not read at all |
| Fingerprints.CaseMakesNoDifference | src/baseline.rs:121-151 | Hexadecimal digits and the prefix may be in either case: texts that differ in case only have the same readings |
| Fingerprints.SpacesMakeNoDifference | src/baseline.rs:121-151 | Spaces, tabs and line ends around a text change no reading |
| Fingerprints.ReadingsAreFew | src/baseline.rs:121-151 | There are at most two readings, different and 64-bit, and two only for sixteen decimal digits |
| Fingerprints.ShadowIsHexReading | src/baseline.rs:121-151 | A decimal text reads as another fingerprint only if it has sixteen digits, and then as the larger number they spell in hexadecimal |
| Fingerprints.ShadowIsUnique | src/baseline.rs:121-151 | No fingerprint is the second reading of two decimal texts, and no two are second readings of each other's |
| Fingerprints.SomeShadow | src/baseline.rs:121-151 | Such a pair exists: ten and sixteen to the fifteenth |
| Baselines.NormalIsIdempotent | src/baseline.rs:461-474 | Sorting and removing adjacent duplicates twice is doing it once |
| Texts.TextLessMeans | src/baseline.rs:464-471 | Texts are ordered by the first character in which they differ, and a proper prefix comes first |
| Baselines.SortIsStable | src/baseline.rs:464-471 | Sorting permutes the entries, and entries that compare equal stay in their order |
| Baselines.DedupKeepsStarts | src/baseline.rs:471-471 | Exactly the first entry of each run of equal fingerprints is kept, in order |
| Baselines.SortedIsUnique | src/baseline.rs:464-471 | Sorted listings with the same entries and distinct fingerprints are equal |
| BaselineManagement.ContextsAreLeast | src/baseline.rs:214-233 | Each repository of a finding is listed once, with the least of the finding's paths in it |
| BaselineManagement.ContextsFallBack | src/baseline.rs:229-233 | A finding none of whose origins has a context belongs to the narrowest root, under the empty path, if there is a root; any other belongs to its contexts only |
| BaselineManagement.FindContexts | src/baseline.rs:214-239 | The loop over the origins finds these contexts, or the narrowest root when there are none |
| BaselineManagement.ManagedIsUnique | src/baseline.rs:390-482 | The output depends only on the old baseline, the roots and the set of observations: the order of findings and origins does not matter |
| BaselineManagement.EntryIsFirst | src/baseline.rs:412-447 | An entry of a scanned repository is an observation of its fingerprint there that none other precedes by path, then line, then rule; it is dated by the finding's history, the later date only if the place is the same |
| BaselineManagement.ObservedIsListed | src/baseline.rs:412-458 | Every finding observed in a repository is listed there |
| BaselineManagement.ListingsAreInOrder | src/baseline.rs:461-471 | Every listing is ordered by path, then line, then rule, then fingerprint text |
| BaselineManagement.MatchStore.ApplyLoadedBaseline | src/baseline.rs:355-382 | Hides exactly the known findings: listed by the legacy list, or by every one of their repositories; never makes one visible, and an unsupported file changes nothing |
| BaselineManagement.ManagedHidesItsScan | src/baseline.rs:355-482 | Manage, then apply: the baseline built from a scan hides every finding of it that has a context |
| BaselineBuild.BuildManagedBaseline | src/baseline.rs:390-482 | The loops build a managed baseline: per scanned repository one entry for each fingerprint observed there, at the least path, line and rule and with its history, in order of path, line, rule and fingerprint; other repositories keep their normalised findings |
| BaselineBuild.RememberAll | src/baseline.rs:401-410 | The history map holds, for each repository and reading, the first listed finding |
| BaselineExistence.ManagedExists | src/baseline.rs:390-482 | For every earlier baseline, roots and observations there is a managed baseline |
| BaselineFixpoint.PreviousIsFirstReading | src/baseline.rs:401-410 | In a sorted baseline the history of a finding is what its repository's own listing reads first |
| BaselineFixpoint.OwnEntryIsPrevious | src/baseline.rs:437-447 | Without a misread finding, the entry listed for a finding is the history the next build takes for it |
| BaselineFixpoint.RebuildingChangesNothing | src/baseline.rs:390-482 | A managed baseline is a fixpoint at any later time, unless two findings observed in one repository are misread: one listed behind another whose sixteen-digit text also reads as it |
| BaselineFixpoint.MisreadHistory | src/baseline.rs:401-447 | A misread finding is given the other's history |
| BaselineFixpoint.MisreadRebuildChanges | src/baseline.rs:390-482 | For every misread pair there is an earlier baseline from which any two builds in a row differ, at any two times |
| BaselineFixpoint.StableUnlessMisleading | src/baseline.rs:390-482 | The condition is exact: building again from the output gives it back for every earlier baseline and any two times if and only if no finding of the scan is misread |
| BaselineFixpoint.SomeScanIsNotStable | src/baseline.rs:390-482 | There is such a scan: two findings in two files of one root, with the fingerprints ten and sixteen to the fifteenth |
| Bytes.TwoLanes | crates/kingfisher-core/src/encoding.rs:81-86 | The two byte lanes of a buffer share out its zeros |
| Bytes.FourLanes | crates/kingfisher-core/src/encoding.rs:81-86 | And so do the four |
| UnicodeGate.RequiredIsCeiling | src/git_candidates.rs:134-136 | The overflow-free formula is three fifths of the units rounded up, for every length |
| UnicodeGate.LanePasses | src/git_candidates.rs:121-137 | An even buffer of eight bytes or more with at least 60% zeros in either lane passes |
| UnicodeGate.GuessNeedsZeros | crates/kingfisher-core/src/encoding.rs:76-105 | Every lane heuristic that names an encoding needs that many zeros overall |
| UnicodeGate.ZeroCountsAreInvisible | crates/kingfisher-core/src/encoding.rs:65-106 | The zero counts in front of the lane heuristics change no guess |
| UnicodeGate.GateKeepsUnicode | src/git_candidates.rs:121-137 | Every buffer the decoder would decode, by mark or by guess, passes the gate |
| UnicodeGate.TextIsDetected | crates/kingfisher-core/src/encoding.rs:4-106 | ASCII text in UTF-16 or UTF-32 of either byte order is recognised as what it is, with its mark always and without one from four characters on |
| UnicodeGate.ScoredLane | crates/kingfisher-core/src/encoding.rs:81-86 | A lane scores if and only if it has more than one byte and at least three fifths of it are zeros |
| UnicodeGate.ScalarsAre | crates/kingfisher-core/src/encoding.rs:6-18 | After the mark that UTF-16 and UTF-32 share, the rest is UTF-32 if and only if it is made of whole units and each is a character |
| UnicodeGate.TextIsNotUnicode | src/git_candidates.rs:121-137 | Bytes without zeros and without a mark are neither decoded nor kept |
| UnicodeGate.NullsAreNoText | crates/kingfisher-core/src/encoding.rs:87-105 | Zeros alone, of any number, are not taken for text |
| Base64Gate.EncodingIsExact | src/git_candidates.rs:192-213 | On every encoding in either alphabet (sections 4 and 5 of RFC 4648) the high-bit test holds if and only if the payload is ASCII |
| Base64Gate.QuartetIsExact | src/git_candidates.rs:203-213 | One quartet of symbols shows the high bits of its three bytes |
| Base64Gate.OnlySymbolsAreBase64 | src/git_candidates.rs:165-190 | A byte belongs to a run if and only if it is a symbol of one of the two alphabets |
| Base64Gate.TestVectors | src/git_candidates.rs:192-213 | The encoding used to state the above agrees with the test vectors of section 10 of RFC 4648 |
| Base64Gate.RunIsUnique | src/git_candidates.rs:165-190 | A standalone run, padding included, is fixed by where it starts |
| Base64Gate.PossibleBase64 | src/git_candidates.rs:165-190 | The single pass answers yes if and only if some standalone run of 32 bytes or more, in quartets, shows no high bit |
| Base64Gate.EmbeddedEncodingIsFound | src/git_candidates.rs:165-190 | The encoding of an ASCII payload is found wherever it stands alone in a buffer |
| Base64Gate.LoneEncodingIsExact | src/git_candidates.rs:165-213 | With no other symbols around, the gate passes a long enough encoding if and only if the payload is ASCII |
| Base64Gate.GateCoversDecoder | crates/kingfisher-scanner/src/primitives.rs:214-265 | Whatever the ordinary decoder would keep, padded or not, the gate keeps |
| ContentGates.WindowIsScanned | src/git_candidates.rs:92-113 | For any segment size greater than the overlap, every window of at most one byte more than the overlap lies wholly in one scanned segment |
| ContentGates.LongerWindowIsMissed | src/git_candidates.rs:92-113 | The bound is sharp: a window one byte longer across the first boundary lies in none |
| ContentGates.ScanSegments | src/git_candidates.rs:92-113 | The segment loop terminates and reports if and only if some segment reports one of the gate's rules |
| ContentGates.MayMatch | src/git_candidates.rs:79-118 | The gate passes exactly the blobs with something in them that the matcher may look at |
| ContentGates.DecodableIsKept | src/git_candidates.rs:115-117 | A gate that looks into Base64 keeps every blob within its limit in which the decoder finds text |
| ContentGates.PlainTextIsRejected | src/git_candidates.rs:79-118 | And the gate is of use: ASCII text in which no rule is reported, and every 30 bytes of which hold one that is no Base64 symbol, is rejected unless it looks like an archive |
| ContentGates.RejectedHoldsNothing | src/git_candidates.rs:79-118 | No false negatives: a rejected blob is not decoded, hides no Base64 text, and the matcher's own scan reports nothing in any of its segments, whatever the length of a match; so it has no match of at most one byte more than the overlap anywhere |
| ContentGates.RawMatches | src/matcher/mod.rs:276-320 | Scanning the segments backwards, the matcher gets a raw report if and only if some segment has one of a rule it knows |
| PathSelection.ListingPrefixes | src/path_selection.rs:35-59 | One pass over the sorted prefixes gives the listing scopes |
| PathSelection.ScopesAreSound | src/path_selection.rs:35-59 | No scope begins with another, none is excluded, and every prefix asked for is below a scope or excluded |
| PathSelection.StaysDisjoint | src/path_selection.rs:50-57 | Comparing with the last scope is enough, because the prefixes are sorted |
| PathSelection.SelectedIsCovered | src/path_selection.rs:35-74 | Every selected path of the source lies in a scope |
| PathSelection.ScopeIsUnique | src/path_selection.rs:35-59 | And in one only |
| PathSelection.ScopesStayInSource | src/path_selection.rs:35-59 | Nothing is listed outside the source's own prefix, outside the prefixes asked for, or below an excluded one |
| ObjectCaches.Open | src/object_cache.rs:59-110 | However opening ends, the scan state the next run starts from is unchanged; when it succeeds, memory is what manifest and journal give back, or a new scan that may reuse the objects of the last one; it fails only if something outside does or the selection changed |
| ObjectCaches.ReplayPages | src/object_cache.rs:112-148 | Replaying the complete lines gives the manifest with every page applied in order |
| ObjectCaches.ObjectCache.Read | src/object_cache.rs:159-176 | Gives back only bytes that match the recorded digest |
| ObjectCaches.ObjectCache.Cached | src/object_cache.rs:186-200 | A hit needs a nonempty identity and the same version, and gives the recorded bytes; with both, and the file there, it is a hit unless the file is damaged or cannot be read |
| ObjectCaches.ObjectCache.Store | src/object_cache.rs:202-211 | The object becomes pending, its file holds it, and memory stays what the disk and the pending objects say |
| ObjectCaches.ObjectCache.FinishPage | src/object_cache.rs:213-228 | A page is journaled whole or not at all |
| ObjectCaches.ObjectCache.Finish | src/object_cache.rs:230-259 | Sweeping removes no completed object, and the manifest either stays or is that of the finished scan; on success only completed objects are left, on disk and on record, and the journal is empty |
| ListingWorld.ReplayCompletes | src/object_cache.rs:112-148 | The objects a journal completes are exactly those on the pages it records |
| ListingWorld.ReplayResumes | src/object_cache.rs:178-184 | A scope is complete exactly when its last page is recorded, and otherwise resumes with the marker of the next page |
| ListingWorld.ListedOnce | src/azure_blob.rs:427-430 | Because scopes do not overlap, no object is listed in two places |
| ListingWorld.SelectedIsExact | src/azure_blob.rs:460-492 | Over a listing of one bucket, what the scopes list for visiting is exactly what the bucket holds and the selection wants: a name with one of the prefixes asked for and none excluded, of an object that is no directory, not too large and there |
| ListingWorld.EndsUnlessCyclic | src/azure_blob.rs:452-459 | With finitely many markers, the listing of a scope comes to an end if and only if it never repeats one |
| ListingWorld.NoScopeCycles | src/azure_blob.rs:452-459 | So if every scope came to its end, none runs in a circle |
| ListingRuns.Obtain | src/azure_blob.rs:493-524 | A cached object is used only for the version listed and then is the object's bytes; recorded objects never fail their checksum, and are not downloaded again while their file is there; it fails only if the disk or the download does |
| ListingRuns.VisitEntry | src/azure_blob.rs:498-528 | A visit stores and hands out the object's own bytes, or is a miss of that object that stores nothing; an error or a miss takes a failure outside |
| ListingRuns.Checkpoint | src/azure_blob.rs:530-532 | Whether or not the append succeeds, the journal stays a faithful record |
| ListingRuns.PageStep | src/azure_blob.rs:446-532 | If the listing names each object once, those of a scope's next page were not visited before; in any case the run stays in step with what it records |
| ListingRuns.ReplayCompleted | src/azure_blob.rs:419-423 | A run hands out exactly what earlier runs completed, and none of it can have been lost |
| ListingRuns.AllScopesDone | src/azure_blob.rs:427-542 | When every scope is at its end, the visited objects are exactly those to be visited, and each once if the listing names it once |
| ListingRuns.AllScopesMet | src/azure_blob.rs:427-547 | A run that goes through its scopes passes over nothing that is to be visited, even after a miss |
| AzureListing.VisitScope | src/azure_blob.rs:427-538 | For any listing with finitely many markers, circular or not: terminates because a repeated marker is refused, refuses one only if the listing runs in a circle, stops otherwise only if something outside fails, resumes where earlier runs left off, and if it gets through, the scope has an end and everything on its pages was tried; without a miss it is complete and no other scope is touched |
| AzureListing.Visit | src/azure_blob.rs:399-549 | Any run from any disk earlier runs left, over any listing with finitely many markers: the disk stays right, nothing is checkpointed or finished after the first miss, everything to be visited is still tried, a circular listing is never finished, and a run that finishes has visited exactly the objects to be visited, with their bytes, each once if the listing names it once, and all names it was shown could be decoded. Conversely a run completes unless something outside fails, the selection changed, a scope runs in a circle, or a name cannot be decoded |
| AzureListing.Scan | src/azure_blob.rs:399-549 | So after any number of aborted or partly failed runs the first complete one has it all, and there is none if a scope runs in a circle; if none does and all names can be decoded, there is one as soon as there are more runs than failures |
| GcsListing.VisitScope | src/gcs.rs:205-288 | The same for token paging that goes through a page before looking at its token, and that a failed download ends |
| GcsListing.Visit | src/gcs.rs:184-294 | A run visits exactly the objects to be visited, each once if the listing names it once, or is given up; there is no partial success, a circular listing is never finished, and giving up takes a failure outside, a changed selection or a circular listing |
| AzureDownload.ReadBody | src/azure_blob.rs:317-334 | The body is the concatenated chunks; it is too large if and only if they or the announced length exceed the limit, and interrupted only if the stream breaks off |
| AzureDownload.GetResponse | src/azure_blob.rs:281-315 | At most four requests, and four before a throttled response is passed on; a response to a conditional request carries the tag asked for |
| AzureDownload.DownloadBlob | src/azure_blob.rs:336-372 | While the blob changes between any two requests: the bytes are the blob's at one moment of the download, a tag in their label is its tag then, they fit the limit, only a missing or too large blob is skipped, it fails only if the server refuses a request or breaks off a body, and there are at most eight requests |
| GcsDownload.DownloadCurrentObject | src/gcs.rs:46-104 | At most two downloads and one refresh; within the limit; with a positive generation the bytes and their label belonged together at some moment; only a missing, too large or twice replaced object is skipped, one listed as too large without any request, and it fails only if the server does |
| GcsDownload.SameLabel | src/gcs.rs:23-33 | Labels are equal only for metadata that agree in date, size and generation or tag |
| GcsDownload.TagIsRightWhenPinned | src/gcs.rs:23-63 | Over histories a server can have: the stored identity always stands for bytes the object had under it if and only if the listed generation is positive or there is no identity; otherwise a replacement between metadata and download puts one version's tag on another's bytes |
| ChangingBucket.Look | src/azure_blob.rs:493-528 | While the bucket changes: bytes handed out, from the cache or a download of either provider, were the object's own; on Azure the tag in their label was theirs, and on Cloud Storage the label is that of metadata the object had, of the same version if the generation is positive. An unchanged object is handed out unless its download failed, and that takes a failure of the server |
| ChangingBucket.RealStands | src/azure_blob.rs:336-372 | A label so kept stands for its bytes, always on Azure and on Cloud Storage if every tagged version of the object has a positive generation |
| ChangingBucket.LabelsStandWhenPinned | src/gcs.rs:23-63 | On Cloud Storage that is exact: labels taken from given metadata always stand for the bytes kept under them if and only if its generation is positive or it has no tag |
| ChangingBucket.HitIsWhatIsListed | src/object_cache.rs:186-200 | A cache hit gives the bytes of every version that shows the identity: on Azure if tags are strong, on Cloud Storage if generations are positive and name one version each |
| ChangingBucket.Churn | src/object_cache.rs:50-264 | Over any number of runs that use the cache in any order and break off anywhere: all bytes handed out or recorded were the object's own, under a label of metadata the object had, and the label stands for them under RealStands' condition |
| ChangingBucket.RunOver | src/azure_blob.rs:416-528 | Whatever changes meanwhile, a run that finishes hands out, with its bytes, every object that did not change and was listed in it or recorded by the runs it resumes |

## Left out

- Exclude globs: a tree is marked seen once its own path passes, while a blob in it may still be excluded there, so the closure invariant is stated without them.
- Deadlines, progress counters, logging, and author and committer details of a commit.
- Pack access and the Rayon scheduler: the object store is a value, and workers are interleaved steps; weaker memory orders than interleaving are not modelled.
- Sharing and copy-on-write of seen sets: they are values, because handing one over or copying it is the same to its readers.
- The heap order of ready commits: any ready commit may be next, which covers it.
- The 32-bit limit on the number of indexed objects; the sentinel of compaction and the 32-bit offsets of the interner are modelled.
- Tags: they are counted but take no part in attribution.
- FindingsStore.Execute: scripts that replace findings must have metadata that depends on the blob only; without that spilling shows (FindingsStore.SpillingShows, FindingsStore.ReplacementShows).
- Rule summaries, repository links and access maps of the findings store, and how a deduplication key is put together.
- Resolving a path to a scan root and canonical repository IDs: a function from origins to contexts and the ordered list of root IDs stand for them.
- Reading and writing baseline files, their JSON and YAML forms, and file replacement.
- The archive gate: a function of the blob; its formats belong to parsers that are not part of this model.
- ContentGates.RejectedHoldsNothing: what a rule matches in a rejected blob but the matcher's segments do not show (ContentGates.LongerWindowIsMissed) is not covered, and neither are matches of an empty blob; the matcher reports neither.
- Enumerator.IntroductionAppears: a blob below a subtree that a commit reaches by several paths is listed once for that subtree, at the path the walk takes first; which path that is, WalkOrder.WalkIsOrdered says.
- Decoding itself: which buffers are decoded is modelled, not the text they give.
- Listing without a cache directory: it is the first run of a scan with one, without the durable steps.
- Version-one manifests in progress without a journal: an in-progress manifest is taken to be one that the present code saved.
- ListingRuns.Obtain: the bucket is fixed during a scan here; for one that changes, ChangingBucket.Look and ChangingBucket.Churn say what is handed out.
- ListingRuns.VisitEntry: the same; for completeness while others change see ChangingBucket.RunOver.
- AzureDownload.DownloadBlob: the tag in a label is sound; the modification date and size of a blob listed without a tag may be older than its bytes, and such a label is never matched by the cache.
- The cache's directory lock, its protection against links, and temporary files.
- Authentication, URL building and escaping, XML and JSON parsing, and the listing size cap; a malformed or oversized listing is a failed request.
- Retry delays, and retries inside the Cloud Storage client library.
- Other providers, validators, access maps, reports and command line handling.
