# A verified model of Pollard

Pollard keeps a content-addressed, append-only tree of agent steps. A governed run records into it, replays from it
and budgets against it. This project models that core in Dafny and proves what its parts promise together.

`dafny verify dfyconfig.toml` checks everything.

## Layout

- `Order`, `JsonValue`, `Forest`, `ForestChange`: sorted enumerations, JSON documents with Python's own equality
  beside the structural one, node records, and the theory of forests: ancestry, the sorted depth-first preorder, and
  how both react to new, relabelled and removed nodes.
- `Store`: the in-memory store as a class, specified by a put function on its contents.
- `MergeMeta`, `MergeLaws`, `MergeNode`, `MergeKeeps`, `Merge`, `MergeOutcome`, `MergeStores`: the metadata join and its
  laws, the merge of one node, done once and twice, what it keeps, the merge of a plan as a fold, when it is refused and
  what it counts, and the loops that refine them.
- `Spool`, `SpoolMerge`: the disk-backed plan, its framed digest and its validation.
- `Seal`, `GarbageCollection`, `Manifest`, `ManifestTrees`, `Staging`, `Transfer`, `TransferLaws`: rolling seals,
  drop-pruned collection, the export and import of subtrees, and what their seals fix.
- `Pointer`, `Schema`, `SchemaErrors`, `Validation`, `SchemaRefs`: JSON Pointers (RFC 6901), expansion of local
  references, when it fails, and the validator as the meaning that expansion must preserve.
- `Difference`, `DifferenceReport`: the truncating structural diff against the unbounded one, and the places it lists.
- `Approvals`, `Agreement`, `Decisions`, `ApprovalPolicy`, `ApprovalGrants`: approval records, the agreement protocol over
  interleaved store steps, the sequential procedure, the policy, and exactly when it grants an action.
- `Spending`, `Governor`, `Lifecycle`, `Operations`, `Run`: charges below an anchor, budget checks, the outcome of a
  call for every way it can end, the operations on a handle, and the class whose methods carry them out.
- `CallRecords`, `BudgetCheck`, `Refusals`, `HandleMoves`: what those outcomes are in terms of the step, the limits and the
  tree: what a call records, what a budget lets through, what a refusal says, where a handle goes.
- `BudgetEffects`, `BudgetBound`, `Overshoot`, `Replay`, `GovernedRun`: whole-run results over any number of handles.

## Conventions

- Hashes and canonical texts are arbitrary functions held in the `Encoding`, `Rules`, `Codec` and `Config` values. A
  result that needs one of them injective says so in its `requires`. No hash with a fixed format is injective, so the
  format check on digests is a parameter as well.
- Meters are functions from a kind and payload to an estimate, and from a result to an integer charge.
- A `Script` holds everything outside the runtime that decides how a call goes: what the step gives or raises, which
  measurement, lease, charging, settlement or release fails, and how the arbiter answers.
- An agreement schedule is any finite list of actions: a call begins, a call makes its next store step, or somebody
  else puts a node or patches metadata. A call that stops is one that is never advanced again.
- The lazy reading of a schema bounds how many references may be followed inside one another by a number `n`; the
  result holds for every `n` that is at least the number of reference pointers in the document.

## Where the code and its promises differ

- Merging compares values with Python's `==`, for which `True` equals `1`. Two things are lost without a conflict: an
  incoming boolean against the equal stored number (`MergeKeeps.BooleanLost`), and incoming list entries where the
  union equals the stored list for Python and is therefore not written (`MergeKeeps.ListLost`). The exact condition for
  a merge to lose nothing is proved for all metadata (`MergeKeeps.MergeDiscardsNothing`).
- A second merge is meant to find nothing to do. With hand-written metadata it may still change or report something
  (`MergeNode.TrueArrivesLate`, `MergeNode.RepeatedRecords`). When it does is characterized exactly
  (`MergeNode.MergeSettles`, `MergeNode.CopySettles`, `Merge.MergeTwice`), and it never does where only puts and
  merges wrote the conflict lists (`Merge.WrittenPlanSettles`).
- A new entry in a list of result conflicts that repeats a value is not counted (`MergeNode.ResultCounted`,
  `MergeNode.RepeatedUncounted`).
- The two merge directions agree on all keys below the top level, but not on an empty conflict list that only one side
  has (`MergeLaws.MergeSymmetric`, `MergeLaws.EmptyListOneSided`).
- A conflicting result replaces result conflicts that are not a list, the existing ones
  (`MergeKeeps.MergeKeepsExisting`) as well as incoming ones, which the condition above covers.
- Strict replay needs a result for every call. A call whose node was already stored without one returns normally in
  record mode, keeps the first (absent) result, and cannot be replayed (`Replay.ReplayCanMiss`). This is the only
  exception (`Replay.StrictReplaySimulates`), and it needs a store that already held such a call: a fresh run always
  replays (`Replay.AnsweredReplays`, `Replay.FreshRunReplays`).
- A null `$ref` is treated as an ordinary keyword by the expansion but still counts as a reference for the search, so
  a resolved schema may still report local references (`SchemaRefs.NullRefRemains`, `SchemaRefs.ResolvedDocument`).
- A pointer into an array accepts an index with leading zeros, which section 4 of RFC 6901 does not
  (`Pointer.LeadingZeroAccepted`, `Pointer.AcceptedIndex`).
- The diff shows a difference at the root as `/`, which as a pointer names the member with the empty name. Such an entry
  resolves only if a document has that member (`Pointer.SlashTarget`, `Difference.ReportedPointersResolve`).
- A boolean among recorded charges makes the budget check before a call raise, once the node lies below a budget anchor
  (`Spending.RecomputeCharges`). A call that passed its check cannot meet one later (`Spending.PutKeepsClean`).

## Model

| member | source | states |
|---|---|---|
| `Store.PutWellFormed` | src/pollard/store.py:38-48 | A put keeps the forest well formed: the node is either new, below a stored parent, or one whose id, parent and kind are already there. |
| `Store.PutExtends` | src/pollard/store.py:94-109 | A put loses no id, identity or stored result: the first writer wins. |
| `Store.PutSucceeds` | src/pollard/store.py:38-48 | With injective ids a put fails only for an invalid node, a missing parent, or noted conflicts `list` raises on: a number, a boolean or null. |
| `Store.PutNotes` | src/pollard/store.py:94-109 | A second put of an id changes no other node, no field and no result; a result that differs is appended, with its digest, to the list of noted ones, and no other metadata changes. |
| `Store.SameIdSameIdentity` | src/pollard/store.py:94-97 | With injective ids the identity-collision branch is never taken by valid nodes. |
| `Store.AncestorSame` | src/pollard/store.py:38-48 | Growing the store changes no ancestry between nodes already in it. |
| `Store.PopStep` | src/pollard/store.py:69-74 | Popping the stack and pushing the children in reverse is one step of the recursive preorder. |
| `Store.MemoryStore.PutNode` | src/pollard/store.py:38-48 | The class method changes the contents exactly as the put function says, leaves them alone on an error, and keeps the child index exact. |
| `Store.MemoryStore.HandleExisting` | src/pollard/store.py:94-109 | An equal or absent result changes nothing; another one is appended to the list of the noted conflicts, which for a text is its characters and for an object its keys; a different identity is refused. |
| `Store.MemoryStore.ChildrenOf` | src/pollard/store.py:56-60 | Exactly the children, sorted by kind name and id. |
| `Store.MemoryStore.UpdateMeta` | src/pollard/store.py:62-67 | Lays the patch over the metadata of that node and changes nothing else. |
| `Store.MemoryStore.Walk` | src/pollard/store.py:69-74 | The explicit-stack traversal ends and yields the recursive preorder. |
| `Store.MemoryStore.RootIds` | src/pollard/store.py:76-80 | The parentless nodes, sorted by run label and id. |
| `Store.MemoryStore.DropNodes` | src/pollard/store.py:82-89 | Removes any given nodes and rebuilds an exact index; the store stays valid exactly when everything below a removed node is removed too. |
| `Store.DropWellFormed` | src/pollard/store.py:82-89 | What a removal leaves is a forest exactly when whole subtrees were removed. |
| `Store.Sort` | src/pollard/store.py:58-60 | Listing a set one insertion at a time gives its one sorted enumeration. |
| `Forest.RankIsNameOrder` | src/pollard/tree.py:17-22 | Ordering kinds by rank is ordering them by wire name. |
| `Forest.PreorderMembers` | src/pollard/store.py:69-74 | A walk visits exactly the descendants. |
| `Forest.PreorderDistinct` | src/pollard/store.py:69-74 | A walk visits no node twice. |
| `ForestChange.ParentsFirst` | src/pollard/store.py:69-74 | A walk yields every node after its parent. |
| `ForestChange.InsertSubtree` | src/pollard/store.py:38-48 | A new node joins exactly the subtrees its parent lies in. |
| `ForestChange.DropPreorder` | src/pollard/store.py:82-89 | After removing whole subtrees a walk is the old walk with the removed nodes left out. |
| `MergeMeta.JoinIdempotent` | src/pollard/merge.py:355-381 | Joining the same value a second time changes nothing and records the same conflicts. |
| `MergeMeta.MetaIdempotent` | src/pollard/merge.py:333-352 | Merging the same metadata twice changes nothing and counts no new conflict. |
| `MergeMeta.UnionCommutes` | src/pollard/merge.py:388-390 | The list union does not depend on the order of its arguments. |
| `MergeMeta.SplitJoined` | src/pollard/merge.py:375-381 | The path of a conflict record can be read back when no key holds a dot. |
| `MergeLaws.MergeSymmetric` | src/pollard/merge.py:333-352 | Both merge directions record the same conflict list, count the same and have the same keys at every level below the top. At the top the keys agree exactly when both sides or neither have a conflict list, or some conflict is listed. |
| `MergeLaws.EmptyListOneSided` | src/pollard/merge.py:336-351 | An empty conflict list on one side only: one direction keeps the key, the other has none. |
| `MergeLaws.ConflictsSwap` | src/pollard/merge.py:355-381 | Every conflict of one direction is the swapped conflict of the other. |
| `MergeLaws.JoinSameKeys` | src/pollard/merge.py:355-381 | Both directions of a join have the same keys at every level, and equal lists. |
| `MergeLaws.JoinKeepsIncoming` | src/pollard/merge.py:355-381 | Every part of the incoming value survives at its path or in a conflict exactly when, wherever the two sides are equal for Python, the incoming content is in the existing one. |
| `MergeLaws.JoinKeepsExisting` | src/pollard/merge.py:355-381 | Every part of the existing value survives at its path. |
| `MergeKeeps.MergeDiscardsNothing` | src/pollard/merge.py:300-323 | After the merge of a node the stored metadata holds all the incoming metadata, in place or in a record that shows both sides, all incoming records and the incoming result, exactly when every key survives the join and, where the write is skipped, the existing metadata held all of it before. |
| `MergeKeeps.MergeKeepsExisting` | src/pollard/merge.py:300-323 | The existing content stays at its path and its records stay; only result conflicts that are no list are replaced when the results differ. |
| `MergeKeeps.BooleanLost` | src/pollard/merge.py:355-360 | A loss in the join: an incoming `true` against a stored `1` disappears without a conflict. |
| `MergeKeeps.ListLost` | src/pollard/merge.py:322-323 | A loss by the skipped write: an incoming `[true]` against a stored `[1, 1]` disappears without a conflict, although the lists differ. |
| `MergeNode.MergeSettles` | src/pollard/merge.py:300-323 | Merging a node a second time is a no-op that reports nothing, exactly unless the pair is restless: after a skipped write, an unrecorded conflict or result entry; after a written one, incoming result conflicts the noted list lacks and Python tells apart from it. |
| `MergeNode.LateLists` | src/pollard/merge.py:307-323 | For two lists and a written merge that means: Python calls them equal, the incoming one holds a value that is neither in the existing one nor the new entry, and the list with the new entry differs from it. |
| `MergeNode.TrueArrivesLate` | src/pollard/merge.py:307-323 | It happens: existing result conflicts `[1]`, incoming `[true]`, and results that differ. |
| `MergeNode.WrittenSettles` | src/pollard/merge.py:300-323 | Between metadata that only put and merge wrote no pair is restless. |
| `MergeNode.NewConflictsCount` | src/pollard/merge.py:349-352 | The count is never negative, and zero exactly when every conflict is on record on either side. |
| `MergeNode.ResultCounted` | src/pollard/merge.py:313-320 | A conflicting result is counted exactly when its entry is new and the joined list repeats no value. |
| `MergeNode.RepeatedUncounted` | src/pollard/merge.py:313-320 | A list that repeats a value hides a new entry from the count. |
| `MergeNode.CopySettles` | src/pollard/merge.py:294-298 | A node just copied is settled exactly when its conflict list equals, for Python, its own sorted listing. |
| `MergeNode.RepeatedRecords` | src/pollard/merge.py:336-351 | A copied conflict list that repeats a record is rewritten by the next merge. |
| `Merge.PlanListsAll` | src/pollard/merge.py:247-257 | The plan lists every source node once, parents first. |
| `Merge.MergeKeepsDestination` | src/pollard/merge.py:294-323 | A merge adds every plan node and changes no identity or result of the destination. |
| `Merge.MergeTwice` | src/pollard/merge.py:271-330 | A second merge is never refused. It copies nothing, changes nothing and reports nothing exactly when every plan entry settles, by the two conditions above. |
| `Merge.WrittenPlanSettles` | src/pollard/merge.py:271-330 | Every entry settles when the metadata on both sides was written by puts and merges only. |
| `Merge.MergeIntoEmpty` | src/pollard/merge.py:294-298 | Merging into an empty store reproduces the source node for node, hence the seal of every root. |
| `MergeOutcome.RefusedExactly` | src/pollard/merge.py:281-292 | A merge is refused exactly when both stores hold some id with another parent, kind, attempt or payload or, merging for a replay, the source holds a result there that is not the stored one. |
| `MergeOutcome.RefusedOnlyForResults` | src/pollard/merge.py:281-292 | With injective ids a merge that is not for a replay is never refused, and one for a replay only over results. |
| `MergeOutcome.ReplayNotesNothing` | src/pollard/merge.py:287-292 | A merge for a replay that is let through counts no result conflict. |
| `MergeOutcome.ReportCounts` | src/pollard/merge.py:294-330 | The report counts exactly the source ids the destination lacked as copied and the others as existing. |
| `MergeStores.UnionJsonLists` | src/pollard/merge.py:388-390 | The dictionary keyed by JSON text, listed in text order, is the union of both lists. |
| `MergeStores.MergeMetaValue` | src/pollard/merge.py:355-381 | The recursive procedure computes the join and its conflicts in path order. |
| `MergeStores.MergeMetadata` | src/pollard/merge.py:333-352 | The metadata procedure computes the merged metadata and the number of new conflicts. |
| `MergeStores.PrepareMerge` | src/pollard/merge.py:247-257 | The nested loops with the `seen` set build exactly the plan. |
| `MergeStores.MergeExisting` | src/pollard/merge.py:300-323 | The second loop body settles one existing node and counts its conflicts. |
| `MergeStores.CheckPlan` | src/pollard/merge.py:281-292 | The first loop passes exactly when no plan node collides, which is spelled out by `MergeOutcome.RefusedExactly`. |
| `MergeStores.WritePlan` | src/pollard/merge.py:294-330 | The second loop folds the plan into the destination; no put can fail for a missing parent. |
| `MergeStores.MergePrepared` | src/pollard/merge.py:271-330 | A collision is reported before the first write and leaves the destination untouched; otherwise the fold is the outcome. |
| `MergeStores.MergeInto` | src/pollard/merge.py:260-268 | The whole merge: refused exactly when two nodes of one id clash, with no write; otherwise the folded plan, with exact counts, and no result conflict when it is for a replay. |
| `Spool.FramingInjective` | src/pollard/merge.py:580-582 | Length-prefixed concatenation is injective on records shorter than 2^64 bytes. |
| `Spool.AcceptedIsWritten` | src/pollard/merge.py:185-240 | With an injective hash, validation accepts exactly the rows and metadata that were written. |
| `Spool.RowsDetermineNodes` | src/pollard/merge.py:466-514 | Equal rows come from equal plans. |
| `Spool.PreparePlan` | src/pollard/merge.py:247-257 | Over any traversal: the first occurrence of every id, if every node is valid. |
| `Spool.SpoolFile.AddNode` | src/pollard/merge.py:96-127 | One turn of the preparation loop: the checks, the insert that ignores a known id, the digest and the counter. |
| `Spool.SpoolFile.Prepare` | src/pollard/merge.py:69-142 | Preparation succeeds exactly when every node passes every check, and then writes the rows of the deduplicated traversal. |
| `Spool.SpoolFile.Validate` | src/pollard/merge.py:185-240 | The validation loop decides the acceptance predicate. |
| `Spool.SpoolFile.IterNodes` | src/pollard/merge.py:151-165 | An accepted spool yields the nodes its rows encode, in order. |
| `SpoolMerge.TraversalIsPlan` | src/pollard/merge.py:88-127 | The traversal of a store, deduplicated, is its merge plan. |
| `SpoolMerge.StoreSpoolable` | src/pollard/merge.py:88-127 | A store can be spooled exactly when every record survives serialization and can be framed. |
| `SpoolMerge.SpoolStore` | src/pollard/merge.py:69-165 | Preparing a spool and iterating it gives the plan of the in-memory preparation. |
| `Seal.SealNodes` | src/pollard/seal.py:57-83 | The sealing loop computes the rolling digest and one entry per node. |
| `Seal.SealStore` | src/pollard/seal.py:57-83 | Sealing a stored root seals its walk. |
| `Seal.SealIsChain` | src/pollard/seal.py:57-94 | A report is the seal of a listing exactly when every entry holds the fields of its node, links to the entry before it and carries their hash, and the last one gives the digest. |
| `Seal.SealBinds` | src/pollard/seal.py:57-94 | Equal final digests if and only if the same ids, parents, kinds and result digests in the same order. |
| `Seal.SealDependsOnContent` | src/pollard/seal.py:57-94 | Equal contents under a root give equal seals, whatever the insertion order or metadata. |
| `Seal.SealFingerprint` | src/pollard/seal.py:57-94 | Two stores give a root the same digest if and only if they hold the same contents under it. |
| `Seal.SealIgnoresMeta` | src/pollard/store.py:62-67 | Metadata updates leave every seal alone. |
| `GarbageCollection.CollectDoomed` | src/pollard/governance.py:85-91 | The loop that skips removed nodes finds every node with a pruned ancestor-or-self. |
| `GarbageCollection.Gc` | src/pollard/governance.py:79-103 | Drop-pruned removes exactly those nodes and reports them sorted with the surviving seals; other modes change nothing. |
| `GarbageCollection.SurvivingWalks` | src/pollard/governance.py:79-103 | What is left is a forest whose walks are the old walks without the removed nodes. |
| `GarbageCollection.SurvivingSeal` | src/pollard/governance.py:79-103 | A root with no pruned node below it keeps its seal. |
| `GarbageCollection.CollectTwice` | src/pollard/governance.py:79-103 | A second collection removes nothing. |
| `GarbageCollection.PruneDooms` | src/pollard/runtime.py:572-575 | Setting the pruned mark of a node to true dooms its whole subtree; any other value dooms only what another node does. |
| `ManifestTrees.AcceptedExactly` | src/pollard/governance.py:237-280 | The manifest checks accept exactly the sorted depth-first preorders of a tree rooted at the first node. |
| `Manifest.AcceptedIsCanonical` | src/pollard/governance.py:237-280 | Whatever is accepted is such a preorder. |
| `Staging.ManifestStore.Walk` | src/pollard/governance.py:275-280 | The stack over staged children ends and gives the preorder. |
| `Staging.Stage` | src/pollard/governance.py:238-255 | The constructor accepts exactly the canonical preorders. |
| `Transfer.ExportSubtree` | src/pollard/governance.py:106-124 | The manifest holds the walk of the root and its seal, or the root is missing. |
| `Transfer.CheckManifest` | src/pollard/governance.py:131-136 | The checks accept exactly genuine manifests; the seal they carry may be any document and is compared by Python equality. |
| `Transfer.ImportSubtree` | src/pollard/governance.py:127-162 | An import succeeds exactly for a genuine manifest that fits, changes nothing otherwise, and counts what it added and found. |
| `Transfer.ExportGenuine` | src/pollard/governance.py:106-124 | Every exported manifest is genuine. |
| `Transfer.ExportImport` | src/pollard/governance.py:106-162 | Importing an export into a store without its ids reproduces walk, results and seal. |
| `Transfer.ImportTwice` | src/pollard/governance.py:142-162 | A second import finds everything and adds nothing. |
| `TransferLaws.FitsExactly` | src/pollard/governance.py:137-149 | A target takes a genuine manifest exactly when it has the parent of the root and every node it holds agrees in parent, kind, attempt, payload, result and digest. |
| `TransferLaws.ImportBrings` | src/pollard/governance.py:137-162 | Afterwards every listed node is there, as it was sent where it was missing; the other nodes are as they were, and there are no more. |
| `TransferLaws.ImportExport` | src/pollard/governance.py:106-162 | Any accepted manifest, imported where none of its nodes was, is exported again with the same nodes and an equal seal. |
| `TransferLaws.SealFixesManifest` | src/pollard/governance.py:131-136 | With injective hashing two accepted manifests with one seal list the same nodes, up to metadata. |
| `Pointer.TokenRoundTrip` | src/pollard/schema.py:151-165 | Decoding a pointer token undoes encoding it, and an encoded token holds no separator. |
| `Pointer.EncodeCharacters` | src/pollard/revalidation.py:421-422 | A tilde becomes `~0`, a slash `~1`, everything else stays, character by character. |
| `Pointer.DecodeExactly` | src/pollard/schema.py:151-165 | Decoding fails exactly on a tilde that no 0 or 1 follows, and encoding undoes it on tokens without separators. |
| `Pointer.PointerToken` | src/pollard/schema.py:151-165 | The decoding loop over an index computes the recursive decoding, or fails on an invalid escape. |
| `Pointer.DecimalRoundTrip` | src/pollard/schema.py:138-143 | The decimal text of an index parses back to it. |
| `Pointer.AcceptedIndex` | src/pollard/schema.py:138-143 | Of the tokens accepted as an index, those section 4 of RFC 6901 allows are exactly the decimal texts without leading zeros. |
| `Pointer.LeadingZeroAccepted` | src/pollard/schema.py:138-143 | `/01` reaches the second item of an array. |
| `Pointer.SlashTarget` | src/pollard/schema.py:132-148 | `/` reaches the member with the empty name and nothing else. |
| `Pointer.FindTarget` | src/pollard/schema.py:132-148 | The loop over the tokens follows the recursive descent. |
| `Pointer.DescendAppend` | src/pollard/schema.py:132-148 | A pointer is followed piece by piece. |
| `Schema.DescendWithin` | src/pollard/schema.py:132-148 | What a pointer reaches holds no reference the document does not hold. |
| `Validation.ExpansionPreservesMeaning` | src/pollard/schema.py:11-83 | Validating against the expanded schema gives the same answer as following references lazily in the original. |
| `Validation.ResolvePreserves` | src/pollard/schema.py:21-80 | The same for every value and every set of active pointers met on the way. |
| `Validation.ReferenceAnnotates` | src/pollard/schema.py:31-58 | An expanded reference has the keywords of its expanded target, so the two accept the same values; the annotations are the subject of `SchemaErrors.ReferenceFields`. |
| `SchemaErrors.ReferenceFields` | src/pollard/schema.py:31-58 | A reference resolves exactly when only annotations stand beside it, its pointer is local, not being followed already and leads to an object, and that object and the own values resolve. The keys are then the target's and the object's own; each own key has its own resolved value, every other key the target's. |
| `SchemaErrors.FailsExactly` | src/pollard/schema.py:21-80 | Resolving fails exactly when some way through subschemas, reference targets and the values beside references ends at a reference that cannot be followed. |
| `SchemaErrors.DocumentFails` | src/pollard/schema.py:11-19 | The same for a whole document. |
| `SchemaRefs.SchemaHasLocalRefs` | src/pollard/schema.py:86-103 | The stack search ends and finds exactly the reference keywords at schema positions. |
| `SchemaRefs.ExpandedRefs` | src/pollard/schema.py:21-80 | An expanded value still holds a reference keyword exactly when a null `$ref` was met. |
| `SchemaRefs.ResolvedDocument` | src/pollard/schema.py:11-83 | Resolving a resolved document is the identity, always; it still holds a reference keyword exactly when a null `$ref` was met. |
| `SchemaRefs.NullFreeDocument` | src/pollard/schema.py:86-103 | A document without any null `$ref` resolves to one without reference keywords. |
| `SchemaRefs.NullRefRemains` | src/pollard/schema.py:25-30 | A document that is one null `$ref` resolves to itself and keeps the keyword. |
| `Difference.Collector.Visit` | src/pollard/revalidation.py:390-415 | The truncating traversal adds what the unbounded list holds at that place. |
| `Difference.Collector.Add` | src/pollard/revalidation.py:383-388 | Adding past the limit only sets the flag. |
| `Difference.DifferencePaths` | src/pollard/revalidation.py:374-418 | Exactly the first `limit` entries of the unbounded list, and truncated if and only if there are more. |
| `Difference.DiffEmpty` | src/pollard/revalidation.py:390-415 | No difference if and only if the values are identical, types included. |
| `Difference.ReportedNothing` | src/pollard/revalidation.py:374-418 | The report is empty and not truncated if and only if the values are identical, at every limit. |
| `Difference.DiffSymmetric` | src/pollard/revalidation.py:390-415 | The list is symmetric in its arguments. |
| `Difference.ReportedPointersResolve` | src/pollard/revalidation.py:383-415 | Of two objects or two arrays every reported pointer resolves in one of them, and never to the same value in both. Of other documents the one entry is `/`, and it does so exactly when one is an object with an empty key. |
| `DifferenceReport.DiffExactly` | src/pollard/revalidation.py:390-415 | The list is, in document order, exactly the places where the two sides part: reached through common containers on both, and there on one side only or with differing values not both objects or both arrays. |
| `DifferenceReport.DiffNoDuplicates` | src/pollard/revalidation.py:383-415 | No pointer is listed twice. |
| `DifferenceReport.DiffComplete` | src/pollard/revalidation.py:374-418 | Wherever the documents answer differently along encoded keys and canonical indices, a listed pointer is that place, above it or below it. |
| `Approvals.HoldsIsBound` | src/pollard/approvals.py:294-299 | A binding validates exactly when the stored slot holds it. |
| `Approvals.BoundIdExact` | src/pollard/approvals.py:302-314 | Reading the slot gives a decision id exactly when the slot is bound to it. |
| `Approvals.DecisionReadsBack` | src/pollard/approvals.py:315-328 | Whatever is stored under the id of a decision reads back as that decision. |
| `Approvals.LoadsStays` | src/pollard/approvals.py:277-285 | A request that loads keeps loading while the store grows. |
| `Agreement.InvStep` | src/pollard/approvals.py:138-178 | Every store step of every call, and every foreign write, keeps the protocol invariant. |
| `Agreement.AllReturnTheSame` | src/pollard/approvals.py:138-178 | In every interleaving all calls that return give the same decision, the one each was asked to record. |
| `Agreement.ConflictingNeverReturns` | src/pollard/approvals.py:294-299 | Once a slot is bound, a call with another decision never returns. |
| `Agreement.BoundCallCompletes` | src/pollard/approvals.py:138-178 | A call asking for the bound decision never raises and returns after at most nine of its steps, whatever else happens. |
| `Decisions.Verify` | src/pollard/verify.py:22-48 | In a valid store verification fails only for a missing node. |
| `Decisions.VerifiedRoot` | src/pollard/dependencies.py:213-220 | The root above a stored node. |
| `Decisions.LoadRequest` | src/pollard/approvals.py:277-285 | Decides whether the request loads. |
| `Decisions.ValidateBinding` | src/pollard/approvals.py:294-299 | Decides whether the binding holds. |
| `Decisions.DecideApproval` | src/pollard/approvals.py:138-178 | Alone on the store it succeeds exactly when the slot is free or bound to this decision, repairs an interrupted call, and otherwise changes nothing. |
| `ApprovalPolicy.FindRequest` | src/pollard/approvals.py:208-218 | The walk up finds the nearest request with no dispatch on the way. |
| `ApprovalPolicy.FindDispatch` | src/pollard/approvals.py:236-248 | The explicit-stack search ends, never meets a node twice, and finds a dispatch below the request exactly when there is one. |
| `ApprovalPolicy.DecideAction` | src/pollard/approvals.py:202-248 | The method answers what the decision function says; when that grants is spelled out by `ApprovalGrants.GrantsExactly`. |
| `ApprovalPolicy.GrantedBelow` | src/pollard/approvals.py:202-248 | An action is granted only below a request that is not exhausted. |
| `ApprovalPolicy.ExhaustedNeverGrants` | src/pollard/approvals.py:236-254 | Once a call or its unknown outcome is recorded below a request, it never grants again, wherever the cursor moves. |
| `ApprovalGrants.LoadsExactly` | src/pollard/approvals.py:267-285 | A request loads exactly when its fields are valid, a node without a result is stored under its id, and the root above that node is the one it names. |
| `ApprovalGrants.DecisionOfExact` | src/pollard/approvals.py:315-328 | A node reads as an approval or a rejection exactly when its fields say so, for this request and a valid reviewer. |
| `ApprovalGrants.NearestExactly` | src/pollard/approvals.py:208-218 | The request found is the closest one at or above the cursor with no dispatch in between. |
| `ApprovalGrants.GrantsExactly` | src/pollard/approvals.py:202-248 | An action is granted exactly when the closest request above the cursor loads, names this root, action, version, digests, agent and arguments, is bound to a stored approval, and nothing is dispatched below it. |
| `ApprovalGrants.RejectedNeverGrants` | src/pollard/approvals.py:225-234 | A request bound to a stored rejection never grants, however the store grows. |
| `ApprovalGrants.ApprovedGrants` | src/pollard/approvals.py:202-248 | A request bound to a stored approval grants the action it names until something is dispatched below it. |
| `ApprovalGrants.DecideThenAsk` | src/pollard/approvals.py:138-248 | Recording a decision and then asking the policy grants the named action after an approval and never after a rejection. |
| `GovernedRun.CallBuildsDispatch` | src/pollard/approvals.py:250-254 | Whatever a call records, a result or an unknown outcome, the policy counts it as a dispatch directly below the cursor of the call. |
| `GovernedRun.UseExhausts` | src/pollard/approvals.py:236-248 | A governed call whose node or unknown outcome is stored finds its request unused and leaves it exhausted. |
| `GovernedRun.ApprovalIsSingleUse` | src/pollard/approvals.py:202-254 | Over any run with branches, rollbacks and other writers at most one recorded governed call rests on one request. |
| `Spending.SpentInsert` | src/pollard/governor.py:56-65 | A new node adds its charge exactly to the anchors it lies below. |
| `Spending.SpentSame` | src/pollard/store.py:94-109 | Re-recording a node or updating metadata changes no total. |
| `Spending.PutKeepsClean` | src/pollard/runtime.py:737-738 | A put of a node without boolean amounts leaves none below an anchor that had none, so settling after a passed precheck cannot raise. |
| `Spending.AddCharges` | src/pollard/governor.py:58-64 | The inner loop adds the charges of one node, or raises for a boolean amount. |
| `Spending.RecomputeCharges` | src/pollard/governor.py:56-65 | The walk totals every charged meter below the anchor, and raises exactly when a boolean amount is met. |
| `Governor.CheckPasses` | src/pollard/governor.py:75-103 | A budget lets a call through exactly when it limits no exhausted meter and every estimate fits what is left. |
| `Governor.CheckBudget` | src/pollard/governor.py:75-103 | The two loops report the first exhausted meter by name, then the first estimate that does not fit. |
| `Governor.ExhaustedAfterSettle` | src/pollard/governor.py:106-117 | Exactly the limited meters spent beyond their limit. |
| `Governor.SettledExhausted` | src/pollard/runtime.py:1359-1366 | Settling marks a meter exactly when it was marked or is overspent. |
| `BudgetCheck.EstimationExactly` | src/pollard/runtime.py:1250-1279 | No meter refuses exactly when the estimates are, name by name, what the last meter of that name foresees. |
| `BudgetCheck.PrecheckExactly` | src/pollard/runtime.py:1172-1196 | A precheck passes exactly when no meter refuses and every scope can be added up, limits no exhausted meter and has room for the expected amount of every limited one, the depth being one more than that of the cursor. |
| `BudgetCheck.CheckTells` | src/pollard/governor.py:75-103 | A shortfall names the first exhausted meter by name, or else the first estimate that exceeds what is left, with what is left. |
| `BudgetCheck.RefusalTrue` | src/pollard/runtime.py:1172-1248 | A refusal before a call tells the truth: the first meter that refuses with its reason, or a limited meter of a scope that is exhausted or would be overdrawn, with both amounts. |
| `Refusals.CallRefusedExactly` | src/pollard/runtime.py:583-690 | A recorded call is refused exactly when it is no refused duplicate and a budget or the arbiter stops it; the refusal stored below the cursor says which, truthfully. |
| `Refusals.NoteExactly` | src/pollard/runtime.py:517-529 | A note is written exactly when the budgets let it through, found in replay exactly when it is stored, and a new one holds what it was given. |
| `Lifecycle.ReservationClosedOnce` | src/pollard/runtime.py:583-746 | The arbiter is asked exactly when the call is to be recorded, has budgets and they let it through. However the call ends, a granted reservation is closed exactly once, by a release only if the step raised unmarked, and a settlement carries the charges of the node built. |
| `CallRecords.CallAnswer` | src/pollard/runtime.py:711-746 | A recorded call returns the node stored under its identity, with its own kind, parent and attempt. A new node has its payload and exactly what the step gave; one that was there keeps its fields and first result. |
| `CallRecords.CallReturnsExactly` | src/pollard/runtime.py:583-746 | A recorded call returns exactly when it is no refused duplicate, budgets and arbiter let it through, nothing fails around its step, and its result can be stored. |
| `CallRecords.DispatchBuildsRecord` | src/pollard/runtime.py:613-746 | A dispatched call builds a note that names the call, its estimate and the fault exactly when its outcome stays open, a node with the result when it has one, and nothing otherwise. |
| `CallRecords.DispatchStores` | src/pollard/runtime.py:690-746 | What was built is stored, becomes the cursor, and marks exactly the overspent meters of every scope, unless the settlement of a result failed or it cannot be stored; then nothing changed. |
| `Operations.PerformGrown` | src/pollard/runtime.py:517-570 | Every operation keeps the store well formed, loses nothing and leaves the cursor on a stored node. |
| `Operations.RefusalBecomesCursor` | src/pollard/runtime.py:1281-1333 | A refusal is recorded below the cursor, becomes the cursor, builds no call and leaves the scopes alone. |
| `HandleMoves.DepthCounts` | src/pollard/runtime.py:1659-1665 | The depth of a node is the number of its proper ancestors. |
| `HandleMoves.RollBackExactly` | src/pollard/runtime.py:559-570 | A rollback moves the cursor to its target, or to the ancestor so many levels above or the root, changes nothing else, and fails only for a target that is not at or above the cursor. |
| `HandleMoves.BranchScopes` | src/pollard/runtime.py:531-557 | A branch leaves its handle alone; its child starts at a new note below with every scope of the parent and, when given a budget, one more with that limit, counted from the note, with nothing exhausted. |
| `BudgetEffects.PerformEffect` | src/pollard/runtime.py:583-746 | Only a call whose precheck passed changes the spend or the scopes, and then by the charge of one node. |
| `BudgetEffects.ClearEstimate` | src/pollard/runtime.py:1250-1279 | After a passed precheck the estimate in force is the one the meter gave. |
| `BudgetEffects.ChargeNamed` | src/pollard/runtime.py:1089-1132 | The charges hold what the meter measured, or the estimate it fell back to. |
| `BudgetEffects.AmountExactly` | src/pollard/runtime.py:1089-1132 | A meter is charged what it measured; where that is nothing, a meter that only estimates falls back to its estimate when the result reports no usage or the meter gives a reason. |
| `BudgetEffects.CallCharge` | src/pollard/runtime.py:583-746 | The node a call builds is charged its estimate exactly when the outcome stays open, else the measured amount. |
| `BudgetBound.FreshRunGuarded` | src/pollard/runtime.py:261-275 | A fresh run on an empty store is guarded by each of its limits, with nothing spent. |
| `BudgetBound.NextGuarded` | src/pollard/runtime.py:531-557 | Every handle, branches included, keeps carrying the limit. |
| `BudgetBound.RoomForEstimate` | src/pollard/governor.py:85-103 | A passed precheck leaves room for the estimate and finds the meter unmarked. |
| `BudgetBound.BudgetBound` | src/pollard/runtime.py:1172-1196 | Over any run on any number of handles the spend never exceeds the limit by more than the excess of one single call over its estimate. |
| `BudgetBound.OverspentRefuses` | src/pollard/governor.py:94-103 | Beyond the limit no handle lets an estimated call through: it is refused, or the precheck raises on a boolean amount. |
| `BudgetBound.ExactNeverExceeds` | src/pollard/runtime.py:1172-1196 | A meter that never charges more than it estimates never exceeds its limit. |
| `Overshoot.MarkedRefused` | src/pollard/governor.py:85-93 | A handle whose scope is exhausted lets no call through: it is refused, or the precheck raises on a boolean amount. |
| `Overshoot.OperationMarks` | src/pollard/runtime.py:1359-1366 | A call that settles above the limit marks its handle; marks stay and branches inherit them. |
| `Overshoot.OverOnce` | src/pollard/runtime.py:1359-1366 | Each handle settles above the limit at most once, and never once marked. |
| `Overshoot.OvershootBound` | src/pollard/runtime.py:1459-1467 | Without an estimate the spend exceeds the limit by at most one call's charge per handle. |
| `Replay.ReplayIsPassive` | src/pollard/replay.py:34-62 | A replayed call reaches no step function, no arbiter and no write. |
| `Replay.CallReturns` | src/pollard/runtime.py:724-746 | A recorded call that returns leaves the cursor on the node its identity names. |
| `Replay.OperationFollows` | src/pollard/replay.py:34-72 | One replayed operation returns the recorded node and cursor, exactly when a call's node has a result. |
| `Replay.StrictReplaySimulates` | src/pollard/replay.py:34-72 | Replaying a recorded sequence on the final store returns normally exactly when every call has a result, with the same cursors and records, and writes nothing. |
| `Replay.OperationAnswered` | src/pollard/runtime.py:735-746 | While every stored call has a result every operation keeps it so, and a call returns a node with a result. |
| `Replay.AnsweredReplays` | src/pollard/replay.py:34-72 | Hence a run recorded on a store whose calls all have results replays in full. |
| `Replay.RecordedAnswers` | src/pollard/runtime.py:711-746 | Over any recorded sequence every call returns the result its id had before, or what the first step for that id gave. |
| `Replay.FreshRunReplays` | src/pollard/replay.py:34-72 | Every fresh run whose operations all returned replays in full on its own store, with the same cursors and records, and every replayed call gives what the first step for it gave. |
| `Replay.ResultlessCallNotReplayed` | src/pollard/replay.py:54-58 | A call already stored without a result records normally and cannot be replayed. |
| `Replay.ReplayCanMiss` | src/pollard/replay.py:54-58 | A concrete two-node store where that happens. |
| `Run.EstimateAll` | src/pollard/runtime.py:1250-1279 | The loop over the meters collects the estimates in order and stops at the first refusal. |
| `Run.ChargeAll` | src/pollard/runtime.py:1089-1132 | The charging loop computes charges and fallbacks. |
| `Run.DepthOf` | src/pollard/runtime.py:1659-1665 | The number of ancestors. |
| `Run.IsAbove` | src/pollard/runtime.py:1407-1416 | The loop decides whether the target is the cursor or above it. |
| `Run.RunHandle.CheckAllScopes` | src/pollard/runtime.py:1178-1192 | The first scope that fails, or whose charges cannot be added up, decides. |
| `Run.RunHandle.PrecheckCall` | src/pollard/runtime.py:1172-1192 | Estimates, then every budget scope; a passed precheck has read every amount below the anchors. |
| `Run.RunHandle.Refuse` | src/pollard/runtime.py:1281-1333 | The refusal is recorded and becomes the cursor. |
| `Run.RunHandle.SettleAllScopes` | src/pollard/runtime.py:1359-1366 | Every scope of the handle is settled against the store, in place. |
| `Run.RunHandle.RecordUnknownOutcome` | src/pollard/runtime.py:918-976 | Settles the estimates, records the note and settles the scopes, whatever fails on the way. |
| `Run.RunHandle.CompleteCall` | src/pollard/runtime.py:690-746 | Charges, settles, records, and reports a lost lease. |
| `Run.RunHandle.DispatchCall` | src/pollard/runtime.py:613-746 | The mutable error state of the call takes exactly the exit the outcome function names. |
| `Run.RunHandle.Call` | src/pollard/runtime.py:583-746 | Store, cursor, scopes, result and arbiter log after any call. |
| `Run.RunHandle.WriteNote` | src/pollard/runtime.py:517-529 | A note is prechecked, placed and becomes the cursor; in replay it is only read. |
| `Run.RunHandle.MakeBranch` | src/pollard/runtime.py:531-557 | The child starts at a new note with its own copies of the scopes; the parent does not move. |
| `Run.RunHandle.CopyScopes` | src/pollard/runtime.py:1459-1467 | Fresh, pairwise distinct scopes with equal contents. |
| `Run.RunHandle.RollBackTo` | src/pollard/runtime.py:559-570 | The cursor moves to an ancestor-or-self, or nothing happens. |

## Left out

- Hybrid mode, avoided charges and their report: bookkeeping over the same lookups.
- Registered tools, policies other than the approval policy, dry runs, confirmation tokens, pruning during a run, resuming and live revalidation.
- `src/pollard/meters.py`, `src/pollard/tree.py` beyond the node record, and the SQLite and remote stores are not part of this model; window meters, shared named budgets and the arbiter behind the reserve, settle and release calls are left to them.
- The metadata a meter may attach to its own refusal, which is validated in `src/pollard/meters.py`.
- Streams, chunk callbacks and lease heartbeats: a step gives one value or raises, and a lease is kept, lost or fails.
- The asynchronous runtime, which mirrors the synchronous one.
- Floats, decimals, wall-clock durations in failure metadata, JSON escaping and the limits of SHA-256; amounts, depths and limits are integers.
- Budgets with a negative or boolean limit, which raise when they are read.
- Read-only stores in `decide_approval`, which raise before the first write.
- Team identities beyond their document, and the checks that confine an agent to its delegated subtree.
- Unicode decimal digits in pointer indices, and percent-decoding of reference fragments, which is a parameter of the document.
- The texts of error messages, and which of several exceptions a rejected manifest, spool or approval record raises.
- SQLite page checks, file sizes and transactions of the spool file; only its rows, metadata and digest are modelled.
- Run.IsAbove: the walk of a delegated agent also stops at the node where its delegation begins; delegation is left out with the teams.
- Store.MemoryStore.HandleExisting: the order in which an object yields its keys is a parameter, because documents here do not remember it.
- MergeKeeps.MergeDiscardsNothing: says nothing of an incoming `merge_conflicts` entry that is not a list, which the source ignores on both sides.
- Run.RunHandle.Call: the step runs between two store accesses of one call; what a step writes to the store itself is a write by somebody else before or after the call.
- Agreement.AllReturnTheSame: loading the request is one step, because nothing it reads can change while the store only grows.
- Replay.StrictReplaySimulates: covers calls, notes, branches and rollbacks; root creation and registry binding are not part of the sequence.
