# A verified model of the persistent disk index

This project models the disk index of a macOS and Windows disk-cleaning program and proves what its
code promises. The index is an arena tree of file sizes that is edited in place, written to a binary
base file, patched by cumulative deltas, and saved in the background while the owner keeps editing.

`dafny verify dfyconfig.toml` checks everything. Nothing here executes the original program.

## What is modelled

- **The size tree** (`Slots` to `SizeTree`): stable ids, parent links, tombstones, a read-only mapped base
  under an override map, memoised name rows, coverage gaps. Totals are defined once, as the sum over all nodes that reach a
  directory through parent links, and the worklist, the per-file walks and every edit are proved against that sum.
- **Refreshing** (`Coverage`, `Replay`, `Refresh`, `Contents`, `RefreshedContents`): replaying file-system changes onto
  a clone, with what it may no longer claim to cover, and what the clone then holds at each path.
- **The v7 base file** (`Bytes` to `BaseEncoding`): two readers, two encoders, layout, checksum and interning.
  A file is a byte sequence; a reader is proved to accept exactly the files a predicate admits, and a
  writer to produce the one image of a tree.
- **Deltas** (`IncrementalValidation` to `DeltaDecoding`): the incremental validator, the full and the
  overrides-only writers, the readers, and what an accepted delta's bytes mean (`DeltaBytes`). `Saving` joins them to loaded bases and to what is published.
- **Persistence and publication** (`Persistence`, `Publication`, `CoverageStamp`, `IndexCache`, `Quarantine`): the background
  writer as a transition system over all interleavings, crash points between disk steps, the watermark, and
  the repair of trees that cannot be encoded.
- **Streaming** (`SpillTrees`, `SpillIndex`), **hard links** (`HardLinks`, `MftScan`), and the smaller kernels:
  **selection**, **root coalescing**, **wildcard search** and the **plan step machine**.

Each imperative operation is a method over a class, a buffer or an array, tied by its contract to a
specification function; the results are lemmas about those functions. Platform behaviour the code relies
on but does not define (hash, UTF-8 validity, case folding, digests, clock, the outcome of disk steps,
executor answers) is a parameter, so results hold for every choice of it.

## Where code and expectation part

- The incremental validator never looks at the children of a tombstoned directory, because a dead node lists no
  children. A live child left there passes it and fails the full check (`OrphanSlipsThrough`). The two agree
  exactly on trees without such orphans, which the editing operations keep; the same gap separates the mapped
  and the heap delta reader (`DeltaReadersAgree`).
- Directory parents do not make hard-link totals a fixed point: a directory that itself hangs below a file
  breaks it (`DirectoryParentsAreNotEnough`, `DirectoryLinksCanDrift`). The exact condition is that nothing but directories lies above.
- A toggle does not always flip (`ToggleCanStick`), nor does clearing a batch always clear (`ClearingCanStick`);
  `ToggleFlips` and `BatchSetsRows` give the exact conditions.
- Coalescing keeps the file-system root next to a path whose first name sorts before the separator, since the
  root's key alone ends in two separators (`RootKeptBesideDash`); `Coalesced` states when the result is minimal.
- The repair of unencodable names promises to mark the parent of every dropped node. A parent more than 512 levels
  down, or at or below a directory whose name holds a backslash, has no path and is marked nowhere (`GapCanBeSilent`).
  `GapsAreTold` gives the exact condition, and `ShallowIsTold` that nothing is dropped in silence elsewhere.

## Model

| member | source | states |
|---|---|---|
| Forest.TotalByChildren | internal/core/disk_tree.go:561-600 | off a cycle, what lies below a directory is the sum of its children with what lies below them: the identity both ways of totalling rest on |
| Worklist.ReadyIsExact | internal/core/disk_tree.go:561-622 | a directory whose count of waiting children reached zero is on no cycle, was not drained before, and already holds the capped exact total of all below it |
| Worklist.PopKeepsInvariant | internal/core/disk_tree.go:583-622 | draining one directory keeps the worklist invariant and puts the directory among the drained ones for good, so none is drained twice |
| Worklist.LeftoversAreCyclic | internal/core/disk_tree.go:561-622 | when the worklist runs dry the directories never drained are exactly those on a cycle |
| Worklist.RollUpIsExact | internal/core/disk_tree.go:561-622 | for any parent array, cycles and bad parents included, every directory off a cycle ends with min(2^64-1, sum) of the file sizes below it and the matching file count |
| SizeTrees.SizeTree.RecomputeHeapAggregates | internal/core/disk_tree.go:561-622 | the in-place worklist terminates on any heap tree and leaves exactly the roll-up, then the extra hard-link parents |
| SizeTrees.SizeTree.Ancestors | internal/core/disk_tree.go:441-498 | the stamped walk applies its correction once to each node of the bounded chain and to no other, over a mapped base or on the heap |
| Ancestors.ChainIsAncestors | internal/core/disk_tree.go:441-498 | on an acyclic tree within the depth cap the nodes a walk visits are exactly those at or above its start |
| SizeTrees.SizeTree.RecomputeAggregates | internal/core/disk_tree.go:525-551 | recomputation is the roll-up plus link walks on the heap and the per-file walks over a mapped base |
| Links.WalksMatchRollUp | internal/core/disk_tree.go:525-622 | on acyclic trees with directory parents and depth within the cap the per-file ancestor walks and the worklist compute the same slots |
| HardLinks.WalksMatchWithLinks | internal/core/disk_tree.go:525-622 | with hard links too: where the walks from recorded parents meet directories only, recomputing file by file and rolling up before replaying the links give the same slots |
| Edits.RemoveKeepsExact | internal/core/disk_tree.go:664-690 | removing a subtree from a tree with exact totals leaves exact totals and changes nothing but the buried nodes and the totals above |
| Edits.BuriedReaches | internal/core/disk_tree.go:664-687 | after a removal a node is below a directory exactly when it was and is not at or below the removed one |
| Edits.LeafKeepsExact | internal/core/disk_tree.go:769-798 | adding a file within the depth cap and without overflow keeps every total exact |
| Edits.ResizeKeepsExact | internal/core/disk_tree.go:780-790 | replacing a file size keeps every total exact |
| Grafting.GraftKeepsExact | internal/core/disk_tree.go:799-847 | copying the live nodes of another exact tree under a directory and crediting its ancestors keeps every total exact |
| Grafting.JoinedReachesCopy | internal/core/disk_tree.go:803-835 | the copies are below one another exactly as the originals are, whatever tombstones the subtree holds |
| SizeTrees.SizeTree.RemoveSubtreeInplace | internal/core/disk_tree.go:664-690 | the stack loop buries exactly the nodes at or below the one named and takes its totals off every ancestor |
| SizeTrees.SizeTree.UpsertFileWithMtime | internal/core/disk_tree.go:769-798 | resizes the file of that exact name, otherwise buries what the path named and appends a file, listed last in its directory's row; refuses exactly when the directory is missing or the name is a dot |
| SizeTrees.SizeTree.AppendSubtree | internal/core/disk_tree.go:799-856 | appends the live nodes in slot order under fresh ids, lists each in its parent's row in that order, and takes over the subtree's coverage gaps at their new place; a missing directory or the tree itself changes nothing |
| SizeTrees.SizeTree.FindPath | internal/core/disk_tree.go:290-330 | the climb and the descent give the names from the root to a node, or nothing when the chain is broken, too long or holds an unsafe name |
| SizeTrees.SizeTree.AppendCoverage | internal/core/disk_tree.go:849-856 | the gaps of a scan inside its mount are added at the same place below the graft, the others dropped |
| Coverage.GapsAreMoved | internal/core/disk_tree.go:849-856 | a place is handed on exactly when a gap of the scan lies at the same names below its mount |
| Coverage.FoundLiesThere | internal/core/disk_tree.go:290-330 | the path of a node found by path is that path, up to case folding |
| Refresh.ApplyChange | internal/core/disk_index_macos.go:462-500 | one removal, write, copied or streamed rescan leaves exactly the slots, rows, gaps and cleared places replaying it says, keeps totals exact and ids stable, and fails exactly on a malformed spill; what that leaves at each path is stated by RefreshedContents |
| Refresh.ApplyChanges | internal/core/disk_index_macos.go:462-500 | any run of changes ends as its replay, whose contents LastWriteStands, GoneStaysGone, LastScanStands and UntouchedStays give path by path, with exact totals, no live node under a dead parent and no id reused, or stops at the first malformed spill |
| Refresh.RefreshTree | internal/core/disk_index_macos.go:454-511 | leaves the original alone; the clone ends as replaying the file changes no root covers and then the roots, over rows that list every child, its rows rebuilt in slot order, its gaps those nothing cleared with those the run reported |
| Replay.NoGapIsForgotten | internal/core/disk_index_macos.go:431-506 | after any run a gap known before is still marked unless a change replaced a place at or above it, and every unreadable directory and every gap of a grafted rescan is marked |
| Replay.ClearedByChange | internal/core/disk_index_macos.go:460-487 | a run clears no place but those its removals and successful rescans name |
| Replay.NoGapIsInvented | internal/core/disk_index_macos.go:431-506 | and every gap left was known before at or below no place a change replaced, or is an unreadable directory, or was reported by a grafted rescan |
| RefreshedContents.LastWriteStands | internal/core/disk_index_macos.go:462-475 | over any run of changes, a file whose last change is a write into a known directory stands under that directory with exactly that name, size and time, and is what a lookup finds where names fold apart |
| RefreshedContents.GoneStaysGone | internal/core/disk_index_macos.go:465-488 | where the last change at or above a path found it gone, nothing lies at the path at the end and it resolves to nothing |
| RefreshedContents.LastScanStands | internal/core/disk_index_macos.go:476-500 | where the last change at or above a path was a rescan, what lies there at the end is what lies there in the scan, with the same names, kinds, sizes and times, and nothing else |
| RefreshedContents.SpilledRecordStands | internal/core/disk_index_macos.go:476-500 | the same said of the records of a scan spilled to disk: each stands at the path its record chain spells, as recorded |
| RefreshedContents.UntouchedStays | internal/core/disk_index_macos.go:462-500 | what no change concerns keeps its place, name, kind and time, and a file its size |
| RefreshedContents.StrayChangeIsIgnored | internal/core/disk_index_macos.go:462-500 | a write or rescan below a directory that is not known, a write of a dot name and an unreadable root change no slot |
| RefreshedContents.GraftedAtItsPath | internal/core/disk_index_macos.go:476-500 | the place a rescan's gaps are moved to is the changed path below the mount, up to folding, unless its directory has no path |
| RefreshedContents.ApartStays | internal/core/disk_index_macos.go:462-500 | where names fold apart in the tree and in every scan they do so after every change of the run |
| RefreshedContents.RunFailsOnBadSpill | internal/core/disk_index_macos.go:476-500 | a run fails only at a spill whose head or records may not be appended where its directory stood, the changes before it having gone through |
| Contents.LyingIsFound | internal/core/disk_tree.go:387-401 | where names fold apart a lookup finds whatever node lies at the path |
| Contents.RemovedUnder | internal/core/disk_tree.go:664-690 | a removal leaves every node outside the removed part with its name, parent, kind, time and a file's size |
| Contents.SizedSlots | internal/core/disk_tree.go:780-790 | a resize gives that file the new size and time and changes no other node but totals |
| Contents.LeafSlots | internal/core/disk_tree.go:769-798 | an appended file is exactly the slot asked for, and no other node changes but totals |
| Contents.GraftSlots | internal/core/disk_tree.go:799-847 | a graft holds a copy of every live node with its name, kind, size and time, linked as the originals are, under the directory by the new name, and leaves the old nodes as they were but for totals |
| ChildRows.FirstLiveIsFirst | internal/core/disk_tree.go:331-366 | the node a lookup names is live and matches, and every earlier entry of the row does not |
| ChildRows.CachePersists | internal/core/disk_tree.go:331-366 | a memoised row stays truthful while nodes die and totals move: a missing key still means no match, a live entry is still the first |
| ChildRows.CacheRepaired | internal/core/disk_tree.go:345-366 | replacing a stale entry by the next live match, or dropping it, makes the row truthful again |
| ChildRows.ResolvedDepth | internal/core/disk_tree.go:387-401 | a path of n names resolves to a node n levels down whose parent the shorter path names |
| SizeTrees.SizeTree.FindChild | internal/core/disk_tree.go:331-366 | through any mix of lookups, links, removals and rebuilds the memoised lookup returns what an uncached scan would |
| SizeTrees.SizeTree.Link | internal/core/disk_tree.go:746-765 | appends the edge to the row and teaches a memoised row the name only if it had none live |
| SizeTrees.SizeTree.RebuildChildArrays | internal/core/disk_tree.go:858-899 | rows list each live child under its live directory, in slot order after the base rows, and the memoised rows are dropped |
| SizeTrees.SizeTree.CountUsed | internal/core/disk_tree.go:907-932 | the base count corrected by overrides and appended nodes is the true number of live nodes of that kind |
| SizeTrees.SizeTree.SetSlot | internal/core/disk_tree.go:240-249 | a base node becomes an override, an appended one is written in place; readers see one slot changed |
| SizeTrees.SizeTree.Clone | internal/core/disk_tree.go:138-156 | a private copy with the same slots over the same base |
| SizeTrees.SizeTree.NoteExtraParent | internal/core/disk_tree.go:510-523 | records a distinct extra parent of a live file once |
| SizeTrees.NewSizeTree | internal/core/disk_tree.go:103-124 | acquired slots become a consistent tree with rolled-up totals |
| Validation.ValidateDiskTree | internal/core/disk_index_cache_format.go:112-153 | the three-colour parent walk accepts exactly the trees with a directory root, encodable live links to live directories, parents first if asked, and no cycle |
| IncrementalValidation.ValidateOverrides | internal/core/disk_index_cache_overrides.go:101-161 | checks overrides and appended nodes only, yet returns exactly the changed base ids in order and the true file and directory counts |
| IncrementalValidation.IncrementalMeetsFull | internal/core/disk_index_cache_overrides.go:101-161 | over a validated base with identities kept, full validation is incremental validation plus "no live node under a dead parent" |
| IncrementalValidation.OrphanSlipsThrough | internal/core/disk_index_cache_overrides.go:139-146 | a concrete tree the incremental check passes and the full one rejects: a tombstoned directory with a live child |
| Quarantine.QuarantineUnrepresentable | internal/core/disk_index_persistence.go:143-182 | the repaired copy passes full validation, parents first if they were; every time is kept or saturated, exact totals stay exact and files keep their sizes; its new gaps are, in id order, the paths of the directories that live nodes with lost names were dropped from, where they have one; the repair count is zero exactly when nothing was changed |
| Quarantine.GapsAreTold | internal/core/disk_index_persistence.go:138-180 | the directory of a dropped node is marked exactly when it is at most 512 levels down by names that may be joined; every node that went is told of exactly when the directory of each topmost lost name is that shallow and under no name with a backslash |
| Quarantine.ShallowIsTold | internal/core/disk_index_persistence.go:138-180 | where no directory name holds a backslash and none is deeper than 512 levels, every dropped node went with one whose directory is marked |
| Quarantine.GapCanBeSilent | internal/core/disk_index_persistence.go:164-176 | a concrete tree the promise fails on: a file with a name that is not UTF-8 in a directory called a\\b is dropped and nothing is marked |
| Coverage.PathIsFound | internal/core/disk_tree.go:290-330 | in a tree a node has a path exactly when it is fewer levels down than the limit and every name on the way may be joined |
| Quarantine.TreatedIsValid | internal/core/disk_index_persistence.go:148-182 | clamped counts and times and placeholder names on tombstones make any consistent tree over a validated base one the writer accepts |
| Quarantine.BadStep | internal/core/disk_index_persistence.go:164-180 | a lost name costs exactly the nodes at or below it; everything else stays alive under its own name |
| Quarantine.TreatedSized | internal/core/disk_index_persistence.go:158-180 | repairing a node keeps exact totals exact, because an exact count never reaches the clamp and a dropped node takes its own totals along |
| Decoding.CheckHeader | internal/core/disk_index_cache_format.go:159-205 | accepts a header exactly when its bytes carry the magic, version 7, a non-zero word at offset 72 equal to the hash of the file with that word zeroed, aligned offsets, five stretches inside the file and apart, the mount asked for and UTF-8 labels |
| Decoding.CheckSections | internal/core/disk_index_cache_format.go:178-196 | sorting the sections and scanning once decides whether all lie in the file and no two overlap |
| Decoding.HeapDecode | internal/core/disk_index_cache_format.go:159-248 | the copying reader accepts exactly the files the format admits, only ones with such a header, and returns what they denote, in a heap tree whose rebuilt rows are the canonical ones |
| SizeTrees.RebuiltIsCanon | internal/core/disk_tree.go:858-899 | rows rebuilt on the heap list exactly the children of each directory, ascending |
| Decoding.MappedDecode | internal/core/disk_index_cache_format.go:252-326 | the mapped reader, checking records one by one and counting children instead of scanning for missing nodes, accepts the same bytes, only ones with such a header, and exposes the same slots and rows |
| Decoding.MappedRecordsAreTree | internal/core/disk_index_cache_format.go:252-290 | local parent checks in slot order amount to validating the whole tree |
| Decoding.CheckRowsHeap | internal/core/disk_index_cache_format.go:219-241 | every stored child is new, in range and linked to its row, and every node but the root is stored |
| OrderedEncoder.FillRecords | internal/core/disk_index_cache_format.go:791-799 | writes every record with its renumbered parent and counts children in the start table itself |
| Decoding.CheckRowsMapped | internal/core/disk_index_cache_format.go:291-320 | with every stored child new, a child count of one less than the nodes decides the same as scanning for a node not seen |
| Decoding.RowRead | internal/core/disk_index_mapped_unix.go:46-63 | a stored row, or its sorted copy, is the ascending list of that directory's children |
| Decoding.RememberSorted | internal/core/disk_index_cache_format.go:313-319 | whatever order the file lists a row in, the row read through the remembered copies is the ascending list of that directory's children |
| BaseFormat.AcceptedIsTree | internal/core/disk_index_cache_format.go:159-326 | any bytes the decoder accepts denote an acyclic parent-first tree rooted at 0 with safe names |
| BaseFormat.AcceptedRows | internal/core/disk_index_cache_format.go:159-326 | in accepted bytes each node but the root stands in exactly one child row, its parent's, once |
| BaseFormat.HeaderIsHeaded | internal/core/disk_index_cache_format.go:159-205 | the header test, read off the bytes at their fixed offsets |
| BaseFormat.AcceptedBytes | internal/core/disk_index_cache_format.go:159-326 | every field of every node of an accepted file, its name and its metadata are the bytes at their offsets, and the counts are true |
| BaseRoundTrip.AlteredIsRefused | internal/core/disk_index_cache_format.go:163-167 | a written file altered anywhere but in its checksum is accepted for no mount, unless the change leaves the hash alone |
| Interning.InternMapped | internal/core/disk_index_cache_format.go:768-785 | the base-offset shortcut yields the same pool and offsets as interning every name by value |
| Interning.OffsetsRead | internal/core/disk_index_cache_format.go:645-654 | every interned name reads back at its offset |
| Interning.StoredOnce | internal/core/disk_index_cache_format.go:645-654 | the pool holds each distinct name once and nothing else, and two names share an offset exactly when they are the same |
| Compaction.CompactIsCompacted | internal/core/disk_index_cache_format.go:663-720 | renumbering the live nodes of a valid tree along any parents-first order gives a tree files can hold |
| Compaction.CompactEdges | internal/core/disk_index_cache_format.go:663-720 | nodes are linked after compaction exactly when they were before |
| Compaction.CompactKeepsExact | internal/core/disk_index_cache_format.go:663-720 | a tree with exact totals and chains one walk can climb still is one after compaction |
| Saving.LoadedBaseIsExact | internal/core/disk_index_cache_format.go:159-248 | exact totals survive a save as a base and a load |
| Saving.LoadedDeltaIsExact | internal/core/disk_index_cache_delta.go:6-230 | exact totals survive a save as a delta and a load |
| Compaction.CompactNode | internal/core/disk_index_cache_format.go:663-720 | each kept node keeps name, flags, size, time and count, and its parent is its parent's image and comes first |
| DepthFirst.ListDepthFirst | internal/core/disk_index_cache_format.go:666-688 | the explicit stack lists every live node once, parents first and children in slot order |
| BaseBuffer.Allocate | internal/core/disk_index_cache_format.go:722-744 | lays out the sections and fails exactly when the file would pass 4 GiB |
| OrderedEncoder.SumStarts | internal/core/disk_index_cache_format.go:800-802 | turning child counters into start positions in place gives the start table |
| OrderedEncoder.PlaceKids | internal/core/disk_index_cache_format.go:803-814 | dropping nodes through moving cursors and restoring them fills each row in slot order |
| OrderedEncoder.EncodeOrdered | internal/core/disk_index_cache_format.go:748-817 | takes exactly the parent-first trees and writes the image of their compaction in slot order |
| UnorderedEncoder.EncodeUnordered | internal/core/disk_index_cache_format.go:663-720 | writes any valid tree as the image of its compaction, in slot order when parents come first |
| BaseEncoding.EncodeDiskIndex | internal/core/disk_index_cache_format.go:656-661 | whichever encoder runs, the bytes are the image of the tree compacted along a parents-first order |
| BaseEncoding.ImageIsUnique | internal/core/disk_index_cache_format.go:656-817 | a tree and its metadata have one image, so on parent-first trees the two encoders write identical bytes |
| BaseEncoding.RoundTrip | internal/core/disk_index_cache_format.go:159-326 | for every mount, decoding the encoding of any valid tree, tombstones and forward parents included, gives its compaction; it is accepted exactly when the mount is its own, the checksum is non-zero, the labels are UTF-8 and the counts are true |
| BaseRoundTrip.WrittenReadsBack | internal/core/disk_index_cache_format.go:159-248 | what a written image denotes and exactly when it is accepted, for every mount |
| BaseRoundTrip.SectionsAreSound | internal/core/disk_index_cache_format.go:722-744 | the layout the writer computes satisfies the reader's alignment, range and overlap checks |
| CoverageStamp.PrepareCoverage | internal/core/disk_index_cache_coverage.go:54-81 | stamping digest, salt and magic into a base header and resealing leaves an image of the same tree |
| CoverageStamp.PrepareDeltaCoverage | internal/core/disk_index_cache_coverage.go:54-81 | stamping the digest at the delta's own offsets and resealing leaves the delta of the same edits |
| CoverageStamp.PrepareSpillCoverage | internal/core/disk_index_cache_coverage.go:54-81 | the same for a base streamed from a spill |
| CoverageStamp.BaseBinding | internal/core/disk_index_cache_coverage.go:128-150 | a stamped base reads back as bound to that digest, an unstamped one as bound to nothing |
| CoverageStamp.BaseSalt | internal/core/disk_index_cache_coverage.go:54-81 | a stamped base keeps the salt it has or gets the one drawn, so rewrites of one tree under different salts differ |
| CoverageStamp.DeltaBinding | internal/core/disk_index_cache_coverage.go:128-150 | the same for a delta header |
| CoverageStamp.BindingMeans | internal/core/disk_index_cache_coverage.go:128-140 | which header bytes bind an index to a digest, which mark one written before coverage existed, and that anything else is unknown |
| DeltaDiff.DiffTree | internal/core/disk_index_cache_delta.go:6-43 | the full comparison succeeds exactly for valid trees that keep base identities and returns the changed ids and every parent with appended children |
| DeltaDiff.DiffOverrides | internal/core/disk_index_cache_overrides.go:53-84 | the overrides-only writer finds the same ids, appended nodes and child lists without visiting the base |
| DeltaDiff.FastIsFull | internal/core/disk_index_cache_overrides.go:53-84 | whenever the fast path speaks and no orphan is left the full comparison would have said the same |
| DeltaDiff.EditedTreesQualify | internal/core/disk_index_cache_overrides.go:22-52 | trees kept by the editing operations meet what the fast path assumes |
| DeltaWriter.WriteDelta | internal/core/disk_index_cache_delta.go:47-94 | the cursor fills header, overrides, names, appended records and child lists of the delta image |
| DeltaDecoding.DecodeDelta | internal/core/disk_index_cache_delta.go:96-230 | over a sound base the decoder accepts exactly the deltas the format admits and stages what they denote |
| DeltaRoundTrip.DeltaRoundTrip | internal/core/disk_index_cache_delta.go:6-230 | decoding the delta of an edited tree against its base gives back the same slot at every id; it applies exactly when checksum, base checksum, event order and totals agree |
| DeltaRoundTrip.ListsReadBack | internal/core/disk_index_cache_delta.go:170-200 | the variable-length list table parses back to the lists |
| Saving.LoadedOffsetsHold | internal/core/disk_index_cache_format.go:768-785 | slots loaded from an accepted file carry offsets the interning shortcut may rely on, for every slot no override replaced |
| Saving.DiffIsWritable | internal/core/disk_index_cache_delta.go:47-94 | the delta of any valid tree over an accepted base fits the writer's fields |
| Saving.EncodeDiskIndexDelta | internal/core/disk_index_cache_delta.go:6-94 | a delta is written exactly for valid parent-first trees that keep base identities, and is the delta of that tree |
| Saving.DeltaComesBack | internal/core/disk_index_cache_delta.go:6-230 | any delta written over an accepted base, stamped or not, denotes the edited tree and applies exactly when its checksum is not zero, the event does not go back and the totals are true |
| DeltaFormat.DeltaReadersAgree | internal/core/disk_index_cache_delta.go:96-230 | the heap reader takes exactly the deltas the mapped reader takes that leave no orphan |
| DeltaFormat.AppliedIsValid | internal/core/disk_index_cache_delta.go:96-230 | an applied delta gives a valid parent-first tree if it leaves no orphan |
| DeltaFormat.AcceptedBaseIsSound | internal/core/disk_index_cache_delta.go:96-150 | every accepted base file is one deltas may be applied to |
| DeltaFormat.DeltaHeaderIsHeaded | internal/core/disk_index_cache_delta.go:96-135 | the delta header test, read off the bytes at their fixed offsets: magic, version, base checksum, event order, lengths and the file's own hash at offset 100 |
| DeltaBytes.AlteredDeltaIsRefused | internal/core/disk_index_cache_delta.go:96-115 | a written delta altered anywhere but in its checksum is refused over every base by both readers, unless the change leaves the hash alone |
| DeltaBytes.AcceptedDeltaBytes | internal/core/disk_index_cache_delta.go:96-230 | in an accepted delta every base node keeps name and parent, and all else unless patched; a patch names its node by the stored name and parent; patched and appended fields are the stored bytes; counts and total are true |
| DeltaBytes.ListedAreChildren | internal/core/disk_index_cache_delta.go:170-230 | each stored list names exactly the live children of its directory, and every directory with a live appended child has one |
| Persistence.RunsKeep | internal/core/disk_index_persistence.go:31-141 | the protocol invariant holds after every interleaving of owner, writer and waiters |
| Persistence.SavesIncrease | internal/core/disk_index_persistence.go:45-101 | saves happen in strictly increasing sequence, each for a queued request |
| Persistence.NewestIsOnItsWay | internal/core/disk_index_persistence.go:31-65 | while anything queued is not completed a writer runs and the newest request is pending or in flight |
| Persistence.WriterCatchesUp | internal/core/disk_index_persistence.go:45-101 | from there the writer alone completes the newest request within two rounds whatever the outcomes |
| Persistence.FlushCovers | internal/core/disk_index_persistence.go:117-141 | a Flush that returns no error saw a successful save at least as new as everything queued before the call |
| Persistence.NoLostWakeup | internal/core/disk_index_persistence.go:117-141 | a waiter whose target is completed can always wake and return |
| Persistence.AdoptionIsExact | internal/core/disk_index_persistence.go:105-113 | adoption replaces only the snapshot and event it was built from and leaves the event alone |
| Persistence.NewerEditsSurvive | internal/core/disk_index_persistence.go:105-113 | over any run, once the owner published a snapshot or event no completed save was made of, no later completion or adoption replaces it |
| Persistence.AdoptionHappens | internal/core/disk_index_persistence.go:86-113 | when the last save was of what the owner holds and its new base was loaded back, the next adoption takes that base over |
| Persistence.EventIsPublished | internal/core/disk_index_macos.go:205-237 | in every run the event a replay starts from is the last one published if every scan remembered since was of the same volume, and zero otherwise |
| Persistence.HeldWasGiven | internal/core/disk_index_macos.go:205-240 | what the owner holds was last published or remembered, or was loaded back by a completed save at the owner's event |
| Persistence.HistoryIsKept | internal/core/disk_index_persistence.go:31-141 | a run's requests are those queued, its saves ended as the writer reported, and each flush waits for what was queued before it |
| Persistence.MacDiskIndex.QueuePersistence | internal/core/disk_index_persistence.go:31-43 | the locked fields change as the protocol's queue action says |
| Persistence.MacDiskIndex.TakeRequest | internal/core/disk_index_persistence.go:47-56 | taking the pending request, or stopping without one, is the protocol's take action |
| Persistence.MacDiskIndex.AdoptPersisted | internal/core/disk_index_persistence.go:105-113 | adopting a rebound scan is the protocol's adopt action |
| Persistence.MacDiskIndex.BeginFlush | internal/core/disk_index_persistence.go:117-122 | the first locked section of a flush is the protocol's start of a wait |
| Persistence.MacDiskIndex.ResumeFlush | internal/core/disk_index_persistence.go:122-132 | waking on the channel is the protocol's wake of that waiter |
| Persistence.MacDiskIndex.PublishScan | internal/core/disk_index_macos.go:200-213 | what loading and advancing end with is the protocol's publish action |
| Persistence.MacDiskIndex.RememberScan | internal/core/disk_index_macos.go:225-240 | remembering a scan is the protocol's remember action, which by EventIsPublished forgets the event of another volume |
| Persistence.MacDiskIndex.FinishSave | internal/core/disk_index_persistence.go:86-99 | reporting a save is the protocol's finish action |
| Publication.BasePublicationIsAtomic | internal/core/disk_index_cache.go:231-249 | stopping a base publication after any prefix leaves load returning the old state or the complete new one, each from one index under the coverage bound to it |
| Publication.DeltaPublicationIsAtomic | internal/core/disk_index_cache_coverage.go:83-98 | the same for a delta over a loadable base |
| Publication.CanonicalTwice | internal/core/disk_index_cache_coverage.go:36-52 | canonicalising coverage is idempotent |
| Publication.LoadFindsAll | internal/core/disk_index_cache.go:90-178 | load succeeds exactly when base and coverage belong together, and prefers the delta exactly when it is usable over that base |
| IndexCache.DiskIndexCache.PublishCovered | internal/core/disk_index_cache_coverage.go:83-98 | sidecar then index, with a fault allowed at each step; without faults it succeeds |
| IndexCache.DiskIndexCache.PublishBase | internal/core/disk_index_cache.go:231-249 | under any faults the reader keeps the old state or gets the new one, without any the new one; the watermark moves only with a publication |
| IndexCache.DiskIndexCache.PersistOverrides | internal/core/disk_index_cache_overrides.go:22-95 | the fast path publishes the snapshot whenever its conditions hold and no fault strikes, and otherwise declines and leaves what the full path needs |
| IndexCache.DiskIndexCache.Persist | internal/core/disk_index_cache.go:179-227 | a save succeeds whenever its coverage is canonical, its event is not behind the watermark or what loads, its tree is valid and encodable and no fault strikes; it is stale only when its event is behind; on success it is exactly what load returns |
| IndexCache.DiskIndexCache.PublishSpill | internal/core/disk_index_cache_format.go:376-440 | publishing an index built straight from a spill succeeds when nothing newer loads and no fault strikes, and under any faults keeps the old state or gives the new one and never moves the event back |
| IndexCache.Serve | internal/core/disk_index_cache.go:179-227 | one call, a save or a spill publication, and a restart after it, change what loads to that call's own result or not at all |
| IndexCache.Session | internal/core/disk_index_cache.go:179-227 | over any saves, spill publications, faults, crashes and restarts the loadable event never decreases, every state seen is the first or one whole publication, read from one index under its own coverage, and after a call that had to succeed it is that call's own |
| Saving.FastVerdictIsFull | internal/core/disk_index_cache_overrides.go:53-95 | on trees the editing operations keep, what the fast path accepts the full path would accept too |
| Saving.PublishedBase | internal/core/disk_index_cache.go:179-249 | the base written and stamped for a valid tree is a file that decodes, under its checksum, event and coverage digest |
| Saving.PublishedSpill | internal/core/disk_index_cache_format.go:376-440 | so is the base streamed from a sound spill |
| Saving.PublishedDelta | internal/core/disk_index_cache.go:179-227 | so is the delta written and stamped for a tree over an accepted base, which it names |
| SpillTrees.AppendSpillSubtree | internal/core/disk_tree_spill.go:17-109 | streaming a spill in place accepts exactly the well-formed spills and leaves the slots, totals and child rows of grafting its rolled-up tree, and takes over its gaps |
| SpillTrees.StreamingIsMaterialising | internal/core/disk_tree_spill.go:17-109 | it equals appending the materialised tree, slots and rows and the place gaps move to, but for the new root's time |
| SpillTrees.SpillFitsExactly | internal/core/disk_tree_spill.go:17-60 | a spill is accepted under a directory exactly when it has records and laying them out behind the tree as they come makes a tree files can hold |
| SpillIndex.SpillIntern | internal/core/disk_index_cache_format.go:557-573 | a name the table finds is not stored again; under hash collisions a name may be stored twice but every offset reads the right name |
| SpillIndex.CountSpillChildren | internal/core/disk_index_cache_format.go:450-468 | counts each parent's children and rejects exactly records whose parent lies outside the table |
| SpillIndex.PourUp | internal/core/disk_index_cache_format.go:517-525 | the reverse pass over the written records pours every total into its parent |
| SpillIndex.FillSpillIndex | internal/core/disk_index_cache_format.go:470-552 | two passes over the records write the base file of the spilled tree, or fail exactly when there are none, too many, or a parent is not earlier |
| SpillIndex.StreamedIsRolledUp | internal/core/disk_index_cache_format.go:470-552 | the totals poured in the file are the roll-up's |
| SpillIndex.StreamedIsAccepted | internal/core/disk_index_cache_format.go:376-400 | the file of any spill that could be written is accepted exactly when its records and root name are sound, its checksum is not zero and its labels are UTF-8 |
| SpillIndex.AcceptedSpillIsSound | internal/core/disk_index_cache_format.go:376-400 | a file written for an unsafe name or a file as parent is never accepted |
| SpillIndex.StreamedReadsBack | internal/core/disk_index_cache_format.go:341-552 | the streamed index decodes to the very tree materialising the spill would give, and is accepted exactly when checksum and labels allow |
| MftScan.MapIsSwap | internal/core/disk_mft.go:33-44 | the record-0/root swap is its own inverse on the table and names nothing outside it |
| MftScan.SwapKeepsEdges | internal/core/disk_mft.go:69-86 | slots are linked exactly as their records are |
| MftScan.SlotsAreRecords | internal/core/disk_mft.go:25-127 | in the built tree each slot is its record: the root is record 5, names, kinds and times are the record's, base records in use are live under the slot of their parent, and a file no link is walked through has its size with its extensions' |
| MftScan.MergeExtensions | internal/core/disk_mft.go:49-66 | each base file gets its own size plus all its extension records, capped |
| MftScan.PlaceRecords | internal/core/disk_mft.go:69-86 | places every record and counts live files, directories and bytes |
| MftScan.PairsAreExact | internal/core/disk_mft.go:92-127 | an extra pair is kept exactly when some record of the file names that parent and it is not the file's own, and once |
| MftScan.BuildMftTree | internal/core/disk_mft.go:25-127 | totals are the files rolled up plus one walk for each distinct extra pair, and the reported link, byte and file counts include each pair once |
| MftScan.BuildIsFixedPoint | internal/core/disk_mft.go:25-127 | recomputing leaves the built totals alone exactly when every extra parent has only directories at and above it |
| HardLinks.HardLinksAreFixed | internal/core/disk_tree.go:602-647 | totals with hard links are a fixed point of recomputation exactly when each link walk meets directories only |
| HardLinks.WalksAnyOrder | internal/core/disk_tree.go:624-647 | capped walks commute, so the order of link records is immaterial |
| HardLinks.ReplayedAre | internal/core/disk_tree.go:602-622 | a link is replayed exactly when its file is live and its parent is recorded for it, live, and not the file's own |
| HardLinks.DirectoryParentsAreNotEnough | internal/core/disk_tree.go:602-647 | a concrete table: a directory below a file as link parent makes recomputation change the totals |
| MftScan.DirectoryLinksCanDrift | internal/core/disk_mft.go:25-127 | the same as a record list every check of the builder passes |
| Selection.VerdictMeans | internal/core/disk_selection.go:23-35 | nearest-entry precedence without the walk: some inclusion at or above with no exclusion from there down |
| DiskSelection.DiskSelectionState.IsSelected | internal/core/disk_selection.go:23-35 | the parent walk returns that verdict |
| DiskSelection.DiskSelectionState.ChildSelected | internal/core/disk_selection.go:187-199 | given the verdict above, the path's own entries decide the same |
| DiskSelection.DiskSelectionState.Toggle | internal/core/disk_selection.go:44-75 | leaves exactly the specified maps, in whatever order the map is walked, and keeps them disjoint |
| Selection.ToggleIsTheChange | internal/core/disk_selection.go:44-75 | tidying the maps after the one real change alters no verdict |
| Selection.ToggleTidies | internal/core/disk_selection.go:44-75 | which entries a toggle adds and which it takes along: exclusions left with nothing selected above them, inclusions inside a new one that would be inherited anyway, and no others; sizes are kept |
| Selection.ChangeReaches | internal/core/disk_selection.go:44-75 | a toggle moves the verdicts its own entry decides, together, and no other |
| Selection.ToggleFlips | internal/core/disk_selection.go:44-75 | the path's verdict flips exactly when it had no entry of its own or would inherit the opposite |
| Selection.ToggleCanStick | internal/core/disk_selection.go:44-63 | the concrete run in which a second toggle leaves a path unselected |
| Selection.ClearingCanStick | internal/core/disk_selection.go:85-128 | a concrete run in which clearing a selected row leaves it selected, its inclusion being inherited anyway |
| DiskSelection.DiskSelectionState.Set | internal/core/disk_selection.go:76-80 | toggles exactly when the verdict is not the one asked for |
| DiskSelection.DiskSelectionState.SetMany | internal/core/disk_selection.go:85-128 | leaves exactly the specified maps and keeps them disjoint |
| Selection.BatchSetsRows | internal/core/disk_selection.go:85-128 | sibling rows end as asked: always when selecting, and when clearing exactly unless their own inclusion was inherited anyway; other paths keep their verdict |
| Selection.BatchTidies | internal/core/disk_selection.go:85-128 | after a batch no inclusion is left that is inherited anyway and no exclusion with nothing selected above it, and every size is one given |
| DiskSelection.DiskSelectionState.ResolveTargets | internal/core/disk_selection.go:153-185 | returns exactly the targets reached by splitting around exclusions; recursion is bounded by the deepest exclusion |
| DiskSelection.TargetsAreSafe | internal/core/disk_selection.go:153-185 | whatever the disk shows or hides, nothing excluded is at or under a target |
| DiskSelection.ResolutionIsExact | internal/core/disk_selection.go:153-185 | on a readable link-free tree a path is at or under a target exactly when selected with no exclusion strictly inside |
| RootCoalescing.TextPrefixIsAncestor | internal/core/disk_index_macos.go:534-538 | with a trailing separator textual prefix and ancestor are the same |
| RootCoalescing.PrefixesAreContiguous | internal/core/disk_index_macos.go:534-538 | what sorts between a prefix and its extension extends it too |
| RootCoalescing.CoalesceRoots | internal/core/disk_index_macos.go:534-545 | sorts and filters in place into the specified roots |
| RootCoalescing.Coalesced | internal/core/disk_index_macos.go:534-545 | kept roots are apart and cover each input exactly once if and only if the file-system root is absent or sorts first; coverage always holds |
| RootCoalescing.RootKeptBesideDash | internal/core/disk_index_macos.go:534-545 | the concrete input where it does not: the root beside a path whose first name starts with a dash |
| RootCoalescing.CoalescingKeepsMembership | internal/core/disk_index_macos.go:517-545 | a path is inside some input root exactly when inside some kept one |
| RootCoalescing.Contains | internal/core/disk_index_macos.go:517-532 | the parent walk finds exactly the paths at or under a member |
| Utf8.ByteSearchIsRuneSearch | internal/core/filename_pattern.go:24-42 | on valid UTF-8 a byte search finds a run of runes exactly when it is there |
| Wildcard.FoldsAlike | internal/core/filename_pattern.go:27-34 | two runes fold alike exactly when they are the same or one ASCII letter in both cases |
| Wildcard.FoldingBytesFoldsRunes | internal/core/filename_pattern.go:27-34 | folding byte by byte folds the runes |
| Wildcard.ContainsInsensitive | internal/core/filename_pattern.go:24-42 | true exactly when the folded bytes contain the literal |
| Wildcard.LastPart | internal/core/filename_pattern.go:83-90 | a query read from its end matches what it matches read from its start |
| Wildcard.OneByOne | internal/core/filename_pattern.go:71-92 | without stars a query matches exactly the names of its own length that agree with it rune by rune, but for the question marks |
| Wildcard.StarSplits | internal/core/filename_pattern.go:71-92 | a star stands for any run of runes: the query matches exactly when what is before the star matches a start of the name and what is after it a later end |
| Wildcard.NextRow | internal/core/filename_pattern.go:81-90 | one pass fills the next row from the previous one |
| Wildcard.TableMatch | internal/core/filename_pattern.go:71-92 | the two swapped rows decide the recursive meaning of the query |
| Wildcard.PrefilterKeepsMatches | internal/core/filename_pattern.go:50-70 | every literal run occurs in every name the query matches, so the prefilter rejects none |
| Wildcard.SubstringIsStarred | internal/core/filename_pattern.go:47-66 | a query without wildcards means the same as that query between two stars |
| Wildcard.Matches | internal/core/filename_pattern.go:59-93 | decides the meaning of a parsed query on a folded name |
| Wildcard.MatchesRaw | internal/core/filename_pattern.go:43-56 | holds exactly when the non-empty folded query means the folded name |
| PlanFlow.Steps | internal/core/plan.go:169-199 | numbers and chains the steps of all targets |
| PlanFlow.StepsAreChained | internal/core/plan.go:188-196 | ids are positions and each step waits for exactly the step before it on the same target |
| PlanFlow.TargetSteps | internal/core/plan.go:169-199 | a target's steps are its own actions whatever the other targets are |
| PlanFlow.ExecuteCapability | internal/core/plan_flow.go:46-150 | runs the specified step machine, whose log TouchedOnlyWhenChecked, TouchedAsPlanned and StatusIsAnswer describe, and leaves a failed entry for an unknown index |
| PlanFlow.AppliedAtMostOnce | internal/core/plan_flow.go:56-133 | for every plan, either executor and any surroundings a target is cleaned at most once and touched only after its first check succeeded |
| PlanFlow.TouchedOnlyWhenChecked | internal/core/plan_flow.go:69-126 | before the first call that touches a target the log holds, answered yes, the support, target, plan and preparation questions, and the occupancy question with a clear spot if occupancy matters; for an application, support and plan with an installation captured |
| PlanFlow.TouchedAsPlanned | internal/core/plan_flow.go:56-133 | the touching calls of a run are a prefix of the planned ones, in order, and all of them when every step succeeded |
| PlanFlow.StatusIsAnswer | internal/core/plan_flow.go:69-133 | the status of a step that was reached is the answer to its last call: which answers succeed, fail, block or leave it unknown, and cancelled exactly when the machine was called off |
| PlanFlow.TouchedUnlessCancelled | internal/core/plan_flow.go:62-68 | every touching call follows an answer that the run was not cancelled, with no other touch between |
| PlanFlow.StoppedForAReason | internal/core/plan_flow.go:62-133 | the first step that does not succeed made a call that was answered no, lacks its condition, or had no installation captured |
| PlanFlow.NothingStopsIt | internal/core/plan_flow.go:46-133 | a plan no answer stands in the way of is carried out to the end |
| PlanFlow.UnregisteredWhenAbsent | internal/core/plan_flow.go:107-118 | a worktree's registration is removed only after its directory was confirmed to be gone, or empty after a fallback |
| PlanFlow.StepsAreReported | internal/core/plan_flow.go:159-214 | every step is reported as planned, but that after a fallback what is applied and asked for is the emptying of the directory |
| PlanFlow.RunStops | internal/core/plan_flow.go:55-133 | results succeed up to one step and every step after the first failure is blocked |
| PlanFlow.StuckTouchesNothing | internal/core/plan_flow.go:62-64 | once stuck the machine makes no call but to name effective actions and changes no report |
| PlanFlow.CompleteIsAllSucceeded | internal/core/plan_flow.go:134-149 | a report is complete exactly when all steps succeeded; any other leaves a failed, skipped or manual entry |
| PlanFlow.CompleteIsVerified | internal/core/plan_flow.go:95-106 | a complete cleanup applied exactly once and its last call confirmed the condition that settles a target of its kind or, exactly when the executor fell back, that its contents are gone |
| PlanFlow.ExecutionResult | internal/core/plan_flow.go:354-371 | nil exactly for complete reports |

## Left out

- Refresh.RefreshTree: takes the classified changes and scan results as given; how events are listed, files looked at, scans run side by side and the rebuild threshold are not modelled, nor are the counters refreshed afterwards.
- Refresh.ApplyChange: asks that depths stay within one ancestor walk and totals within 64 bits; a write or rescan below a directory the tree does not know is dropped, as in the original.
- Replay.NoGapIsForgotten: where a rescan is grafted is the path of the directory found, which RefreshedContents.GraftedAtItsPath ties to the changed path up to case.
- RefreshedContents.GoneStaysGone: asks that names folded alike are one where the change is applied, since the lookup removes the first match only; RefreshedContents.ApartStays shows when that is so.
- RefreshedContents.LastScanStands: the same.
- SizeTrees.SizeTree.FindPath: the memo of shared path prefixes is not modelled; a place that has no path is kept apart from rooted ones.
- SizeTrees.SizeTree.RemoveSubtree: totals are kept exact only on trees without extra hard-link parents, as in the original.
- BaseEncoding.EncodeDiskIndex: asks for a tree the validator accepts, which its callers check first.
- SpillTrees.AppendSpillSubtree: asks that the bytes below fit 64 bits, since the spill path wraps where the tree saturates.
- SpillIndex.FillSpillIndex: asks for names of at most 2^16-1 bytes, which is what a spill can hold, and that the file fits 4 GiB with every name stored once more, so that 32-bit pool offsets cannot wrap; names are a growing sequence beside the table buffer, not the tail of the same mapping.
- MftScan.BuildMftTree: asks for fewer than 2^32 link records, so that file counters cannot wrap.
- SizeTrees.SizeTree.AppendSubtree: asks that both trees are consistent, so the branch for a child whose parent was not copied is never taken.
- DeltaWriter.WriteDelta: asks that child ids and counts fit 32 bits, which valid trees of at most 2^30 nodes do.
- DeltaRoundTrip.DeltaRoundTrip: asks that the delta's name pool is at most 2^32-1 bytes, since its records hold 32-bit offsets and the writer does not check.
- Saving.DeltaComesBack: the same bound on the pool.
- IndexCache.Session: asks that distinct publications get distinct checksums and that mapped bases are intact; a 64-bit checksum is an uninterpreted non-zero value. The verdicts a call carries are those of the validators and the codec by Saving.SnapshotOf; calls themselves carry no bytes. Labels are taken to be UTF-8: what is published is taken to decode.
- IndexCache.DiskIndexCache.Persist: the verdicts of validators and codec are fields of the snapshot, which Saving.SnapshotOf fills in.
- IndexCache.DiskIndexCache.PersistOverrides: the same; a tree with a live child under a tombstone is refused when it is compacted, where the original would hang that child on the root. FastVerdictIsFull shows the editing operations leave no such tree.
- Quarantine.QuarantineUnrepresentable: a directory marked may itself be dropped later, and two of one name share a mark.
- Wildcard.MatchesRaw: names and queries are valid UTF-8, held as runes together with their encoding.
- DiskSelection.DiskSelectionState.ResolveTargets: the order of the result is not modelled, only its members.
- RootCoalescing.CoalesceRoots: paths are cleaned and absolute, held as lists of names; the library sort is modelled by its result.
- Memory mapping, page release, fsync, temporary files, file-type checks and JSON text: files are values and the sidecar is a record.
- The gate of Load, Advance and Remember is over-approximated: the protocol allows their effects at any point.
- The shared backing array behind child rows, and concurrent reading of a published snapshot.
- FSEvents replay, native walkers, raw MFT reading, volume scans and the APFS firmlink repair after loading.
- Logging, clocks, orphan pruning, largest-file rankings and search order.
- Path safety policy, rule revalidation, ValidateBinding and target scopes: their answers are parameters of the step machine, or they add only case listings.
- Selection totals, which are not exact by design; the sizes they are summed from are kept.
