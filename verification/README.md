# A Dafny model of the PST storage engine

These modules model the second-generation PST writer (`writer/v2`): an in-memory database of nodes and blocks over a 64-byte
slot allocator, its reference-counted data and subnode trees, transactions, the crash-safe commit, the handles it owns, and the
heap, B-tree and table formats on top. They also model the folder tree and export plan that use the engine, the package reader's
searches and reads (`pkg/ndb`) where they must agree with the writer, and the compressed-RTF decoder (`pkg/rtf`). Each property
below is proved for all inputs, runs or reachable states its contract names; `dafny verify dfyconfig.toml` checks them.

How the pieces fit:

- `Geometry`, `Blocks`, `Store`, `Catalog`, `Survival`, `Ndb`, `Ownership`: the allocator and the catalog. One invariant, `Holds`,
  says that reference counts are exactly the references that exist and that the allocated slots are exactly the map pages, tree
  pages and live blocks, disjointly. Every database operation keeps it, and `Survival` says, by chains of references alone, which
  blocks an operation may take away.
- `DataTree`, `DataTreeWrite`, `PackageReader`, `Subnodes`, `Shapes`, `NodeContents`: payload trees, their builders, walkers,
  validators and readers, and why an operation on one node leaves the others' contents alone.
- `BTree`, `PagePlan`, `Encode`, `EncodeCatalog`, `CheckTrees`, `Reopen`, `Runs`, `ReaderRuns`, `FailingRuns`: the on-disk catalog
  trees and the pages they will take, lookups by both readers, the tree check, commit followed by reopening, whole runs of the
  database and what the package reader finds after them, and the runs on which a commit or a reopening is refused.
- `Journal`, `Crash`, `CommitBody`, `Handles`: byte-level rollback, crash safety of the two-phase write, the bytes a commit
  writes, and which handle is open, owned or closed.
- `Heap`, `Bth`, `TableLayout`, `TableInfo`, `TableRows`, `Tables`, `TableCommit`, `TableReader`, `HeapStore`, `TableStore`,
  `TypedCells`: the heap, its B-tree and tables, byte for byte, from an edit to the node that holds the table and back.
- `ExportPlan`, `Folders`, `PlanFolders`, `FolderRuns`: the planned folder forest, the folder tree with its redundant tables, and
  the one made from the other.
- `Lzfu`: the decompressor's ring buffer against an unbounded history, and token lists that round-trip through it.

Objects the source updates in place are classes here with the same fields, and their loops are loops; each such method is proved
against a specification function or predicate, and lemmas prove what the source promises about those.

## Findings

Where the code does not do what its tests or documentation say, the model follows the code, names an input, and proves exactly
when the property holds.

- A transaction that runs another one loses its byte journal: the inner begin replaces it and the inner end clears it
  (`writer/v2/tx.go:367-393`, `writer/v2/store.go:651-662`). `NestedTxnKeepsWrite` is such a run; `RollbackExactly` says that
  rollback is exact on every file just when no inner transaction was started or no byte below the old end was left overwritten.
- Subnode entries that share a `bidSub` are built one by one but make a tree that cannot be reopened (`SharedSubnodeRefused`).
  `SharedRun` builds, commits and fails to reopen one; `CommitAndReopen` gives the exact condition.
- Block reference counts are stored in 16 bits. A count that truncates below what reopening finds makes the file unreadable
  (`TruncatedCountRefused`). `TruncatedRun` puts 65536 nodes over one block; `EncodeAccepted` and `CommitAndReopen` give the exact
  condition, and below 65535 references nothing is lost (`SmallCountsFit`, `SmallCountsCover`).
- `Node.Read` panics exactly when the offset lies in the node and offset plus size wraps past 2^64 (`NodeRead`, `HugeReadFails`).
- Tables accept one- and two-byte cells for values kept by reference, but the reference is four bytes: it runs over the next cell
  or past the row, and cannot be read back. `AllRoundTripExactly` gives the condition on the columns, `RoundTripsExactly` the one
  on a table, `NarrowTableFails` a table that fails.
- A new folder can get the index of a search folder, and the two then share their tables (`FolderTree.Create`, `SharedIndex`,
  `SharedTablesLie`). `CollidingRun` gets there from a blank store; `Create` keeps the tree coherent exactly when the index is free.
- A blank store whose display name is one of the two fixed folder names has two siblings of that name (`MinimumDistinct`).
- An end marker in compressed RTF ends its own control byte only; decoding goes on behind it, so it ends the output exactly
  when nothing that follows produces any (`EndMarkerContinues`).
- A commit of a sound catalog can fail, and then gives every page back, because a new page's identifier is the page's own offset.
  `CommitsClash` is such a run, 9982 commits of an empty database. `Encode` fails exactly when a stored count is zero, or the k-th
  page it would take has the k-th identifier for its offset, or identifiers run out (`Clash`); never while they stay below 0x4400
  (`LowIdentifiers`, `FewPages`).

## Model

| member | source | states |
|---|---|---|
| Geometry.RegionMapPages | writer/v2/geometry.go:75-91 | The map pages of a region stand one after the other from its first byte, one to four of them. |
| Geometry.MapPagesAre | writer/v2/geometry.go:75-109 | An AMap stands in every region, a PMap exactly in every eighth, an FMap exactly in regions 128 + 496k, an FPMap exactly in regions 8(1024 + 3968k); each at most once, in this order. |
| Geometry.SlotsForSize | writer/v2/geometry.go:49-61 | Accepted are exactly the positive multiples of 64 up to one region, and the slots times 64 are the size. |
| Allocation.MarkedUsed | writer/v2/store.go:328-340 | For an accepted extent, marking adds exactly its slots to the used ones, all free before, and freeing removes exactly them, all used before. |
| Allocation.Store.Mark | writer/v2/store.go:305-342 | Accepted exactly when the extent is aligned, inside one existing region and wholly in the other state; then those bits flip and the payloads in the extent are gone; a refusal changes nothing. |
| Allocation.Store.Grow | writer/v2/store.go:61-71 | Appends the region whose map pages are marked; payloads of older regions stay. |
| Allocation.FreeAndUsed | writer/v2/store.go:90-96 | The free slots counted region by region and the used ones are together all slots. |
| Allocation.FreshHasRoom | writer/v2/store.go:163-249 | A region just grown has a free, suitably aligned window for every size Allocate accepts, so one Grow is enough. |
| Allocation.AllocatedFromBase | writer/v2/store.go:163-222 | Taking the lowest window adds exactly its slots to the used ones; free bytes fall by exactly the size, after rising by a grown region's free bytes when nothing was free. |
| Allocation.Store.Allocate | writer/v2/store.go:163-195 | Fails exactly on sizes that are zero, not multiples of 64 or above 8192; otherwise takes the lowest free window of an existing region, or of the one region grown when there is none. Payloads elsewhere stay, and the window holds none. |
| Allocation.Store.AllocatePage | writer/v2/store.go:199-249 | Always succeeds, with the lowest free 512-aligned page, growing only when no region has one. |
| Allocation.Store.FirstFitAligned | writer/v2/store.go:224-249 | Finds the lowest aligned free window, and fails exactly when there is none, although it skips past the first used slot of each window it rejects. |
| Allocation.Store.Reserve | writer/v2/store.go:253-276 | Accepted exactly when the extent lies in one region and all its slots are free; then exactly those become used. |
| Allocation.Store.Free | writer/v2/store.go:279-293 | Accepted exactly when the extent lies in one region, all its slots are used and none belongs to a map page; then exactly those become free. |
| Allocation.Store.NoteBlockBID | writer/v2/store.go:130-139 | The block counter never falls and ends past the noted identifier; zero and reserved identifiers are refused. |
| Blocks.EncodedSizes | writer/v2/subnode.go:30-89 | A block's length is that of its fields: an eight-byte header, then entries of one, three or two eight-byte fields. |
| NodeDatabase.FreshBid | writer/v2/ndb.go:74-115 | The next counter value, internal or not, names no live block, and every live block is older. |
| NodeDatabase.NDB.AllocBlock | writer/v2/ndb.go:74-115 | Fails exactly on more than 8176 bytes or an exhausted counter; otherwise the catalog gains one block at a free extent, and ownership and the partition of the file stay exact. |
| NodeDatabase.NDB.PutBlock | writer/v2/ndb.go:58-71 | A caller-chosen block is accepted exactly when its identifier is new and valid and its extent is free; it then counts one reference, its own entry, and the invariants hold. |
| NodeDatabase.ExtentFree | writer/v2/ndb.go:153-191 | An extent is free exactly when it meets no map page, live tree page or live block, so the code's three overlap scans and the bitmaps agree. |
| NodeDatabase.NDB.PutNode | writer/v2/ndb.go:194-220 | Fails exactly on a bad identifier or a missing block. Otherwise only this node changes; gone is exactly each block that a chain of payload references from the previous data or sub led to and that nothing else leads to now; every other block, older orphans included, is live with extent and payload. Ownership and the partition stay exact. |
| NodeDatabase.NDB.DeleteNode | writer/v2/ndb.go:223-233 | Fails exactly on a missing node; otherwise the node goes, with exactly the blocks only its data and sub led to; every other block stays, with extent and payload, and ownership and the partition stay exact. |
| NodeDatabase.NDB.AddExtra | writer/v2/ndb.go:266-272 | Recording one payload reference keeps the counts exact for the references recorded so far; it fails exactly on a dead target. |
| NodeDatabase.NDB.ReleaseExtra | writer/v2/ndb.go:274-287 | Giving back the reference of a gone block never fails and restores the exact counts; its target may follow in cascade. |
| NodeDatabase.NDB.DropBlock | writer/v2/ndb.go:343-435 | Dropping an orphan never fails while payloads pass their inspections (see DropsInspect): its extent was allocated and not a map page, what it referenced is released in cascade, and the invariants hold again. The cascade ends because every step loses a block. |
| NodeDatabase.NDB.ReclaimOrphans | writer/v2/ndb.go:437-450 | Never fails and leaves no orphan: the blocks that stay are exactly those some node, opaque count or surviving block still leads to, with extent and payload. |
| Survival.LeftSurvivors | writer/v2/ndb.go:343-435 | Whatever order blocks are dropped in, each an orphan then and down to none, those left are exactly the ones that were spared or that a surviving reference leads to: a statement on nodes and payload references alone. |
| Survival.LostHung | writer/v2/ndb.go:343-435 | A block that goes with a node hung from it: a chain of payload references led to it from what the node gave up. |
| NodeDatabase.NDB.CheckRefCounts | writer/v2/ndb.go:453-474 | Never finds a fault in a database driven through these operations. |
| Ownership.CountsMatchPayloads | writer/v2/ndb.go:305-325 | The stored count of every live block is 1, plus the nodes naming it, plus the times live payloads mention it, plus its opaque count, modulo 65536. |
| Ownership.LiveIffReachable | writer/v2/ndb.go:343-450 | After reclamation, without opaque counts, the live blocks are exactly those reachable from nodes. |
| Ownership.SlotOwner | writer/v2/ndb.go:58-191 | A slot is allocated exactly when a map page, a live tree page or a live block has it, and no two live blocks meet: no leak and no overlap. |
| DataTrees.InspectXBlock | writer/v2/xblock.go:60-103 | Accepts exactly the well-formed extended blocks: level 1 or 2, 1 to 1021 distinct valid identifiers of the right kind. |
| DataTrees.DataTreeIter.Next | writer/v2/xblock.go:240-329 | Every step yields the next leaf in order; it ends exactly on acceptable trees, with all leaves produced, and fails only on others. It terminates on every catalog. |
| DataTrees.WalkDataTree | writer/v2/xblock.go:333-352 | Accepts exactly the acceptable trees (live, right levels, nothing twice, total right) and yields their leaves and total. |
| DataTrees.ReadAll | writer/v2/xblock.go:368-417 | With any buffer size, reading to the end gives the leaves' bytes, as many as the tree's total says; it succeeds on every tree whose leaves are as long as the catalog says. |
| DataTreeBuilder.PutDataTree | writer/v2/xblock.go:108-222 | All or nothing. What it stores reads back, everything older keeps extent and payload, each reference is counted, and it succeeds on every input under 2^32 bytes (with a right or no expected length) while identifiers last. |
| DataTreeBuilder.RoundTrip | writer/v2/xblock.go:108-417 | Put then read gives the same bytes, through direct, XBLOCK and XXBLOCK shapes. |
| DataTreeBuilder.NoXXXBlock | writer/v2/xblock.go:198-200 | Below the 32-bit length limit at most 515 XBLOCKs are needed, so the limit of 1021 is never met. |
| PackageReader.ReaderAgrees | pkg/ndb/node.go:88-137 | The package reader's recursion visits, for every tree the writer accepts, the same leaves in the same order. |
| PackageReader.ReadNodeData | pkg/ndb/node.go:88-137 | It returns exactly those leaves' payloads and their total length, finding blocks with the internal bit cleared; StoreRunRead discharges what it asks of the catalog. |
| PackageReader.NodeRead | pkg/ndb/node.go:177-224 | Fails exactly when the offset lies inside the node and offset plus size wraps past 2^64, where the code asks for an impossible buffer and panics; otherwise the result is the matching slice, cut at the end. |
| PackageReader.FittingRangeReads | pkg/ndb/node.go:177-224 | Every range whose end fits 64 bits reads, and two adjacent reads join up to the one read of both. |
| PackageReader.HugeReadFails | pkg/ndb/node.go:177-224 | The failing input: blocks [1] and [2], offset 1, size 2^64 - 1. |
| ReaderRuns.RunEncodeRead | pkg/ndb/database.go:192-348 | After every run from an empty database, and a commit, both lookups of the package reader answer like the maps, for every key; cleared identifiers are distinct then. There is no answer only when the commit failed, and then for the reasons RunThenReopen gives. |
| ReaderRuns.StoreAll | writer/v2/xblock.go:108-222 | Several byte strings stored one after the other: every tree still stores its own when the last is written. |
| ReaderRuns.StoreRunRead | pkg/ndb/node.go:88-224 | A stored byte string made the data of a node is, after any run that does not name the node, exactly what the package reader loads, and its ranged read is the matching slice; it fails only as NodeRead says. |
| Subnodes.InspectSubnode | writer/v2/subnode.go:219-295 | Accepts exactly the SLBLOCKs and SIBLOCKs with sorted, valid entries. |
| Subnodes.ValidateAt | writer/v2/subnode.go:135-216 | Accepts exactly the trees of the right shape in which no subnode block is met twice, nested trees included, and terminates. |
| Subnodes.CheckRoles | writer/v2/subnode.go:103-129 | Accepted exactly when every bidData is a data tree and every bidSub a subnode tree. |
| Subnodes.PutSubnodeTree | writer/v2/subnode.go:299-378 | All or nothing. The tree holds exactly the given entries in identifier order, everything older stays, and each reference is counted. It succeeds on up to 340 * 510 valid entries with distinct identifiers, while block identifiers last. |
| Subnodes.WalkSubnodes | writer/v2/subnode.go:381-443 | Visits the entries of every well-shaped tree, in order; whatever it accepts it visits wholly. |
| Reopening.SharedSubnodeRefused | writer/v2/subnode.go:135-217 | Two entries of an SLBLOCK with one bidSub: each passes the builder's check of its own roles, and a validation of the whole tree meets a block twice. |
| FailingRuns.SharedRun | writer/v2/subnode.go:135-217 | The failing run: a subnode tree, one with two entries over it, and a node over that are accepted and committed, and reopening the file is refused. The database that was made is given back, so the condition can be seen on it. |
| BTree.ChooseChild | writer/v2/btree.go:300-311 | The last child whose key is at most the wanted one; none exactly when the first key is larger. |
| BTree.Lookup | writer/v2/ndb.go:786-829 | On a full sorted tree of any height the descent finds the entry with the key, and fails exactly when there is none. |
| BTree.ReaderSearch | pkg/ndb/database.go:221-348 | The package reader's search does the same, also with the internal bit cleared on both sides. |
| TreeEncoder.EncodeTree | writer/v2/ndb.go:700-751 | Builds, on pages used once each, a tree whose leaves are exactly the sorted entries, of fewer than 64 levels for 64-bit counts. It fails exactly when a block entry counts nothing, or the k-th page it would take stands at the offset that is the k-th page identifier, or there is no such identifier. |
| TreeEncoder.PageNotMetadata | writer/v2/ndb.go:516-530 | An allocated page never sits on a map page, so that check of the encoder never fires. |
| CatalogEncoder.Encode | writer/v2/ndb.go:536-601 | On success the two trees list exactly the catalog, the live pages are exactly the trees' pages, at the planned offsets, the superseded pages are free, and of the blocks exactly those nodes or opaque counts lead to are left; on failure every page taken is free again. It fails exactly when some stored count is zero, or one of the pages the catalog needs would get its own offset for identifier, or identifiers run out: a condition on the state before the call. Ownership and the partition hold throughout. |
| PagePlan.LowIdentifiers | writer/v2/ndb.go:536-563 | While the identifiers needed stay below the first map page's offset, 0x4400, no page meets its own. |
| PagePlan.FewPages | writer/v2/ndb.go:700-751 | A tree takes at most a tenth more pages than leaves, and one, with 15 nodes or 20 blocks on a leaf; so the number of identifiers needed follows from the numbers of nodes and blocks. |
| FailingRuns.CommitsClash | writer/v2/ndb.go:536-601 | The failing run: 9981 commits of an empty database succeed, and the next fails, because its BBT page at 0x4E00 would get the identifier 0x4E00; the database is still empty and valid then. |
| CatalogEncoder.LookupNode | writer/v2/ndb.go:786-797 | The written NBT answers exactly like the node map. |
| CatalogEncoder.LookupBlock | writer/v2/ndb.go:800-811 | The written BBT answers exactly like the block map. |
| CatalogEncoder.ReadNode | pkg/ndb/database.go:192-265 | So does the package reader, for nodes. |
| CatalogEncoder.ReadBlock | pkg/ndb/database.go:268-348 | And for blocks, comparing with the internal bit cleared, while cleared identifiers are distinct (as they are after every run, see RunEncodeRead). |
| NodeDatabase.RegisterKeepsStripDistinct | writer/v2/ndb.go:58-115 | Cleared identifiers stay distinct exactly when a newly registered one equals no older one once cleared. |
| TreeChecker.CheckTrees | writer/v2/ndb.go:872-964 | Accepts exactly the images that hold two finite trees of pages, each page and identifier met once, with consistent separators and counts, and terminates on every image, cyclic ones included. |
| TreeChecker.WalkLeaves | writer/v2/ndb.go:855-869 | On any image that holds a finite tree the recursion ends and visits its entries, although levels are never compared. |
| TreeChecker.CollectPages | writer/v2/ndb.go:1010-1036 | The same for the page offsets, parents first. |
| TreeChecker.EncodeAccepted | writer/v2/ndb.go:872-964 | CheckTrees accepts what Encode wrote exactly when no stored count was truncated below what it counts again. |
| TreeChecker.SmallCountsFit | writer/v2/ndb.go:309-312 | Below 65535 references to each block nothing is truncated, so acceptance is unconditional. |
| TreeChecker.TruncatedCountRefused | writer/v2/ndb.go:309-312 | A block whose references are a multiple of 65536 is stored with a count of 1, and such a catalog does not pass. |
| FailingRuns.TruncatedRun | writer/v2/ndb.go:309-312 | The failing run: 65536 nodes over one data block are accepted and committed, and reopening the file is refused; the database holds those nodes and that block. |
| Reopening.LoadStore | writer/v2/store.go:1071-1183 | The maps and counters of the file come back, refused exactly when a map page is not allocated, there is no region, or a counter is out of range. |
| Reopening.ReconstructTreeRefs | writer/v2/ndb.go:1187-1236 | Fails exactly on a payload that does not validate; otherwise the typed counts are the exact numbers of payload references. |
| Reopening.ApplyExtraRefs | writer/v2/ndb.go:1238-1254 | Fails exactly when a stored count is below the references found; the rest becomes the opaque count. |
| Reopening.OpenNDB | writer/v2/ndb.go:1070-1147 | A committed file is accepted exactly when counts cover and payloads fit; then nodes, blocks, typed counts, bitmaps, payloads, counters and live pages are the committed ones. |
| Reopening.CommitAndReopen | writer/v2/ndb.go:536-1147 | Commit then reopen gives back the database, opaque counts included below 65535 references; refused exactly when a count was truncated or a subnode tree shares a block. |
| PayloadShapes.GrewShapely | writer/v2/xblock.go:160-222 | Every tree payload stays well formed when a data or subnode tree is added. |
| PayloadShapes.FewerShapely | writer/v2/ndb.go:194-449 | And when blocks are lost to a changed or deleted node, reclamation or a commit: trees go whole. |
| PayloadShapes.DropsInspect | writer/v2/ndb.go:375-421 | Where payload trees are whole, every internal payload passes InspectXBlock or InspectSubnodeBlock, and still does while blocks are dropped one after the other, so dropBlock never meets their error in a run. |
| NodeContents.NodeLeft | writer/v2/ndb.go:194-449 | A node an operation does not name keeps every leaf of its data tree and every subnode with its leaves, whatever else is dropped. |
| StoreRuns.Do | writer/v2/ndb.go:194-601 | Each call does what it says: a tree that stores the bytes or entries, a node put or deleted when it may be, orphans reclaimed, older blocks and payloads kept, nothing changed by a refusal. It keeps exact ownership, the exact partition, well-formed payload trees, distinct cleared identifiers, and what every node it does not name holds. |
| StoreRuns.RunFrom | writer/v2/ndb.go:194-1147 | So does every finite run of builds, edits, reclamations, commits and reopenings, whatever the calls return; the run passes through states in which each call did what it says. |
| StoreRuns.RunThenReopen | writer/v2/ndb.go:1070-1254 | After any run from an empty database, a commit reopens exactly unless a count was truncated or a subnode tree shares a block. The commit itself fails only if a stored count is zero or page identifiers have come to 0x4400. |
| UndoJournal.SkipCovered | writer/v2/store.go:664-676 | Steps over exactly the journalled or the unjournalled stretch at a position. |
| UndoJournal.ByteStore.NoteUndo | writer/v2/store.go:678-704 | Saves the original bytes of exactly the part of a range that was not saved yet and lies below the old EOF. It fails exactly when it comes to an unreadable byte, and then exactly the stretches before that byte's are saved. |
| UndoJournal.ByteStore.Overwrite | writer/v2/store.go:724-742 | The range is saved before it is overwritten, so saved bytes plus untouched ones are the file at the start, torn writes included. |
| UndoJournal.ByteStore.RestoreUndo | writer/v2/store.go:706-722 | On success every saved byte has its old value and no other byte moved; on an I/O failure each byte has its old or its current value. |
| UndoJournal.ByteStore.RunTxn | writer/v2/tx.go:341-393 | Without faults a run succeeds exactly when every step fits. After success every byte below the old end that no completed write or clear covers is the old one, every covered byte is the last such step's, zero for a clear, and the end has moved by what the steps grew. A run is what the value-level transaction says unless writing back fails. A failed body that started no inner transaction leaves the very file, cut to its old length; a spool made inside is dropped again. |
| UndoJournal.ByteStore.EnsureSpool | writer/v2/store.go:744-766 | The spool takes over every byte below the end of file, so no reader sees a difference. |
| UndoJournal.WhenRuns | writer/v2/tx.go:382-393 | Without faults a body runs through exactly when no step stops it and every write ends inside the file as grown by then, inner transactions included; and the end moves by exactly what the steps grow. |
| UndoJournal.RunLeaves | writer/v2/tx.go:382-393 | What a body leaves, for every file, as a statement on its list of steps alone: uncovered bytes stay, covered ones are the last covering step's. |
| UndoJournal.FailedLeaves | writer/v2/tx.go:382-393 | What a failed transaction leaves, for every body: the old file when no inner transaction was started, else the steps' writes cut to the old length. |
| UndoJournal.RollbackExactly | writer/v2/tx.go:382-393 | The caller's form: a failed body is rolled back byte for byte, whatever the file holds, exactly when it started no inner transaction or left no byte below the old EOF overwritten; which bytes those are does not depend on the file. In every other case some file shows the difference. |
| UndoJournal.NestedTxnKeepsWrite | writer/v2/tx.go:382-393 | The failing run: inner transaction, a write, a failing step. The write survives. |
| DataTreeBuilder.Restore | writer/v2/state.go:19-76 | Restoring a snapshot gives back every captured field of store and catalog. |
| CrashSafety.WriteTwoPhase | writer/v2/tx.go:418-453 | After every single step, failing or not, whatever subset of unsynced writes reached the disk, a VALID header stands only over the complete old or the complete new image; success means the new one is durable, and a device without faults succeeds. |
| CrashSafety.PublishSink | writer/v2/tx.go:250-282 | The same for copying a finished stage over a destination. |
| CrashSafety.CommitFile | writer/v2/ndb.go:662-698 | The path names the complete old file until the rename, and the complete synced new one after. |
| CommitBody.ZeroFreeSlots | writer/v2/store.go:947-968 | The runs written are zeros over exactly the free slots of all regions. |
| CommitBody.BodyIs | writer/v2/tx.go:455-493 | Every byte behind the header is a tree page's, else a map page's, else the density list's, else zero in a free slot, else the payload source's, else what the destination held. |
| CommitBody.WriteCommit | writer/v2/tx.go:455-512 | The real sequence of writes is crash-safe at every step and publishes exactly that image, always on a device without faults. |
| CommitBody.PayloadsCarried | writer/v2/tx.go:455-512 | By the exact partition of the file, every byte of every live block is the payload source's in the new image. |
| HandleOwnership.Sources.CommitTo | writer/v2/ndb.go:613-648 | On every path, with or without a spool, each owned file is open in exactly one role or was closed exactly once, and payloads are read from an open, complete source: the destination, a complete stage, or what it was. A file of ours is held exactly while the destination may write through it. With an image that encodes and files that do not fail it succeeds, except onto its own spool. |
| HandleOwnership.Sources.Publish | writer/v2/ndb.go:613-648 | The same from the finished stage on: a failed copy keeps the stage as the source, and holds the old file exactly if the destination may write through it. |
| HandleOwnership.Sources.AdoptPublished | writer/v2/tx.go:514-531 | The destination becomes the borrowed source and stays open whatever else is closed; a file stays held exactly when the destination may write through it. |
| HandleOwnership.Sources.CommitFile | writer/v2/ndb.go:662-698 | The renamed file is adopted as the one owned source, or the sources stay as they were; with an image that encodes and files that do not fail it is adopted. |
| HandleOwnership.Sources.RetainOwned | writer/v2/tx.go:106-124 | A file the destination may still write through is kept open instead of closed; no other is. |
| HandleOwnership.Sources.CloseHandle | writer/v2/tx.go:182-200 | A borrowed handle is never closed; an owned one is closed once even when closing reports an error. |
| HandleOwnership.Sources.Shutdown | writer/v2/ndb.go:1149-1154 | Afterwards every file ever owned was closed exactly once, and no other. |
| LzfuDecoder.DecompressLzfu | pkg/rtf/decompress.go:143-220 | The ring-buffer decoder outputs exactly what a decoder copying from the unbounded history of zeros, preloaded text and output would, overlapping copies and truncated input included. And any list of tokens, literals and pairs of a dictionary position and a length, written as control bits, lowest first, and the two bytes of each pair, comes back as what the tokens say. |
| LzfuDecoder.CopyReference | pkg/rtf/decompress.go:143-220 | The copy loop, reading and writing the ring byte by byte, appends the bytes at that distance in the history, cut at RawSize. |
| LzfuDecoder.CopiedRepeats | pkg/rtf/decompress.go:143-220 | A copy longer than its distance repeats that stretch of history. |
| LzfuDecoder.DecodeBounded | pkg/rtf/decompress.go:143-220 | No input makes the output longer than RawSize, and output only grows. |
| LzfuDecoder.EndMarkerContinues | pkg/rtf/decompress.go:143-220 | An end marker at any bit ends its own control byte only; decoding goes on with what follows. So it ends the output exactly when no literal or other reference follows. |
| LzfuDecoder.TokensDecode | pkg/rtf/decompress.go:143-220 | The same for the reference decoder: a pair at position p copies from the 4096-byte dictionary as the tokens before it have left it. |
| LzfuDecoder.LiteralsRoundTrip | pkg/rtf/decompress.go:143-220 | Every byte string has an encoding that decodes to it. |
| ExportPlan.Session.CreateFolder | writer/v2/exporter.go:90-129 | Accepted exactly when the session is open, the parent known, the name free beside it ignoring case, and depth and number within limits; then one folder joins, one level under its parent. |
| ExportPlan.Session.RenameFolder | writer/v2/exporter.go:154-175 | Accepted exactly when the session is open, for an ordinary folder and a name free among its siblings; only the name changes. |
| ExportPlan.Session.MoveFolder | writer/v2/exporter.go:177-234 | Accepted exactly when the new parent is not below the folder, the name is free there and the folder itself stays within the depth limit; then the whole subtree shifts by one difference and stays a tree. |
| ExportPlan.Session.RecomputeDepth | writer/v2/exporter.go:221-234 | The unguarded recursion ends and sets exactly the depths below the folder. |
| ExportPlan.Session.DeleteFolder | writer/v2/exporter.go:236-273 | Accepted exactly for an ordinary folder with no planned message at or below it; exactly its subtree goes. |
| PlanFolders.MakeOne | writer/v2/folders.go:521-555 | One planned folder is made by Create below the node its parent has; every other folder keeps name and parent. While the tree has room and the plan is sensible, only an I/O error refuses it. |
| PlanFolders.CreateFromPlan | writer/v2/folders.go:521-555 | On a session's plan a missing parent or cycle is never reported. On success the root and the display folder map to their own nodes, the map is injective, every planned folder's node has its name and hangs below its parent's node, and nothing else changed; folders are made once each, after their parents. With names distinct among siblings and depths and numbers within limits it fails only on an I/O error. |
| HeapOnNode.HIDParts | writer/v2/heap.go:19-30 | A HID gives back its page and allocation and is never zero. |
| HeapOnNode.Heap.Fits | writer/v2/heap.go:116-127 | Accepted exactly when the page, encoded with one more allocation of that size, still fits a block. |
| HeapOnNode.Heap.Allocate | writer/v2/heap.go:105-166 | Large values become subnodes under new identifiers; small ones a HID that named nothing before, and all earlier HIDs keep naming what they named. It fails only with all 65536 pages in use. |
| HeapOnNode.EncodePages | writer/v2/heap.go:203-285 | Never fails, and every page is at most 8176 bytes. In the bytes themselves: the page map's offset first, in the map the number of allocations and where each stands, signatures and user root on the first page; and for every page two bits of the right header byte, lowest first, say whether it leaves less than 3584, 2560 or 2048 bytes free, all other such bits being zero. |
| HeapOnNode.PackedAt | writer/v2/heap.go:57-71 | Packing one page's fill level changes that page's level only. |
| HeapOnNode.AllocationsReadable | writer/v2/heap_read.go:8-64 | On every page the inspector accepts, each index from 1 to cAlloc reads, and every other is an argument error: the later bounds check never fires. |
| HeapOnNode.ParsedEncoded | writer/v2/heap.go:244-285 | Every page that fits is accepted by the inspector, which finds its header and offsets. |
| HeapOnNode.OpenHeap | writer/v2/heap_read.go:80-156 | Accepts exactly when there is a page, every page parses and every fill level is right. |
| HeapOnNode.HeapReopens | writer/v2/heap_read.go:8-156 | Whatever was encoded is accepted, fill levels included. |
| HeapOnNode.ReadsPages | writer/v2/heap_read.go:54-64 | On every accepted heap, reading a HID is looking it up among the pages' allocations; other HIDs fail. |
| HeapOnNode.RoundTrip | writer/v2/heap.go:203-242 | Encode, open and read: each HID gives exactly the bytes it was allocated for, and an error if none. |
| HeapStore.PutLeaves | writer/v2/heap.go:376-405 | Each chunk becomes one data block, and the tree over them holds exactly those leaves, in order. |
| HeapStore.Materialize | writer/v2/heap.go:324-372 | Every encoded page is a leaf of the data tree, every large value a subnode whose leaves join to it, cut where it asked to be; everything older stays. |
| HeapStore.CommitHeap | writer/v2/heap.go:289-305 | All or nothing: the node then holds the pages, in the bytes EncodePages promises, and the large values, and every other node holds what it held. It succeeds for every proper node identifier when each large value fits a data tree and block identifiers last. |
| BTreeOnHeap.Compare | writer/v2/bth.go:193-213 | The comparison is the order of the little-endian integers, and equal only on equal keys. |
| BTreeOnHeap.Sort | writer/v2/bth.go:215-223 | In place: ascending, and the same entries. |
| BTreeOnHeap.BTH.Insert | writer/v2/bth.go:37-54 | Refused exactly on a wrong size or a key already there. |
| BTreeOnHeap.BTH.Build | writer/v2/bth.go:109-190 | The heap then holds a tree of at most 64 levels over exactly the entries in key order; fails only when the heap is out of pages. |
| BTreeOnHeap.BuildIndex | writer/v2/bth.go:162-190 | Levels are added until one node is left; the loop ends because every level at least halves. |
| BTreeOnHeap.Lookup | writer/v2/bth.go:273-320 | At every depth: the value of the key, or an error exactly when no entry has it. |
| BTreeOnHeap.Entries | writer/v2/bth.go:322-365 | The sorted entries, all of them. |
| BTreeOnHeap.BuildAndLookup | writer/v2/bth.go:37-365 | For every set of distinct keys, build then look up is a map lookup. |
| TableLayout.AssignColumns | writer/v2/inspect_table.go:107-182 | Accepts exactly the assignable columns, and gives them a row layout: row identifier and version first, then 8-, 4-, 2- and 1-byte cells, then the existence bits. |
| TableLayout.CellsApart | writer/v2/inspect_table.go:107-182 | Any two cells occupy different bytes, all before the existence bits. |
| TableLayout.LaidOutPermutes | writer/v2/inspect_table.go:184-244 | Sorting the columns by tag keeps the layout. |
| TableLayout.SortByTag | writer/v2/inspect_table.go:184-195 | Refused exactly on equal tags; otherwise the columns in rising tag order. |
| TableLayout.EnsurePair | writer/v2/inspect_table.go:80-101 | Refused exactly on a wrongly typed row column; otherwise whichever was missing is added at the end. |
| TableInfo.InspectTable | writer/v2/inspect_table.go:251-442 | Accepts exactly the well-formed TCINFOs and reads what they say. |
| TableInfo.InfoReadsBack | writer/v2/inspect_table.go:217-308 | What is written for any layout is accepted and read back. |
| TableContext.PlanColumns | writer/v2/tc.go:54-93 | Accepts exactly the column lists NewTC does, and lays them out. Each cell is as wide as was asked or, by default, as its type needs: 1 byte for a boolean, 2 for a 16-bit integer, 8 for a 64-bit integer, double, currency and time, 4 for every other, references included. |
| TableContext.TC.Add | writer/v2/tc.go:102-111 | Takes the next row identifier, above those of all rows, and cannot fail unless the largest identifier of all was used before. |
| TableContext.TC.AddID | writer/v2/tc.go:115-131 | Refused exactly on zero or a taken identifier; the table gains one empty row. |
| TableContext.TC.Set | writer/v2/tc.go:144-159 | Refused exactly on an unknown row, column or row column; one cell and the row's version change. |
| TableContext.TC.SetInt32 | writer/v2/tc.go:198-202 | Sets the four bytes of the number, lowest first, negative numbers in two's complement; refused exactly on an unknown row or column. |
| TableContext.TC.SetInt64 | writer/v2/tc.go:204-208 | The same with eight bytes. |
| TableContext.TC.SetTime | writer/v2/tc.go:226-230 | The same with the eight bytes of a time. |
| TableContext.TC.SetBool | writer/v2/tc.go:210-216 | The same with one byte, one or zero. |
| TableContext.TC.Clear | writer/v2/tc.go:161-176 | The cell goes and the version counts on. |
| TableContext.TC.Delete | writer/v2/tc.go:178-192 | The row goes and the others keep their identifiers, although they are renumbered. |
| TableContext.EncodeRow | writer/v2/tc.go:239-277 | When no present value needs a reference its cell has no room for, the bytes hold every cell and mark the others absent; it fails only on an exhausted heap or such a cell. |
| TableCommit.RowOffsetIs | writer/v2/inspect_table.go:464-481 | In both matrix shapes a row stands at its index times the row size. |
| TableCommit.RowFitsBlock | writer/v2/inspect_table.go:464-481 | A laid-out row fits a data block, so at least one row goes into each leaf. |
| TableCommit.Build | writer/v2/tc.go:317-376 | Rows, matrix, row index and TCINFO stand on the heap as they should; it fails only on an exhausted heap or a narrow reference cell. |
| TableCommit.InspectRows | writer/v2/inspect_table.go:487-548 | Accepts exactly when every indexed row lies in the matrix, carries its identifier and both row bits, and no row is indexed twice. |
| TableCommit.OpenTC | writer/v2/tc.go:423-464 | Accepts every committed table whose rows hold their cells, and gives back no other table. |
| TableReader.RowIDs | writer/v2/tc.go:510-520 | Every row identifier once, in rising order. |
| TableReader.RowBytes | writer/v2/tc.go:522-536 | The bytes of the row with this identifier, an error exactly when there is none. |
| TableReader.Get | writer/v2/tc.go:560-585 | The value set in the row, cut or padded to a fixed cell; an error for an absent row, column or cell, and for every cell too narrow for its reference. |
| TableReader.Exists | writer/v2/tc.go:538-549 | Whether the row has the cell; an error exactly on an unknown row or column. |
| TableReader.Load | writer/v2/tc.go:647-690 | Every row once, in identifier order, and the next identifier is above them all. When the row bytes hold their cells it succeeds, with the cells as read back; otherwise it may fail, and loads cells of readable columns only. |
| TableReader.LoadedTableSame | writer/v2/tc.go:647-690 | With full-width fixed cells, loading gives back the very table that was committed. |
| TableReader.CommitOpenGet | writer/v2/tc.go:317-585 | For every table, row and property: commit, open and get gives the value set, or an error exactly as an absent one should. |
| TableReader.RoundTripsExactly | writer/v2/tc.go:239-585 | A table round-trips exactly when no present value needs a reference its cell has no room for; in a table that does not, some row and property have only failing outcomes. |
| TableReader.AllRoundTripExactly | writer/v2/tc.go:239-585 | Every table over some columns round-trips exactly when every cell for references has at least four bytes: the check a caller can make on the columns. Otherwise some table has a value that no run gives back. |
| TableReader.NarrowTableFails | writer/v2/tc.go:239-585 | The failing table: one row, a string in a two-byte column. Every run loses it. |
| TableContext.NarrowReference | writer/v2/tc.go:239-277 | A two-byte string cell is accepted by the layout, and its four-byte reference runs into the next cell. |
| TableContext.DefaultsRoomy | writer/v2/tc.go:28-93 | With default sizes every reference has room, so those tables always round-trip. |
| TableStore.InspectMatrixLeaves | writer/v2/tc.go:466-496 | Accepted exactly when the matrix subnode is there and each of its leaves is a run of whole rows, at most a block's worth. |
| TableStore.LeavesPass | writer/v2/tc.go:466-496 | The leaves a commit really wrote pass, for every blocked matrix. |
| TableStore.CommitTable | writer/v2/tc.go:290-301 | All or nothing: the node then holds the table's encoded heap and matrix leaves, and other nodes keep what they hold. It fails only on a bad node identifier, an exhausted heap, a narrow reference cell, or values or identifiers that no longer fit. |
| TableStore.OpenTable | writer/v2/tc.go:388-496 | From the node's leaves: heap pages parsed, TCINFO, row index, rows and matrix leaves inspected, and the committed table is accepted. |
| TypedCells.WholeCell | writer/v2/tc.go:28-93 | A value of the type's own width set in a column of default size is neither cut nor padded. |
| TypedCells.InRowBytes | writer/v2/tc.go:239-277 | In the row bytes such a value stands whole, lowest byte first, at the column's offset. |
| TypedCells.CommitRunWhole | writer/v2/tc.go:54-585 | Columns of default size, a value of the type's own width, commit, any run of other calls, open and get: the very value, whole, unless the commit failed. |
| TypedCells.TypedRun | writer/v2/tc.go:198-585 | The same for the typed setters: set a boolean, a 32-bit or 64-bit integer or a time, commit, run, open and get: the bytes of that number, and decoded it is the number. |
| TableStore.CommitRunGet | writer/v2/tc.go:317-585 | Commit a table to a node, let any run of other calls pass, commits and reopenings included, then open and get: the value set, or an error exactly as an absent one should; a commit that failed left the store as it was. |
| FolderModel.CoherentRows | writer/v2/folders.go:223-290 | What coherence says: a folder's hierarchy rows are exactly its children and equal their properties, the subfolders flag says whether there are any, and contents rows and count are exactly its messages. |
| FolderModel.MinimumCoherent | writer/v2/minpst.go:91-213 | A blank store is coherent, its folders form a tree, and its next folder index is free. |
| FolderModel.MinimumDistinct | writer/v2/minpst.go:91-213 | A blank store's sibling names are distinct exactly when the display name is neither of the two fixed ones. |
| FolderModel.FreshNid | writer/v2/minpst.go:31-38 | A new folder's identifier is unused, and only a search folder can hold its index. |
| FolderModel.FolderTree.Contains | writer/v2/folders.go:105-122 | True exactly when one folder is the other or above it; the visited set never stops the walk on a tree. |
| FolderModel.FolderTree.Create | writer/v2/folders.go:321-373 | All or nothing, refused exactly on its checks, and without I/O faults only then. The new folder has its name and parent and every other keeps its own. When no search folder holds the new index, the tree stays coherent, a tree and distinctly named; when one does, two folders share their tables. |
| FolderModel.FolderTree.Rename | writer/v2/folders.go:377-405 | All or nothing, refused exactly on its checks, and without I/O faults only then; one name and one time change, everything stays coherent, and root, display, waste, finder and search folders keep name and parent. |
| FolderModel.FolderTree.Move | writer/v2/folders.go:408-457 | All or nothing, refused exactly on its checks, and without I/O faults only then; the folder hangs under its new parent, rows and both parents' flags follow, it stays a tree, and the special folders keep name and parent. |
| FolderModel.FolderTree.Delete | writer/v2/folders.go:461-517 | All or nothing: exactly what is at or below the folder goes, when nothing there is protected or holds messages; coherent afterwards, and the special folders stay. Without I/O faults it fails only for those reasons. |
| FolderModel.FolderTree.CreateMessage | writer/v2/messages.go:391-468 | All or nothing, refused exactly on its checks, and without I/O faults only then; one message and one contents row more, and counters that equal them. |
| FolderModel.FolderTree.DeleteMessage | writer/v2/messages.go:472-511 | All or nothing, refused exactly for a missing message unless I/O fails; one message less, and the clamp of the counters at zero is never needed. |
| FolderModel.SharedIndex | writer/v2/folders.go:331-373 | When a folder gets the index of another, their tables are one and the shape is lost. |
| FolderModel.SharedTablesLie | writer/v2/folders.go:331-373 | A folder created inside such a folder then appears as a child of the search folder, whose flag says it has none. |
| FolderRuns.CollidingRun | writer/v2/folders.go:331-373 | The failing run: on a blank store folders are made and deleted until the counter reaches the search folder's index; the next is accepted with that index and the store loses its shape; one more, made inside it, stands in the search folder's table. The run goes through whenever the file has no I/O errors. |
## Left out

- HeapStore.PutSub: a row matrix of 4 GiB or more is refused here; the code adds up its leaves in 32 bits and stores the wrong total.
- TableStore.CommitTable: fails here also when the 27-bit subnode counter of one heap would wrap; the code would reuse an identifier.
- TableStore.OpenTable: reads every large value of the heap when it opens it; the code reads each on demand from the same unchanged store. Tables attached as subnodes of a message (`AttachTo`, `openSubTC`) are not modelled.
- TableContext.TC.Set: of the typed setters `SetString`, `SetObject` and `SetBinary` are left out: they pass bytes on to `Set`, text after UTF-16 encoding.
- HeapOnNode.Heap.Allocate: values streamed into the store before the commit (`AllocateStream`) and heaps attached to heaps are not modelled.
- HeapOnNode.OpenHeap: which of the two reader errors a damaged page gives is not stated.
- DataTreeBuilder.PutDataTree: the input is a byte string; a reader that fails half way is not modelled.
- DataTreeBuilder.Restore: the value state only; what a nested begin and end do to the byte journal is the journal model's finding, and no run joins the two.
- NodeDatabase.NDB.DropBlock: the payload inspections of `treeChildRefs` are not steps of the model; over every run they pass (`DropsInspect`).
- TreeEncoder.EncodeTree: an exhausted page counter is an error here; the code panics.
- PlanFolders.CreateFromPlan: name validation is a parameter, as in the tree itself; the planned messages that follow are not modelled.
- StoreRuns.Do: one value per call instead of the bytes on disk; `Commit` is Encode without the write, and `Reopen` opens what Encode produced.
- Reopening.OpenNDB: opens the bitmaps, spool and trees a commit leaves; parsing them from bytes, with their checksums and signatures, is not modelled, nor is a file written by another program.
- CommitBody.WriteCommit: the bytes of map pages and the density list are parameters; that they encode the bitmaps is not stated.
- CrashSafety.WriteTwoPhase: a header write is atomic, and a write that was not synced may reach the disk in part or not at all, in any order with its neighbours.
- HandleOwnership.Sources.CommitTo: sinks are numbers; what the operating system does with an open or removed file is not modelled.
- FolderModel.FolderTree.Create: an I/O failure rolls the folder state back as a value; the bytes under a nested transaction are the journal's finding above. Name trimming and case folding are parameters.
- FolderModel.FolderTree.CreateMessage: a message is its folder and read state; bodies, recipients, attachments and property values are not modelled, and counters are unbounded (at most 2^27 identifiers exist).
- ExportPlan.Session.CreateMessage: only what folders need; message content, limits on it and hashing are not modelled.
- TreeChecker.CheckTrees: what it accepts need not be in key order across pages, because the code compares separators with first keys only.
- BTree.Lookup: an empty tree is one leaf at level 0; deeper trees without entries cannot be encoded and are not covered.
- Payloads at the database level are typed (data, extended block, SLBLOCK, SIBLOCK) instead of bytes; their codecs, checksums, ciphers and signatures are left out.
- Bitmaps are sequences of bits, offsets are unbounded integers: overflow of 64-bit file offsets is not modelled.
- The spool at the database level never fails; its failures are part of the journal and handle models.
- The header codec, the root record, `syncRgNID`, property contexts as bytes, named properties and the message store node.
- The legacy write path in `pkg/ndb` and `pkg/disk`, the package reader's own table and B-tree-on-heap code, and its subnode search, which expects other separators.
