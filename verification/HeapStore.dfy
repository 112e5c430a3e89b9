/** A heap in the store: its pages as a data tree, its large values as a subnode tree (heap.go, tx.go). */
module HeapStore {
  import opened Common
  import opened Geometry
  import opened Blocks
  import opened Allocation
  import opened Catalog
  import opened Survival
  import opened NodeDatabase
  import opened DataTrees
  import opened DataTreeBuilder
  import opened Subnodes
  import opened PayloadShapes
  import opened NodeContents
  import Arithmetic
  import H = HeapOnNode

  // ---------- leaves ----------

  /** `data` in leaves of `cut` bytes, the last one shorter. */
  function Pieces(data: seq<byte>, cut: nat): (r: seq<seq<byte>>)
    requires cut > 0
    ensures data != [] ==> r != []
    ensures forall p | p in r :: |p| <= cut
  {
    if data == [] then []
    else
      var k := LastPiece(|data|, cut);
      Pieces(data[..k], cut) + [data[k..]]
  }

  /** Where the last leaf starts. */
  function LastPiece(size: nat, cut: nat): (k: nat)
    requires cut > 0 && size > 0
    ensures k < size <= k + cut
  {
    (size - 1) - (size - 1) % cut
  }

  lemma {:induction false} PiecesJoin(data: seq<byte>, cut: nat)
    requires cut > 0
    ensures H.Flat(Pieces(data, cut)) == data
  {
    if data != [] {
      var k := LastPiece(|data|, cut);
      PiecesJoin(data[..k], cut);
      H.FlatSnoc(Pieces(data[..k], cut), data[k..]);
    }
  }

  lemma PieceNext(data: seq<byte>, cut: nat, off: nat, end: nat)
    requires cut > 0 && off < |data| && off % cut == 0 && end == if off + cut > |data| then |data| else off + cut
    ensures Pieces(data[..end], cut) == Pieces(data[..off], cut) + [data[off..end]]
    ensures end == |data| || end % cut == 0
  {
    var q := off / cut;
    assert off == cut * q;
    Arithmetic.UniqueMod(end - 1, cut, q, end - 1 - off);
    if end == off + cut {
      assert end == cut * (q + 1);
      Arithmetic.UniqueMod(end, cut, q + 1, 0);
    }
    assert LastPiece(end, cut) == off;
    assert data[..end][..off] == data[..off] && data[..end][off..] == data[off..end];
  }

  /** The cutting loop of putDataLeaves. */
  method Cut(data: seq<byte>, cut: nat) returns (chunks: seq<seq<byte>>)
    requires cut > 0
    ensures chunks == Pieces(data, cut)
  {
    chunks := [];
    var off := 0;
    while off < |data|
      invariant off <= |data| && chunks == Pieces(data[..off], cut)
      invariant off == |data| || off % cut == 0
    {
      hide Pieces;
      var end := if off + cut > |data| then |data| else off + cut;
      PieceNext(data, cut, off, end);
      chunks := chunks + [data[off..end]];
      off := end;
    }
    assert data[..|data|] == data;
  }

  /** The payloads of a tree's data blocks. */
  ghost function LeavesOf(blocks: Catalogue, spool: Spool, bids: seq<nat>): (r: seq<seq<byte>>)
    ensures |r| == |bids|
  {
    seq(|bids|, i requires 0 <= i < |bids| => BytesOf(blocks, spool, bids[i]))
  }

  lemma {:induction false} LeavesJoin(blocks: Catalogue, spool: Spool, bids: seq<nat>)
    ensures H.Flat(LeavesOf(blocks, spool, bids)) == LeafBytes(blocks, spool, bids)
  {
    hide BytesOf;
    if bids != [] {
      var n := |bids| - 1;
      LeavesJoin(blocks, spool, bids[..n]);
      assert LeavesOf(blocks, spool, bids) == LeavesOf(blocks, spool, bids[..n]) + [BytesOf(blocks, spool, bids[n])];
      H.FlatSnoc(LeavesOf(blocks, spool, bids[..n]), BytesOf(blocks, spool, bids[n]));
    }
  }

  lemma LeafIs(blocks: Catalogue, spool: Spool, bid: nat)
    requires ReadableBlock(blocks, spool, bid) && bid in blocks
    ensures LeafHolds(blocks, spool, bid, BytesOf(blocks, spool, bid))
  {
  }

  /** A tree that stores `data` holds it in its leaves. */
  lemma StoresHolds(w: World, root: nat, data: seq<byte>)
    requires Stores(w, root, data)
    ensures var leaves := LeavesOf(w.c.blocks, w.spool, Leaves(w.c.blocks, w.spool, root));
      TreeHolds(w.c.blocks, w.spool, root, leaves) && H.Flat(leaves) == data
  {
    hide TreeOk, Leaves, LeafBytes, LeafHolds, ReadableBlock, Total, BytesOf;
    var bids := Leaves(w.c.blocks, w.spool, root);
    LeavesJoin(w.c.blocks, w.spool, bids);
    forall i | 0 <= i < |bids|
      ensures LeafHolds(w.c.blocks, w.spool, bids[i], BytesOf(w.c.blocks, w.spool, bids[i]))
    {
      LeafLive(w.c.blocks, w.spool, root, bids[i]);
      LeafIs(w.c.blocks, w.spool, bids[i]);
    }
  }

  /** Blocks written so far, one for each chunk. */
  ghost predicate Put(w: World, es: seq<BBTEntry>, chunks: seq<seq<byte>>) {
    && |es| == |chunks| && Streamed(w, es, H.Flat(chunks))
    && forall k | 0 <= k < |es| :: LeafHolds(w.c.blocks, w.spool, es[k].bid, chunks[k])
  }

  lemma PutStep(w: World, w': World, es: seq<BBTEntry>, chunks: seq<seq<byte>>, e: BBTEntry, chunk: seq<byte>)
    requires Put(w, es, chunks) && Grew(w, w')
    requires e.bid == w.next < w'.next && e.bid in w'.c.blocks && w'.c.blocks[e.bid] == e && e.cb == |chunk|
    requires Payload(w'.c.blocks, w'.spool, e.bid) == Ok(Data(chunk))
    requires !IsInternal(e.bid) && e.bid != 0 && !HasReserved(e.bid)
    ensures Put(w', es + [e], chunks + [chunk])
  {
    hide Streamed, Kept, Payload;
    StreamedStep(w, w', es, H.Flat(chunks), e, chunk);
    H.FlatSnoc(chunks, chunk);
    forall k | 0 <= k < |es|
      ensures LeafHolds(w'.c.blocks, w'.spool, es[k].bid, chunks[k])
    {
      LeafKept(w.c.blocks, w.spool, w'.c.blocks, w'.spool, es[k].bid, chunks[k]);
    }
  }

  lemma PutTree(w: World, w': World, es: seq<BBTEntry>, chunks: seq<seq<byte>>, root: nat)
    requires Put(w, es, chunks) && Grew(w, w') && TreeOver(w', root, es)
    ensures TreeHolds(w'.c.blocks, w'.spool, root, chunks)
  {
    hide Streamed, Kept, Payload, TreeOk, Leaves, LeafHolds;
    forall k | 0 <= k < |es|
      ensures LeafHolds(w'.c.blocks, w'.spool, es[k].bid, chunks[k])
    {
      LeafKept(w.c.blocks, w.spool, w'.c.blocks, w'.spool, es[k].bid, chunks[k]);
    }
  }

  lemma PutNothing(w: World)
    ensures Put(w, [], [])
  {
    EmptyStream(w);
    assert H.Flat([]) == [];
    hide Streamed;
  }

  lemma PutCount(w: World, es: seq<BBTEntry>, chunks: seq<seq<byte>>)
    requires Put(w, es, chunks)
    ensures LeafList(w.c.blocks, es) && SumCB(w.c.blocks, BidsOf(es)) == |H.Flat(chunks)|
  {
    hide Streamed, LeafHolds;
    StreamedList(w, es, H.Flat(chunks));
  }

  /** At least as many blocks as a tree over `leaves` data blocks takes, those included. */
  function TreeBlocks(leaves: nat): nat {
    leaves + XBlocksFor(leaves) + 1
  }

  /** One data block for each chunk, and the tree over them. It succeeds up to 1021 * 1021 chunks while identifiers
      last. */
  method PutLeaves(n: NDB, chunks: seq<seq<byte>>) returns (r: Result<BBTEntry>)
    requires n.Valid() && chunks != [] && forall c | c in chunks :: |c| <= MAX_DATA_CB
    modifies n`blocks, n`nextBlock, n`dataTreeRefs, n`subnodeRefs
    modifies n.store`regions, n.store`spool, n.store`lastAllocAMap, n.store`bidNextB
    ensures r.Ok? ==> n.Valid() && Grew(old(n.W()), n.W()) && NewTrees(old(n.W()), n.W())
    ensures r.Ok? ==> TreeHolds(n.blocks, n.store.spool, r.value.bid, chunks) && !HasReserved(r.value.bid)
    ensures r.Ok? ==> n.nextBlock <= old(n.nextBlock) + 4 * TreeBlocks(|chunks|)
    ensures && |chunks| <= MAX_XBLOCK_ENTRIES * MAX_XBLOCK_ENTRIES
            && old(n.nextBlock) + 4 * TreeBlocks(|chunks|) < U64
            ==> r.Ok?
  {
    hide Holds, Grew, Put, NewTrees, TreeOver, TreeHolds, Payload, LeafList, HasReserved;
    var es: seq<BBTEntry> := [];
    var total := 0;
    PutNothing(n.W());
    GrewSelf(n.W());
    NewTreesSelf(n.W());
    for i := 0 to |chunks|
      invariant n.Valid() && Grew(old(n.W()), n.W()) && NewTrees(old(n.W()), n.W())
      invariant Put(n.W(), es, chunks[..i]) && total == |H.Flat(chunks[..i])| && |es| == i
      invariant n.nextBlock == old(n.nextBlock) + 4 * i
    {
      ghost var before := n.W();
      assert chunks[i] in chunks;
      var e := PutDataBlock(n, chunks[i]);
      if e.Err? {
        return e;
      }
      PutStep(before, n.W(), es, chunks[..i], e.value, chunks[i]);
      GrewTwice(old(n.W()), before, n.W());
      NewTreesStep(old(n.W()), before, n.W(), e.value.bid);
      H.FlatSnoc(chunks[..i], chunks[i]);
      assert chunks[..i + 1] == chunks[..i] + [chunks[i]];
      es := es + [e.value];
      total := total + e.value.cb;
    }
    assert chunks[..|chunks|] == chunks;
    ghost var before := n.W();
    PutCount(before, es, chunks);
    r := BuildDataTree(n, es, total);
    if r.Ok? {
      PutTree(before, n.W(), es, chunks, r.value.bid);
      NewTreesTwice(old(n.W()), before, n.W());
      GrewTwice(old(n.W()), before, n.W());
    }
  }

  // ---------- large values ----------

  /** The leaves of one large value: joined they are the value, cut as the heap asked. */
  ghost predicate Leaved(sub: (nat, seq<seq<byte>>), nid: nat, data: seq<byte>, cut: nat) {
    sub.0 == nid && H.Flat(sub.1) == data && (cut > 0 ==> sub.1 == Pieces(data, cut))
  }

  /** How many leaves a large value takes. */
  function LeavesFor(data: seq<byte>, cut: nat): nat {
    if cut == 0 then LeafCount(|data|) else |Pieces(data, cut)|
  }

  ghost predicate FitsTree(data: seq<byte>, cut: nat) {
    |data| < U32 && LeavesFor(data, cut) <= MAX_XBLOCK_ENTRIES * MAX_XBLOCK_ENTRIES
  }

  /** One large value as a data tree. A cut value of 4 GiB or more is refused. */
  method PutSub(n: NDB, data: seq<byte>, cut: nat) returns (r: Result<BBTEntry>, ghost leaves: seq<seq<byte>>)
    requires n.Valid() && cut <= MAX_DATA_CB
    modifies n`blocks, n`nextBlock, n`dataTreeRefs, n`subnodeRefs
    modifies n.store`regions, n.store`spool, n.store`lastAllocAMap, n.store`bidNextB
    ensures r.Ok? ==> n.Valid() && Grew(old(n.W()), n.W()) && NewTrees(old(n.W()), n.W())
    ensures r.Ok? ==>
      TreeHolds(n.blocks, n.store.spool, r.value.bid, leaves) && forall nid :: Leaved((nid, leaves), nid, data, cut)
    ensures r.Ok? ==>
      !HasReserved(r.value.bid) && n.nextBlock <= old(n.nextBlock) + 4 * TreeBlocks(LeavesFor(data, cut))
    ensures FitsTree(data, cut) && old(n.nextBlock) + 4 * TreeBlocks(LeavesFor(data, cut)) < U64 ==> r.Ok?
  {
    hide Holds, Grew, NewTrees, Stores, TreeHolds, Pieces;
    if cut == 0 {
      r := StreamDataTree(n, data, |data|);
      leaves := [];
      if r.Ok? {
        leaves := LeavesOf(n.blocks, n.store.spool, Leaves(n.blocks, n.store.spool, r.value.bid));
        StoresHolds(n.W(), r.value.bid, data);
      }
      return;
    }
    var chunks := Cut(data, cut);
    leaves := chunks;
    PiecesJoin(data, cut);
    if |data| == 0 {
      GrewSelf(n.W());
      NewTreesSelf(n.W());
      NothingHeld(n.W(), cut);
      return Ok(NO_BLOCK), leaves;
    }
    if |data| >= U32 {
      return Err(LimitExceeded), leaves;
    }
    PiecesFit(data, cut);
    r := PutLeaves(n, chunks);
  }

  lemma PiecesFit(data: seq<byte>, cut: nat)
    requires 0 < cut <= MAX_DATA_CB && data != []
    ensures Pieces(data, cut) != [] && forall c | c in Pieces(data, cut) :: |c| <= MAX_DATA_CB
  {
  }

  lemma NothingHeld(w: World, cut: nat)
    requires cut > 0
    ensures Pieces([], cut) == [] && TreeHolds(w.c.blocks, w.spool, 0, [])
  {
    hide Stores, TreeHolds, LeavesOf, Leaves;
    EmptyTree(w);
    StoresHolds(w, 0, []);
    NoLeaves(w.c.blocks, w.spool);
  }

  lemma NoLeaves(blocks: Catalogue, spool: Spool)
    ensures Leaves(blocks, spool, 0) == []
  {
    hide Payload, Bids;
  }

  /** Leaf size asked for a large value; 0 when it is streamed in full blocks. */
  function CutOf(cuts: map<nat, nat>, nid: nat): nat {
    if nid in cuts then cuts[nid] else 0
  }

  ghost predicate AllLeaved(found: seq<(nat, seq<seq<byte>>)>, subs: seq<(nat, seq<byte>)>, cuts: map<nat, nat>) {
    |found| == |subs| && forall i | 0 <= i < |subs| :: Leaved(found[i], subs[i].0, subs[i].1, CutOf(cuts, subs[i].0))
  }

  /** At least as many blocks as the large values take. */
  ghost function SubBlocks(subs: seq<(nat, seq<byte>)>, cuts: map<nat, nat>): nat {
    if subs == [] then 0
    else
      var (nid, data) := subs[|subs| - 1];
      SubBlocks(subs[..|subs| - 1], cuts) + TreeBlocks(LeavesFor(data, CutOf(cuts, nid)))
  }

  lemma {:induction false} SubBlocksGrow(subs: seq<(nat, seq<byte>)>, cuts: map<nat, nat>, i: nat)
    requires i <= |subs|
    ensures SubBlocks(subs[..i], cuts) <= SubBlocks(subs, cuts)
    decreases |subs| - i
  {
    hide LeavesFor, TreeBlocks;
    if i < |subs| {
      SubBlocksGrow(subs, cuts, i + 1);
      assert subs[..i + 1][..i] == subs[..i];
    } else {
      assert subs[..i] == subs;
    }
  }

  lemma SubBlocksNext(subs: seq<(nat, seq<byte>)>, cuts: map<nat, nat>, i: nat)
    requires i < |subs|
    ensures SubBlocks(subs[..i + 1], cuts) == SubBlocks(subs[..i],
                                                        cuts) + TreeBlocks(LeavesFor(subs[i].1, CutOf(cuts, subs[i].0)))
    ensures SubBlocks(subs[..i + 1], cuts) <= SubBlocks(subs, cuts)
  {
    SubBlocksGrow(subs, cuts, i + 1);
    hide LeavesFor, TreeBlocks;
    assert subs[..i + 1][..i] == subs[..i];
  }

  /** Every large value fits a data tree, and they all fit one subnode tree. */
  ghost predicate Storable(subs: seq<(nat, seq<byte>)>, cuts: map<nat, nat>) {
    && (forall i | 0 <= i < |subs| :: 0 < subs[i].0 < U32 && FitsTree(subs[i].1, CutOf(cuts, subs[i].0)))
    && |subs| <= MAX_SL_ENTRIES * MAX_SI_ENTRIES
  }

  ghost predicate EntriesHold(blocks: Catalogue, spool: Spool, ents: seq<SLEntry>, found: seq<(nat, seq<seq<byte>>)>) {
    |ents| == |found| && forall i | 0 <= i < |ents| :: EntryHolds(blocks, spool, ents[i], found[i])
  }

  lemma EntriesKept(w: World, w': World, ents: seq<SLEntry>, found: seq<(nat, seq<seq<byte>>)>)
    requires Grew(w, w') && EntriesHold(w.c.blocks, w.spool, ents, found)
    ensures EntriesHold(w'.c.blocks, w'.spool, ents, found)
  {
    hide Kept, TreeHolds;
    forall i | 0 <= i < |ents|
      ensures EntryHolds(w'.c.blocks, w'.spool, ents[i], found[i])
    {
      TreeKept(w.c.blocks, w.spool, w'.c.blocks, w'.spool, ents[i].data, found[i].1);
    }
  }

  lemma EntriesSnoc(w: World, ents: seq<SLEntry>, found: seq<(nat, seq<seq<byte>>)>, e: SLEntry, leaves: seq<seq<byte>>)
    requires EntriesHold(w.c.blocks, w.spool, ents, found) && TreeHolds(w.c.blocks, w.spool, e.data, leaves)
    ensures EntriesHold(w.c.blocks, w.spool, ents + [e], found + [(e.nid, leaves)])
  {
    hide TreeHolds;
  }

  /** Every large value, in the order of their identifiers. */
  method PutSubs(n: NDB, subs: seq<(nat, seq<byte>)>, cuts: map<nat, nat>)
    returns (r: Result<seq<SLEntry>>, ghost found: seq<(nat, seq<seq<byte>>)>)
    requires n.Valid() && forall k | k in cuts :: cuts[k] <= MAX_DATA_CB
    requires forall i, j | 0 <= i < j < |subs| :: subs[i].0 < subs[j].0
    modifies n`blocks, n`nextBlock, n`dataTreeRefs, n`subnodeRefs
    modifies n.store`regions, n.store`spool, n.store`lastAllocAMap, n.store`bidNextB
    ensures r.Ok? ==> n.Valid() && Grew(old(n.W()), n.W()) && NewTrees(old(n.W()), n.W())
    ensures r.Ok? ==> SortedByNid(r.value) && |r.value| == |subs|
    ensures r.Ok? ==> EntriesHold(n.blocks, n.store.spool, r.value, found) && AllLeaved(found, subs, cuts)
    ensures r.Ok? ==>
      forall k | 0 <= k < |subs| :: r.value[k].nid == subs[k].0 && r.value[k].sub == 0 && !HasReserved(r.value[k].data)
    ensures r.Ok? ==> n.nextBlock <= old(n.nextBlock) + 4 * SubBlocks(subs, cuts)
    ensures Storable(subs, cuts) && old(n.nextBlock) + 4 * SubBlocks(subs, cuts) < U64 ==> r.Ok?
  {
    hide Holds, Grew, NewTrees, TreeHolds, EntriesHold, Leaved, FitsTree, TreeBlocks, LeavesFor, SubBlocks;
    NoSubBlocks(subs, cuts);
    var ents: seq<SLEntry> := [];
    found := [];
    GrewSelf(n.W());
    NewTreesSelf(n.W());
    NoEntries(n.W());
    for i := 0 to |subs|
      invariant n.Valid() && Grew(old(n.W()), n.W()) && NewTrees(old(n.W()), n.W())
      invariant |ents| == i && |found| == i
      invariant forall k | 0 <= k < i :: ents[k].nid == subs[k].0 && ents[k].sub == 0 && !HasReserved(ents[k].data)
      invariant n.nextBlock <= old(n.nextBlock) + 4 * SubBlocks(subs[..i], cuts)
      invariant forall k | 0 <= k < i :: Leaved(found[k], subs[k].0, subs[k].1, CutOf(cuts, subs[k].0))
      invariant EntriesHold(n.blocks, n.store.spool, ents, found)
    {
      ghost var before := n.W();
      var e;
      ghost var leaves;
      SubBlocksNext(subs, cuts, i);
      e, leaves := PutSub(n, subs[i].1, CutOf(cuts, subs[i].0));
      if e.Err? {
        return Err(e.error), found;
      }
      EntriesKept(before, n.W(), ents, found);
      EntriesSnoc(n.W(), ents, found, SLEntry(subs[i].0, e.value.bid, 0), leaves);
      GrewTwice(old(n.W()), before, n.W());
      NewTreesTwice(old(n.W()), before, n.W());
      ents := ents + [SLEntry(subs[i].0, e.value.bid, 0)];
      found := found + [(subs[i].0, leaves)];
    }
    assert subs[..|subs|] == subs;
    return Ok(ents), found;
  }

  lemma NoSubBlocks(subs: seq<(nat, seq<byte>)>, cuts: map<nat, nat>)
    ensures SubBlocks(subs[..0], cuts) == 0
  {
  }

  lemma NoEntries(w: World)
    ensures EntriesHold(w.c.blocks, w.spool, [], [])
  {
  }

  lemma TreeIs(w: World, root: nat, ents: seq<SLEntry>, found: seq<(nat, seq<seq<byte>>)>)
    requires root != 0 && SubShape(w.c.blocks, w.spool, root) && Entries(w.c.blocks, w.spool, root) == ents
    requires EntriesHold(w.c.blocks, w.spool, ents, found)
    ensures SubsHold(w.c.blocks, w.spool, root, found)
  {
    hide SubShape, Entries, EntryHolds;
  }

  // ---------- the whole heap ----------

  /** What a heap's two trees hold. */
  ghost predicate Materialized(w: World, data: nat, sub: nat, raws: seq<seq<byte>>, found: seq<(nat, seq<seq<byte>>)>) {
    TreeHolds(w.c.blocks, w.spool, data, raws) && SubsHold(w.c.blocks, w.spool, sub, found)
  }

  /** The subnode tree of the large values, if there are any. */
  method PutLarge(n: NDB, subs: seq<(nat, seq<byte>)>, cuts: map<nat, nat>)
    returns (r: Result<nat>, ghost found: seq<(nat, seq<seq<byte>>)>)
    requires n.Valid() && Shapely(n.W()) && forall k | k in cuts :: cuts[k] <= MAX_DATA_CB
    requires forall i, j | 0 <= i < j < |subs| :: subs[i].0 < subs[j].0
    modifies n`blocks, n`nextBlock, n`dataTreeRefs, n`subnodeRefs
    modifies n.store`regions, n.store`spool, n.store`lastAllocAMap, n.store`bidNextB
    ensures r.Ok? ==> n.Valid() && Grew(old(n.W()), n.W()) && Shapely(n.W())
    ensures r.Ok? ==> SubsHold(n.blocks, n.store.spool, r.value, found) && AllLeaved(found, subs, cuts)
    ensures && Storable(subs, cuts)
            && old(n.nextBlock) + 4 * (SubBlocks(subs, cuts) + SLBlocksFor(|subs|) + 1) < U64
            ==> r.Ok?
  {
    hide Holds, Grew, NewTrees, NewShapes, Shapely, TreeHolds, EntriesHold, SubShape, Entries, Leaved, CutOf,
         SubBlocks, Buildable;
    found := [];
    GrewSelf(n.W());
    if |subs| == 0 {
      return Ok(0), [];
    }
    var ents;
    ents, found := PutSubs(n, subs, cuts);
    if ents.Err? {
      return Err(ents.error), found;
    }
    ghost var w1 := n.W();
    GrewShapely(old(n.W()), w1);
    var sorted := SortByNid(ents.value);
    if Storable(subs, cuts) {
      StorableBuilds(w1, subs, cuts, ents.value, found);
    }
    var root := BuildSubnodeTree(n, sorted);
    if root.Err? {
      return Err(root.error), found;
    }
    ghost var w2 := n.W();
    GrewShapely(w1, w2);
    EntriesKept(w1, w2, ents.value, found);
    ShapeNotZero(w2, PageSet(n.livePages), root.value.bid);
    TreeIs(w2, root.value.bid, ents.value, found);
    GrewTwice(old(n.W()), w1, w2);
    return Ok(root.value.bid), found;
  }

  lemma StorableBuilds(w: World, subs: seq<(nat, seq<byte>)>, cuts: map<nat, nat>, ents: seq<SLEntry>,
                       found: seq<(nat, seq<seq<byte>>)>)
    requires Storable(subs, cuts) && |ents| == |subs| && EntriesHold(w.c.blocks, w.spool, ents, found)
    requires forall i, j | 0 <= i < j < |subs| :: subs[i].0 < subs[j].0
    requires forall k | 0 <= k < |subs| :: ents[k].nid == subs[k].0 && ents[k].sub == 0 && !HasReserved(ents[k].data)
    ensures Buildable(w.c.blocks, w.spool, ents)
  {
    hide FitsTree, TreeOk, SubShape, Leaves;
    forall e | e in ents
      ensures 0 < e.nid < U32 && !HasReserved(e.data) && !HasReserved(e.sub) && RoleOk(w.c.blocks, w.spool, e)
    {
      var k :| 0 <= k < |ents| && ents[k] == e;
      assert EntryHolds(w.c.blocks, w.spool, ents[k], found[k]);
    }
  }

  lemma ShapeNotZero(w: World, pages: set<nat>, root: nat)
    requires Holds(w, {}, {}, pages) && root in w.c.blocks
    ensures root != 0
  {
    hide Space, Edges, Used, Meta, LiveRefs;
  }

  /** At least as many blocks as a heap takes. */
  ghost function HeapBlocks(pages: nat, subs: seq<(nat, seq<byte>)>, cuts: map<nat, nat>): nat {
    TreeBlocks(pages) + SubBlocks(subs, cuts) + SLBlocksFor(|subs|) + 1
  }

  /** materialize: every page a leaf of the data tree, every large value a subnode. */
  method Materialize(n: NDB, h: H.Heap, cuts: map<nat, nat>)
    returns (r: Result<(nat, nat)>, ghost raws: seq<seq<byte>>, ghost extra: seq<seq<byte>>,
             ghost found: seq<(nat, seq<seq<byte>>)>)
    requires n.Valid() && Shapely(n.W()) && h.Valid() && forall k | k in cuts :: cuts[k] <= MAX_DATA_CB
    modifies n`blocks, n`nextBlock, n`dataTreeRefs, n`subnodeRefs
    modifies n.store`regions, n.store`spool, n.store`lastAllocAMap, n.store`bidNextB, h`pages
    ensures h.Valid() && h.pages == if old(h.pages) == [] then [[]] else old(h.pages)
    ensures H.Encoded(raws, extra, h.sig, h.root, h.pages)
    ensures h.root < U32 ==> H.InBytes(raws, h.sig, h.root, h.pages)
    ensures r.Ok? ==> n.Valid() && Grew(old(n.W()), n.W()) && Shapely(n.W())
    ensures r.Ok? ==> Materialized(n.W(), r.value.0, r.value.1, raws, found) && AllLeaved(found, h.subs, cuts)
    ensures Storable(h.subs, cuts) && old(n.nextBlock) + 4 * HeapBlocks(|h.pages|, h.subs, cuts) < U64 ==> r.Ok?
  {
    hide Holds, Grew, NewTrees, Shapely, TreeHolds, SubsHold, H.PageFits, H.Encoded, H.InBytes, AllLeaved, Storable,
         SubBlocks;
    var pages;
    pages, extra := H.EncodePages(h);
    raws, found := pages.value, [];
    H.EncodedCount(pages.value, extra, h.sig, h.root, h.pages);
    var data := PutLeaves(n, pages.value);
    if data.Err? {
      return Err(data.error), raws, extra, found;
    }
    ghost var w1 := n.W();
    GrewShapely(old(n.W()), w1);
    var sub;
    sub, found := PutLarge(n, h.subs, cuts);
    if sub.Err? {
      return Err(sub.error), raws, extra, found;
    }
    HeldStill(w1, n.W(), data.value.bid, raws);
    GrewTwice(old(n.W()), w1, n.W());
    return Ok((data.value.bid, sub.value)), raws, extra, found;
  }

  lemma HeldStill(w: World, w': World, root: nat, leaves: seq<seq<byte>>)
    requires Grew(w, w') && TreeHolds(w.c.blocks, w.spool, root, leaves)
    ensures TreeHolds(w'.c.blocks, w'.spool, root, leaves)
  {
    hide Kept, TreeHolds;
    TreeKept(w.c.blocks, w.spool, w'.c.blocks, w'.spool, root, leaves);
  }

  lemma MaterializedLive(w: World, data: nat, sub: nat, raws: seq<seq<byte>>, found: seq<(nat, seq<seq<byte>>)>)
    requires Materialized(w, data, sub, raws, found)
    ensures (data == 0 || data in w.c.blocks) && (sub == 0 || sub in w.c.blocks)
  {
    hide TreeOk, SubShape, Leaves, Entries;
    if data != 0 {
      TreeLive(w.c.blocks, w.spool, data);
    }
    if sub != 0 {
      ShapeLive(w.c.blocks, w.spool, sub);
    }
  }

  /** The node put over freshly built trees holds them; every other node holds what it held. */
  lemma NodeOver(w0: World, w1: World, w2: World, pages: set<nat>, nid: nat, raws: seq<seq<byte>>,
                 found: seq<(nat, seq<seq<byte>>)>)
    requires Grew(w0, w1) && NodesChanged(w1, w2) && Holds(w2, {}, {}, pages) && nid in w2.c.nodes
    requires w2.c.nodes == w1.c.nodes[nid := w2.c.nodes[nid]]
    requires Materialized(w1, w2.c.nodes[nid].data, w2.c.nodes[nid].sub, raws, found)
    ensures NodeHolds(w2, nid, raws, found) && Undisturbed(w0, w2, {nid})
    ensures StripDistinct(w0.c.blocks) ==> StripDistinct(w2.c.blocks)
  {
    hide StripDistinct;
    hide Holds, Kept, SameExtents, SamePayloads, TreeHolds, SubsHold, ClosedKids, Orphans, Undisturbed;
    HoldsClosedKids(w2, pages);
    NodeBlocksLive(w2, {}, {}, pages, nid);
    KeptBack(w1, w2);
    if StripDistinct(w1.c.blocks) {
      FewerStripDistinct(w1.c.blocks, w2.c.blocks);
    }
    TreeLeft(w2.c.blocks, w2.spool, w1.c.blocks, w1.spool, w2.c.nodes[nid].data, raws);
    SubsLeft(w2.c.blocks, w2.spool, w1.c.blocks, w1.spool, w2.c.nodes[nid].sub, found);
    GrewUndisturbed(w0, w1);
    FewerUndisturbed(w1, w2, pages, {nid});
    UndisturbedTwice(w0, w1, w2, {}, {nid});
    assert {} + {nid} == {nid};
  }

  /** Commit: all or nothing. The node then holds the encoded pages and every large value; other nodes hold what they
      held. */
  method CommitHeap(n: NDB, h: H.Heap, nid: nat, cuts: map<nat, nat>)
    returns (r: Result<()>, ghost raws: seq<seq<byte>>, ghost extra: seq<seq<byte>>,
             ghost found: seq<(nat, seq<seq<byte>>)>)
    requires n.Valid() && Shapely(n.W()) && h.Valid() && forall k | k in cuts :: cuts[k] <= MAX_DATA_CB
    modifies n, n.store, h`pages
    ensures n.Valid() && Shapely(n.W()) && n.store.bidNextP == old(n.store.bidNextP)
    ensures old(StripDistinct(n.blocks)) ==> StripDistinct(n.blocks)
    ensures h.Valid() && (h.pages == old(h.pages) || (old(h.pages) == [] && h.pages == [[]]))
    ensures r.Err? ==> Capture(n) == old(Capture(n))
    ensures r.Ok? ==>
      nid != 0 && !H.IsHID(nid) && NodeHolds(n.W(), nid, raws, found) && Undisturbed(old(n.W()), n.W(), {nid})
    ensures r.Ok? ==> H.Encoded(raws, extra, h.sig, h.root, h.pages) && h.pages != [] && AllLeaved(found, h.subs, cuts)
    ensures r.Ok? && h.root < U32 ==> H.InBytes(raws, h.sig, h.root, h.pages)
    ensures && 0 < nid < U32 && !H.IsHID(nid) && Storable(h.subs, cuts)
            && old(n.nextBlock) + 4 * HeapBlocks(|h.pages|, h.subs, cuts) < U64
            ==> r.Ok?
  {
    hide Storable, HeapBlocks, StripDistinct, Survivors, HungFrom;
    hide Holds, Grew, Shapely, NodesChanged, Materialized, NodeHolds, Undisturbed, H.PageFits, H.Encoded, AllLeaved,
         H.InBytes;
    raws, extra, found := [], [], [];
    if nid == 0 || H.IsHID(nid) {
      return Err(InvalidArg), raws, extra, found;
    }
    var snap := Capture(n);
    ghost var w0 := n.W();
    var trees;
    trees, raws, extra, found := Materialize(n, h, cuts);
    ghost var w1 := n.W();
    if trees.Ok? {
      MaterializedLive(w1, trees.value.0, trees.value.1, raws, found);
      r := n.PutNode(NBTEntry(nid, trees.value.0, trees.value.1, 0));
    } else {
      r := Err(trees.error);
    }
    if r.Err? {
      Restore(n, snap);
      assert n.C() == snap.c;
      assert n.W() == w0;
      return r, raws, extra, found;
    }
    ChangedShapely(w1, n.W(), PageSet(n.livePages));
    NodeOver(w0, w1, n.W(), PageSet(n.livePages), nid, raws, found);
  }

  lemma ChangedShapely(w: World, w': World, pages: set<nat>)
    requires Shapely(w) && NodesChanged(w, w') && Holds(w', {}, {}, pages)
    ensures Shapely(w')
  {
    hide Shapely, Holds, SameExtents, SamePayloads, Orphans;
    FewerShapely(w, w', pages);
  }
}
