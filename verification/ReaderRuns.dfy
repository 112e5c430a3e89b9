/** What the package reader finds after any run of the writer (database.go, node.go over ndb.go). */
module ReaderRuns {
  import opened Common
  import opened Blocks
  import opened Catalog
  import opened Survival
  import opened NodeDatabase
  import opened DataTrees
  import opened DataTreeBuilder
  import opened CatalogEncoder
  import opened NodeContents
  import opened HeapStore
  import opened StoreRuns
  import PackageReader
  import H = HeapOnNode
  import Shapes = PayloadShapes

  // ---------- lookups ----------

  lemma Usable(w: World, pages: set<nat>)
    requires Holds(w, {}, {}, pages)
    ensures forall b | b in w.c.blocks :: !HasReserved(b)
  {
    WorldOwn(w, pages);
    hide Holds, LiveRefs, Edges;
  }

  /** Any run, then a commit: both of the package reader's lookups answer like the maps, for every key. Only an
      identifier that differs from a block's in the internal bit alone finds that block. */
  method RunEncodeRead(ops: seq<Op>, nid: nat, bid: nat)
    returns (n: NDB, node: Option<Result<NBTEntry>>, block: Option<Result<BBTEntry>>)
    ensures Sound(n) && (node.None? <==> block.None?) && (node.None? ==> Unencodable(n))
    ensures node.Some? ==> (node.value.Ok? <==> nid in n.nodes) && (node.value.Ok? ==> node.value.value == n.nodes[nid])
    ensures block.Some? ==> (block.value.Ok? <==> exists b | b in n.blocks :: Strip(b) == Strip(bid))
    ensures block.Some? && bid in n.blocks ==> block.value == Ok(n.blocks[bid])
  {
    hide Holds, Shapes.Shapely, Reclaimed, Shrunk, Mirrors, StripDistinct, Survivors;
    var rs;
    ghost var trace;
    n, rs, trace := Run(ops);
    ghost var w, first := n.W(), n.store.bidNextP;
    var t;
    ghost var ns, bs, start;
    t, ns, bs, start := Encode(n);
    ReclaimedFewer(w, n.W(), PageSet(n.livePages));
    if t.Err? {
      StoreRuns.WhyNot(n, start, first);
      return n, None, None;
    }
    Usable(n.W(), PageSet(n.livePages));
    var foundNode := CatalogEncoder.ReadNode(t.value, nid, n.C(), ns, bs);
    var foundBlock := ReadBlock(t.value, bid, n.C(), ns, bs);
    return n, Some(foundNode), Some(foundBlock);
  }

  // ---------- data ----------

  /** At least as many blocks as the trees of `inputs` take. */
  ghost function AllBlocks(inputs: seq<seq<byte>>): nat {
    if inputs == [] then 0 else AllBlocks(inputs[..|inputs| - 1]) + TreeBlocks(LeafCount(|inputs[|inputs| - 1]|))
  }

  lemma NoBlocks(inputs: seq<seq<byte>>)
    ensures AllBlocks(inputs[..0]) == 0
  {
  }

  lemma {:induction false} BlocksGrow(inputs: seq<seq<byte>>, i: nat)
    requires i <= |inputs|
    ensures AllBlocks(inputs[..i]) <= AllBlocks(inputs)
    decreases |inputs| - i
  {
    hide TreeBlocks, LeafCount;
    if i < |inputs| {
      BlocksGrow(inputs, i + 1);
      assert inputs[..i + 1][..i] == inputs[..i];
    } else {
      assert inputs[..i] == inputs;
    }
  }

  lemma MoreBlocks(inputs: seq<seq<byte>>, i: nat)
    requires i < |inputs|
    ensures AllBlocks(inputs[..i]) + LeafCount(|inputs[i]|) + XBlocksFor(LeafCount(|inputs[i]|)) + 1 ==
      AllBlocks(inputs[..i + 1])
    ensures AllBlocks(inputs[..i + 1]) <= AllBlocks(inputs)
  {
    BlocksGrow(inputs, i + 1);
    hide LeafCount;
    assert inputs[..i + 1][..i] == inputs[..i];
  }

  /** Several byte strings, one tree each: every tree still stores its own when the others have been written. */
  method StoreAll(n: NDB, inputs: seq<seq<byte>>) returns (roots: Result<seq<nat>>)
    requires Sound(n)
    modifies n, n.store
    ensures Sound(n)
    ensures roots.Ok? ==> Grew(old(n.W()), n.W()) && |roots.value| == |inputs|
    ensures roots.Ok? ==> forall k | 0 <= k < |inputs| :: Stores(n.W(), roots.value[k], inputs[k]) && |inputs[k]| < U32
    ensures && (forall k | 0 <= k < |inputs| :: |inputs[k]| < U32)
            && old(n.nextBlock) + 4 * AllBlocks(inputs) < U64
            ==> roots.Ok?
  {
    hide TreeBlocks, LeafCount, AllBlocks;
    NoBlocks(inputs);
    hide Shapes.Shapely, Holds, Grew, NewTrees, Stores, Undisturbed, StripDistinct;
    var done: seq<nat> := [];
    GrewSelf(n.W());
    for i := 0 to |inputs|
      invariant Sound(n) && Grew(old(n.W()), n.W()) && |done| == i
      invariant forall k | 0 <= k < i :: Stores(n.W(), done[k], inputs[k]) && |inputs[k]| < U32
      invariant n.nextBlock <= old(n.nextBlock) + 4 * AllBlocks(inputs[..i])
    {
      ghost var w := n.W();
      MoreBlocks(inputs, i);
      var r := PutDataTree(n, inputs[i], |inputs[i]|);
      if r.Err? {
        Same(w, n.W());
        return Err(r.error);
      }
      More(w, n.W());
      GrewTwice(old(n.W()), w, n.W());
      forall k | 0 <= k < i
        ensures Stores(n.W(), done[k], inputs[k])
      {
        GrewStores(w, n.W(), done[k], inputs[k]);
      }
      done := done + [r.value.bid];
    }
    return Ok(done);
  }

  lemma {:induction false} LeavesAre(blocks: Catalogue, spool: Spool, bids: seq<nat>, leaves: seq<seq<byte>>)
    requires |bids| == |leaves| && forall i | 0 <= i < |leaves| :: LeafHolds(blocks, spool, bids[i], leaves[i])
    ensures LeafBytes(blocks, spool, bids) == H.Flat(leaves)
    ensures forall b | b in bids :: ReadableBlock(blocks, spool, b)
  {
    hide Payload;
    if bids != [] {
      var n := |bids| - 1;
      LeavesAre(blocks, spool, bids[..n], leaves[..n]);
      assert LeafHolds(blocks, spool, bids[n], leaves[n]);
    }
  }

  lemma HeldReadable(blocks: Catalogue, spool: Spool, root: nat, leaves: seq<seq<byte>>)
    requires TreeHolds(blocks, spool, root, leaves)
    ensures ReadableTree(blocks, spool, root) && LeafBytes(blocks, spool, Leaves(blocks, spool, root)) == H.Flat(leaves)
  {
    hide TreeOk, Leaves, LeafHolds, ReadableBlock, LeafBytes;
    LeavesAre(blocks, spool, Leaves(blocks, spool, root), leaves);
  }

  /** loadData: nothing for a node without data, else readNodeData of its data tree. */
  method LoadData(n: NDB, nid: nat, ghost leaves: seq<seq<byte>>, ghost subs: seq<(nat, seq<seq<byte>>)>)
    returns (r: Result<(seq<seq<byte>>, nat)>)
    requires Sound(n) && NodeHolds(n.W(), nid, leaves, subs)
    ensures r.Ok? && PackageReader.Concat(r.value.0) == H.Flat(leaves) && r.value.1 == |H.Flat(leaves)|
  {
    BidsMatch(n.W(), PageSet(n.livePages));
    hide Holds, Shapes.Shapely, TreeHolds, SubsHold, StripDistinct, LeafBytes, ReadableTree, Leaves;
    var e := n.nodes[nid];
    HeldReadable(n.blocks, n.store.spool, e.data, leaves);
    if e.data == 0 {
      NoLeaves(n.blocks, n.store.spool);
      NoBytes(n.blocks, n.store.spool);
      return Ok(([], 0));
    }
    PackageReader.ReaderAgrees(n.blocks, n.store.spool, e.data);
    r := PackageReader.ReadNodeData(n, e.data, PackageReader.Depth(n.blocks, n.store.spool, e.data));
  }

  lemma NoBytes(blocks: Catalogue, spool: Spool)
    ensures LeafBytes(blocks, spool, []) == [] && PackageReader.Concat([]) == []
  {
  }

  /** Trees are stored, one becomes the data of a node, any run follows that does not name the node: the package
      reader then finds exactly the bytes stored, and its ranged read the matching slice. */
  method StoreRunRead(n: NDB, inputs: seq<seq<byte>>, k: nat, nid: nat, ops: seq<Op>, offset: nat, size: nat)
    returns (m: NDB, all: Option<Result<seq<byte>>>, part: Option<Result<seq<byte>>>)
    requires Sound(n) && k < |inputs| && nid !in Touched(ops) && offset < U64 && size < U64
    modifies n, n.store
    ensures Sound(m)
    ensures all.Some? ==> all.value == Ok(inputs[k])
    ensures all.Some? ==> part.Some? && (part.value.Err? <==> offset < |inputs[k]| && offset + size >= U64)
    ensures part.Some? && part.value.Ok? ==> part.value.value == PackageReader.Slice(inputs[k], offset, size)
    ensures && 0 < nid < U32 && (forall i | 0 <= i < |inputs| :: |inputs[i]| < U32)
            && old(n.nextBlock) + 4 * AllBlocks(inputs) < U64
            ==> all.Some?
  {
    hide Shapes.Shapely, Holds, Grew, Stores, TreeHolds, NodeHolds, Undisturbed, StripDistinct, NodesChanged,
         Materialized, AllBlocks, Touched, Survivors, HungFrom;
    m := n;
    all, part := None, None;
    var roots := StoreAll(n, inputs);
    if roots.Err? {
      return;
    }
    ghost var w1 := n.W();
    ghost var root := roots.value[k];
    ghost var leaves := LeavesOf(w1.c.blocks, w1.spool, Leaves(w1.c.blocks, w1.spool, root));
    StoresHolds(w1, root, inputs[k]);
    RootsLive(w1, roots.value, inputs, k);
    var put := n.PutNode(NBTEntry(nid, roots.value[k], 0, 0));
    if put.Err? {
      Same(w1, n.W());
      return;
    }
    NodesFewer(w1, n.W(), PageSet(n.livePages), {nid});
    NoSubs(w1, root, leaves);
    NodeOver(w1, w1, n.W(), PageSet(n.livePages), nid, leaves, []);
    ghost var w2 := n.W();
    var rs;
    ghost var trace;
    m, rs, trace := RunFrom(n, ops);
    StillHolds(w2, m.W(), Touched(ops), nid, leaves, []);
    var loaded := LoadData(m, nid, leaves, []);
    all := Some(Ok(PackageReader.Concat(loaded.value.0)));
    var ranged := PackageReader.NodeRead(loaded.value.0, loaded.value.1, offset, size);
    part := Some(ranged);
  }

  lemma RootsLive(w: World, roots: seq<nat>, inputs: seq<seq<byte>>, k: nat)
    requires k < |roots| == |inputs| && Stores(w, roots[k], inputs[k])
    ensures roots[k] == 0 || roots[k] in w.c.blocks
  {
    hide XBlockOk;
  }

  lemma NoSubs(w: World, root: nat, leaves: seq<seq<byte>>)
    requires TreeHolds(w.c.blocks, w.spool, root, leaves)
    ensures Materialized(w, root, 0, leaves, []) && Grew(w, w)
  {
    GrewSelf(w);
    hide TreeHolds, Grew;
  }
}
