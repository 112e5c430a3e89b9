/** NDB: the in-memory catalog object (ndb.go). Every operation keeps ownership and file space exact. */
module NodeDatabase {
  import opened Common
  import opened Geometry
  import opened Blocks
  import opened Allocation
  import opened Catalog
  import opened Survival

  /** All value state of a catalog and its store. */
  datatype World = World(c: Cat, next: nat, rs: seq<Bitmap>, spool: map<nat, Stored>)

  ghost function PageSet(pages: seq<nat>): set<nat> {
    set p | p in pages
  }

  ghost predicate Distinct(pages: seq<nat>) {
    forall i, j | 0 <= i < j < |pages| :: pages[i] != pages[j]
  }

  /** Ownership and space are exact, up to references `pend` of blocks already gone and counts in `stale`. */
  ghost predicate Holds(w: World, pend: set<Edge>, stale: set<nat>, pages: set<nat>) {
    && Meta(|w.rs|) <= Used(w.rs)
    && Own(w.c, Edges(w.c.blocks, w.spool) + pend, stale, w.next)
    && Space(w.rs, w.c.blocks, pages)
    && forall e | e in pend :: e.parent !in w.c.blocks
  }

  ghost function Orphans(c: Cat): set<nat> {
    set b | b in c.blocks && Orphan(c, b)
  }

  /** Blocks only left; the rest keep extent and payload, and are orphans exactly if they were. */
  ghost predicate Shrunk(w: World, w': World) {
    && w'.c.nodes == w.c.nodes && w'.next == w.next && |w'.rs| == |w.rs|
    && SameExtents(w.c.blocks, w'.c.blocks)
    && SamePayloads(w'.c.blocks, w.spool, w'.spool)
    && Orphans(w'.c) == Orphans(w.c) * w'.c.blocks.Keys
    && forall b | b in w'.c.blocks :: Get(w'.c.oref, b) == Get(w.c.oref, b)
  }

  /** Orphans outside `but` stay, and so do blocks with a count taken over from a file. */
  ghost predicate Spared(w: World, w': World, but: set<nat>) {
    && Orphans(w.c) - but <= Orphans(w'.c)
    && forall b | b in w.c.blocks && Get(w.c.oref, b) > 0 :: b in w'.c.blocks && Get(w'.c.oref, b) > 0
  }

  lemma SparedTwice(w: World, w': World, w'': World, but: set<nat>, but': set<nat>)
    requires Spared(w, w', but) && Spared(w', w'', but')
    ensures Spared(w, w'', but + but')
  {
    hide Orphans;
  }

  /** Without a block gone but an orphan in `but`, nothing that was to stay went. */
  lemma ShrunkSpared(w: World, w': World, but: set<nat>)
    requires Shrunk(w, w') && w.c.blocks.Keys - but <= w'.c.blocks.Keys && but <= Orphans(w.c)
    ensures Spared(w, w', but)
  {
  }

  lemma ShrunkTwice(w: World, w': World, w'': World)
    requires Shrunk(w, w') && Shrunk(w', w'')
    ensures Shrunk(w, w'')
  {
    forall b | b in w''.c.blocks
      ensures b in w.c.blocks && w''.c.blocks[b].(refs := 0) == w.c.blocks[b].(refs := 0)
    {
      assert b in w'.c.blocks;
    }
    forall b | b in w''.c.blocks
      ensures w.c.blocks[b].ib == w''.c.blocks[b].ib
    {
      assert b in w'.c.blocks;
      assert w''.c.blocks[b].(refs := 0) == w'.c.blocks[b].(refs := 0) == w.c.blocks[b].(refs := 0);
    }
  }

  // ---------- steps on values ----------

  lemma HoldsResync(w: World, pend: set<Edge>, stale: set<nat>, pages: set<nat>, bid: nat)
    requires Holds(w, pend, stale, pages) && bid in w.c.blocks
    ensures Holds(w.(c := Resynced(w.c, bid, (1 + LiveRefs(w.c, bid)) % U16)), pend, stale - {bid}, pages)
  {
    hide Own, Space, Edges, SameExtents, SamePayloads, LiveRefs;
    var c' := Resynced(w.c, bid, (1 + LiveRefs(w.c, bid)) % U16);
    assert Own(c', Edges(w.c.blocks, w.spool) + pend, stale - {bid}, w.next) by {
      ResyncOwn(w.c, Edges(w.c.blocks, w.spool) + pend, stale, w.next, bid);
    }
    assert Edges(c'.blocks, w.spool) == Edges(w.c.blocks, w.spool) by {
      EdgesSame(w.c.blocks, c'.blocks, w.spool, w.spool);
    }
    assert Space(w.rs, c'.blocks, pages) by {
      SpaceSame(w.rs, w.c.blocks, c'.blocks, pages);
    }
  }

  lemma ShrunkResync(w: World, bid: nat, refs: nat)
    requires bid in w.c.blocks
    ensures Shrunk(w, w.(c := Resynced(w.c, bid, refs)))
  {
    assert forall b :: LiveRefs(Resynced(w.c, bid, refs), b) == LiveRefs(w.c, b);
  }

  /** Forgetting an orphan and freeing its extent turns its own references into pending ones. */
  lemma HoldsDrop(w: World, w': World, pend: set<Edge>, stale: set<nat>, pages: set<nat>, bid: nat)
    requires Holds(w, pend, stale, pages) && bid in w.c.blocks && Orphan(w.c, bid)
    requires w'.c == Without(w.c, bid) && w'.next == w.next && |w'.rs| == |w.rs|
    requires Meta(|w'.rs|) <= Used(w'.rs)
    requires Used(w'.rs) == Used(w.rs) - Slots(w.c.blocks[bid].ib, Size(w.c.blocks[bid]))
    requires w'.spool == Cleared(w.spool, w.c.blocks[bid].ib, Size(w.c.blocks[bid]))
    ensures Holds(w', pend + KidEdges(bid, KidsOf(w.c.blocks, w.spool, bid), 0), stale, pages)
  {
    hide Own, Space, Edges, SamePayloads, LiveRefs, KidsOf, Used, Meta, Slots, Cleared, Orphan, Without;
    var kids := KidEdges(bid, KidsOf(w.c.blocks, w.spool, bid), 0);
    assert w'.c.blocks == w.c.blocks - {bid} by {
      DropOwn(w.c, Edges(w.c.blocks, w.spool) + pend, stale, w.next, bid);
      WithoutBlocks(w.c, bid);
    }
    assert Space(w'.rs, w'.c.blocks, pages) by {
      SpaceDrop(w.rs, w'.rs, w.c.blocks, pages, bid);
    }
    assert Edges(w.c.blocks, w.spool) + pend == Edges(w'.c.blocks, w'.spool) + (pend + kids) by {
      DropPayloads(w, w', pages, bid);
      EdgesDrop(w.c.blocks, w.spool, w'.spool, bid);
    }
    assert Own(w'.c, Edges(w.c.blocks, w.spool) + pend, stale, w.next) by {
      DropOwn(w.c, Edges(w.c.blocks, w.spool) + pend, stale, w.next, bid);
    }
    assert forall k | k in kids :: k.parent == bid;
  }

  lemma WithoutBlocks(c: Cat, bid: nat)
    ensures Without(c, bid).blocks == c.blocks - {bid}
  {
  }

  lemma ShrunkDrop(w: World, w': World, pend: set<Edge>, stale: set<nat>, pages: set<nat>, bid: nat)
    requires Holds(w, pend, stale, pages) && bid in w.c.blocks && Orphan(w.c, bid)
    requires w'.c == Without(w.c, bid) && w'.next == w.next && |w'.rs| == |w.rs|
    requires w'.spool == Cleared(w.spool, w.c.blocks[bid].ib, Size(w.c.blocks[bid]))
    ensures Shrunk(w, w')
  {
    hide Own, Space, Edges, LiveRefs, KidsOf, Used, Meta, Slots, Cleared, SamePayloads;
    DropPayloads(w, w', pages, bid);
    DropOwn(w.c, Edges(w.c.blocks, w.spool) + pend, stale, w.next, bid);
  }

  lemma DropPayloads(w: World, w': World, pages: set<nat>, bid: nat)
    requires Space(w.rs, w.c.blocks, pages) && bid in w.c.blocks
    requires w'.c.blocks == w.c.blocks - {bid}
    requires w'.spool == Cleared(w.spool, w.c.blocks[bid].ib, Size(w.c.blocks[bid]))
    ensures SamePayloads(w'.c.blocks, w.spool, w'.spool)
  {
    var e := w.c.blocks[bid];
    forall b | b in w.c.blocks && b != bid
      ensures !(e.ib <= w.c.blocks[b].ib < e.ib + Size(e))
    {
      DisjointExtents(w.c.blocks[b].ib, Size(w.c.blocks[b]), e.ib, Size(e));
    }
  }

  /** One pending reference is released: its target's count drops, and its cRef must be resynced. */
  lemma HoldsRelease(w: World, pend: set<Edge>, stale: set<nat>, pages: set<nat>, e: Edge)
    requires Holds(w, pend + {e}, stale, pages) && e !in pend
    ensures Get(if e.target.kind == DataTree then w.c.dref else w.c.sref, e.target.bid) > 0
    ensures Holds(w.(c := Released(w.c, e.target)), pend, stale + {e.target.bid}, pages)
    ensures e.target.bid in w.c.blocks
    ensures Orphans(w.c) <= Orphans(Released(w.c, e.target)) <= Orphans(w.c) + {e.target.bid}
    ensures e.target.bid !in Orphans(w.c)
  {
    var E := Edges(w.c.blocks, w.spool) + (pend + {e});
    assert e.parent !in w.c.blocks;
    assert E - {e} == Edges(w.c.blocks, w.spool) + pend;
    hide Space, Edges, Used, Meta, LiveRefs;
    ReleaseOwn(w.c, E, stale, w.next, e);
  }

  class NDB {
    const store: Store
    var nextBlock: nat
    var nodes: map<nat, NBTEntry>
    var blocks: map<nat, BBTEntry>
    var dataTreeRefs: map<nat, nat>
    var subnodeRefs: map<nat, nat>
    var opaqueRefs: map<nat, nat>
    var livePages: seq<nat>

    ghost function C(): Cat
      reads this
    {
      Cat(nodes, blocks, dataTreeRefs, subnodeRefs, opaqueRefs)
    }

    ghost function W(): World
      reads this, store
    {
      World(C(), nextBlock, store.regions, store.spool)
    }

    ghost predicate Valid()
      reads this, store
    {
      Holds(W(), {}, {}, PageSet(livePages)) && Distinct(livePages) && nextBlock == store.bidNextB
    }

    constructor ()
      ensures Valid() && fresh(store) && store.bidNextP == FIRST_ALLOC_BID + 1 && store.regions == [FreshRegion(0)]
      ensures nextBlock == FIRST_ALLOC_BID
      ensures C() == Cat(map[], map[], map[], map[], map[]) && livePages == []
    {
      store := new Store();
      nextBlock := FIRST_ALLOC_BID;
      nodes, blocks := map[], map[];
      dataTreeRefs, subnodeRefs, opaqueRefs := map[], map[], map[];
      livePages := [];
      new;
      EmptyHolds(W());
      hide Own, Space, Edges;
      assert PageSet([]) == {};
    }

    method NbtLiveRefs(bid: nat) returns (c: nat)
      ensures c == NbtRefs(nodes, bid)
    {
      if bid == 0 {
        return 0;
      }
      c := 0;
      var todo := nodes.Keys;
      while todo != {}
        invariant todo <= nodes.Keys
        invariant c == |WithData(nodes, bid) - todo| + |WithSub(nodes, bid) - todo|
        decreases |todo|
      {
        var n :| n in todo;
        ScanNode(nodes, bid, todo, n);
        if nodes[n].data == bid {
          c := c + 1;
        }
        if nodes[n].sub == bid {
          c := c + 1;
        }
        todo := todo - {n};
      }
      assert WithData(nodes, bid) - {} == WithData(nodes, bid) && WithSub(nodes, bid) - {} == WithSub(nodes, bid);
    }

    method CountRefs(bid: nat) returns (c: nat)
      ensures c == LiveRefs(C(), bid)
    {
      c := NbtLiveRefs(bid);
      c := c + Get(dataTreeRefs, bid) + Get(subnodeRefs, bid) + Get(opaqueRefs, bid);
    }

    method ResyncRef(bid: nat, ghost pend: set<Edge>, ghost stale: set<nat>, ghost pages: set<nat>)
      returns (r: Result<()>)
      requires Holds(W(), pend, stale, pages)
      modifies `blocks
      ensures r.Ok? <==> bid == 0 || bid in old(blocks)
      ensures r.Err? || bid == 0 ==> blocks == old(blocks)
      ensures r.Ok? ==> Holds(W(), pend, stale - {bid}, pages)
      ensures r.Ok? ==> Shrunk(old(W()), W()) && blocks.Keys == old(blocks.Keys)
    {
      hide Own, Space, Edges, LiveRefs, Shrunk;
      if bid == 0 {
        HoldsAbsent(W(), pend, stale, pages, 0);
        ShrunkSelf(W());
        return Ok(());
      }
      if bid !in blocks {
        return Err(InvalidArg);
      }
      var refs := CountRefs(bid);
      HoldsResync(W(), pend, stale, pages, bid);
      ShrunkResync(W(), bid, (1 + LiveRefs(C(), bid)) % U16);
      blocks := blocks[bid := blocks[bid].(refs := (1 + refs) % U16)];
      assert C() == Resynced(old(C()), bid, (1 + LiveRefs(old(C()), bid)) % U16);
      return Ok(());
    }

    method TreeChildRefs(bid: nat) returns (kids: seq<Ref>)
      requires bid in blocks
      ensures kids == KidsOf(blocks, store.spool, bid)
    {
      if !IsInternal(bid) {
        return [];
      }
      var e := blocks[bid];
      if e.ib !in store.spool || store.spool[e.ib].bid != bid {
        return [];
      }
      return Kids(store.spool[e.ib].body);
    }

    method FreeBlockIB(e: BBTEntry) returns (r: Result<()>)
      requires store.Valid()
      requires InRegion(|store.regions|, e.ib, Size(e)) && Slots(e.ib, Size(e)) <= Used(store.regions)
      requires Slots(e.ib, Size(e)) !! Meta(|store.regions|)
      modifies store`regions, store`spool
      ensures r.Ok? && store.Valid() && |store.regions| == |old(store.regions)|
      ensures Used(store.regions) == Used(old(store.regions)) - Slots(e.ib, Size(e))
      ensures store.spool == Cleared(old(store.spool), e.ib, Size(e))
    {
      UsedSubset(store.regions, e.ib, Size(e));
      hide Used, Slots, Meta, Cleared;
      var isAllocated := store.AllocatedRange(e.ib, Size(e));
      if !isAllocated {
        return Err(InvariantBroken);
      }
      r := store.Free(e.ib, Size(e));
    }

    /** Drops an orphan, frees its extent and releases what its payload references, in cascade. Never fails. */
    method DropBlock(bid: nat, ghost pend: set<Edge>, ghost stale: set<nat>, ghost pages: set<nat>)
      returns (r: Result<()>)
      requires Holds(W(), pend, stale, pages)
      requires bid in blocks ==> Orphan(C(), bid)
      modifies this`blocks, this`dataTreeRefs, this`subnodeRefs, this`opaqueRefs, store`regions, store`spool
      ensures r.Ok? && Holds(W(), pend, stale, pages)
      ensures Shrunk(old(W()), W()) && Spared(old(W()), W(), {bid}) && bid !in blocks
      ensures store.Valid()
      decreases |blocks|, 0
    {
      hide Own, Space, Edges, LiveRefs, KidsOf, Used, Meta, Slots, Cleared, Orphan, Shrunk, Orphans, Spared;
      if bid !in blocks {
        ShrunkSelf(W());
        SparedSelf(W(), {bid});
        return Ok(());
      }
      var e := blocks[bid];
      var kids := TreeChildRefs(bid);
      DropExtent(W(), pend, stale, pages, bid);
      blocks := blocks - {bid};
      dataTreeRefs := dataTreeRefs - {bid};
      subnodeRefs := subnodeRefs - {bid};
      opaqueRefs := opaqueRefs - {bid};
      r := FreeBlockIB(e);
      HoldsDrop(old(W()), W(), pend, stale, pages, bid);
      ShrunkDrop(old(W()), W(), pend, stale, pages, bid);
      OrphanIn(old(C()), bid);
      ShrunkSpared(old(W()), W(), {bid});
      for i := 0 to |kids|
        invariant Holds(W(), pend + KidEdges(bid, kids, i), stale, pages)
        invariant bid !in blocks && |blocks| < |old(blocks)|
        invariant Shrunk(old(W()), W()) && Spared(old(W()), W(), {bid})
      {
        SplitKid(pend, bid, kids, i);
        ghost var before := W();
        r := ReleaseExtra(kids[i], Edge(bid, i, kids[i]), pend + KidEdges(bid, kids, i + 1), stale, pages);
        ShrunkFewer(before, W());
        ShrunkTwice(old(W()), before, W());
        SparedTwice(old(W()), before, W(), {bid}, {});
        assert {bid} + {} == {bid};
      }
      assert KidEdges(bid, kids, |kids|) == {};
      assert pend + KidEdges(bid, kids, |kids|) == pend;
      return Ok(());
    }

    /** Gives back one typed reference, held by the gone block of edge `e`; the target may follow it. */
    method ReleaseExtra(ref: Ref, ghost e: Edge, ghost pend: set<Edge>, ghost stale: set<nat>, ghost pages: set<nat>)
      returns (r: Result<()>)
      requires Holds(W(), pend + {e}, stale, pages) && e !in pend && e.target == ref
      modifies this`blocks, this`dataTreeRefs, this`subnodeRefs, this`opaqueRefs, store`regions, store`spool
      ensures r.Ok? && Holds(W(), pend, stale, pages)
      ensures Shrunk(old(W()), W()) && Spared(old(W()), W(), {})
      decreases |blocks|, 2
    {
      hide Own, Space, Edges, LiveRefs, Used, Meta, Spared;
      HoldsRelease(W(), pend, stale, pages, e);
      ghost var c' := Released(C(), ref);
      if ref.kind == DataTree {
        if Get(dataTreeRefs, ref.bid) <= 0 {
          return Err(InvalidArg);
        }
        dataTreeRefs := Dec(dataTreeRefs, ref.bid);
      } else {
        if Get(subnodeRefs, ref.bid) <= 0 {
          return Err(InvalidArg);
        }
        subnodeRefs := Dec(subnodeRefs, ref.bid);
      }
      assert C() == c';
      ghost var before := W();
      r := ResyncAfterDrop(ref.bid, pend, stale + {ref.bid}, pages);
      HoldsWeaker(W(), pend, (stale + {ref.bid}) - {ref.bid}, stale, pages);
      ShrunkRelease(old(W()), before, W(), ref);
      SparedRelease(old(W()), before, W(), ref);
    }

    method ResyncAfterDrop(bid: nat, ghost pend: set<Edge>, ghost stale: set<nat>, ghost pages: set<nat>)
      returns (r: Result<()>)
      requires Holds(W(), pend, stale, pages)
      modifies this`blocks, this`dataTreeRefs, this`subnodeRefs, this`opaqueRefs, store`regions, store`spool
      ensures r.Ok? && Holds(W(), pend, stale - {bid}, pages)
      ensures Shrunk(old(W()), W()) && Spared(old(W()), W(), {bid}) && bid !in Orphans(C())
      decreases |blocks|, 1
    {
      hide Own, Space, Edges, LiveRefs, Used, Meta, Shrunk, Resynced, Spared;
      if bid == 0 || bid !in blocks {
        HoldsAbsent(W(), pend, stale, pages, bid);
        ShrunkSelf(W());
        SparedSelf(W(), {bid});
        return Ok(());
      }
      r := ResyncRef(bid, pend, stale, pages);
      ghost var before := W();
      ShrunkFewer(old(W()), before);
      SparedKeys(old(W()), before, {bid});
      var refs := CountRefs(bid);
      if refs == 0 {
        r := DropBlock(bid, pend, stale - {bid}, pages);
        ShrunkTwice(old(W()), before, W());
        SparedTwice(old(W()), before, W(), {bid}, {bid});
        assert {bid} + {bid} == {bid};
      }
    }

    /** Inserts or replaces a node and adjusts reference counts; fails only on its two argument checks. Of the old
        blocks exactly those stay that the nodes still keep, or nothing had referred to; what goes hung from the
        blocks the node had named. */
    method PutNode(e: NBTEntry) returns (r: Result<()>)
      requires Valid()
      modifies this`nodes, this`blocks, this`dataTreeRefs, this`subnodeRefs, this`opaqueRefs, store`regions, store`spool
      ensures Valid()
      ensures r.Ok? <==>
        0 < e.nid < U32 && (e.data == 0 || e.data in old(blocks)) && (e.sub == 0 || e.sub in old(blocks))
      ensures r.Err? ==> W() == old(W())
      ensures r.Ok? ==> nodes == old(nodes)[e.nid := e] && NodesChanged(old(W()), W())
      ensures r.Ok? ==> Survivors(old(C()), old(Edges(blocks, store.spool)), nodes, true, blocks)
      ensures r.Ok? ==> HungFrom(old(C()), old(Edges(blocks, store.spool)), e.nid, blocks)
      ensures |store.regions| == |old(store.regions)|
    {
      hide Own, Space, Edges, LiveRefs, Used, Meta, Shrunk, Orphans, Resynced, SameExtents, SamePayloads, NodesChanged;
      hide Spared, Survivors, HungFrom, Holds, AgreeExcept;
      if e.nid == 0 || e.nid >= U32 {
        return Err(InvalidArg);
      }
      if (e.data != 0 && e.data !in blocks) || (e.sub != 0 && e.sub !in blocks) {
        return Err(InvalidArg);
      }
      ghost var pages := PageSet(livePages);
      var exists_ := e.nid in nodes;
      var prev := if exists_ then nodes[e.nid] else NBTEntry(0, 0, 0, 0);
      ghost var stale := {prev.data, prev.sub, e.data, e.sub};
      NodeSet(nodes, e);
      HoldsNode(W(), pages, e.nid, nodes[e.nid := e], stale);
      nodes := nodes[e.nid := e];
      ghost var w1 := W();
      ghost var left := stale;
      if exists_ {
        r := ReleaseNode(prev, stale, pages);
        left := (stale - {prev.data}) - {prev.sub};
      } else {
        ShrunkSelf(W());
        SparedSelf(W(), {});
      }
      ghost var w3 := W();
      ghost var but := if exists_ then {prev.data} + {prev.sub} else {};
      ShrunkNodes(w1, w3);
      NodeBlocksLive(W(), {}, left, pages, e.nid);
      r := ResyncRef(e.data, {}, left, pages);
      ghost var w4 := W();
      SparedKeys(w3, w4, {});
      r := ResyncRef(e.sub, {}, left - {e.data}, pages);
      SparedKeys(w4, W(), {});
      HoldsAbsent(W(), {}, (left - {e.data}) - {e.sub}, pages, 0);
      assert ((left - {e.data}) - {e.sub}) - {0} == {};
      ShrunkTwice(w3, w4, W());
      ShrunkNodes(w3, W());
      SparedTwice(w3, w4, W(), {}, {});
      SparedTwice(w1, w3, W(), but, {} + {});
      NodesChangedFrom(old(W()), w1, w3, W(), stale);
      NodeSurvivors(old(W()), w1, W(), pages, e.nid, but + ({} + {}), stale);
    }

    /** The two releases of a node that was replaced or deleted. */
    method ReleaseNode(prev: NBTEntry, ghost stale: set<nat>, ghost pages: set<nat>) returns (r: Result<()>)
      requires Holds(W(), {}, stale, pages)
      modifies this`blocks, this`dataTreeRefs, this`subnodeRefs, this`opaqueRefs, store`regions, store`spool
      ensures r.Ok? && Holds(W(), {}, (stale - {prev.data}) - {prev.sub}, pages)
      ensures Shrunk(old(W()), W()) && Spared(old(W()), W(), {prev.data} + {prev.sub})
      ensures prev.data !in Orphans(C()) && prev.sub !in Orphans(C())
    {
      hide Own, Space, Edges, LiveRefs, Used, Meta, Shrunk, Orphans, Spared, Holds;
      r := ResyncAfterDrop(prev.data, {}, stale, pages);
      ghost var w := W();
      r := ResyncAfterDrop(prev.sub, {}, stale - {prev.data}, pages);
      ShrunkTwice(old(W()), w, W());
      SparedTwice(old(W()), w, W(), {prev.data}, {prev.sub});
      ShrunkNodes(w, W());
    }

    /** Removes a node and releases its blocks, with everything only they kept alive. */
    method DeleteNode(nid: nat) returns (r: Result<()>)
      requires Valid()
      modifies this`nodes, this`blocks, this`dataTreeRefs, this`subnodeRefs, this`opaqueRefs, store`regions, store`spool
      ensures Valid()
      ensures r.Ok? <==> nid in old(nodes)
      ensures r.Err? ==> W() == old(W())
      ensures r.Ok? ==> nodes == old(nodes) - {nid} && NodesChanged(old(W()), W())
      ensures r.Ok? ==> Survivors(old(C()), old(Edges(blocks, store.spool)), nodes, true, blocks)
      ensures r.Ok? ==> HungFrom(old(C()), old(Edges(blocks, store.spool)), nid, blocks)
      ensures |store.regions| == |old(store.regions)|
    {
      hide Own, Space, Edges, LiveRefs, Used, Meta, Shrunk, Orphans, Resynced, SameExtents, SamePayloads, NodesChanged;
      hide Spared, Survivors, HungFrom, Holds, AgreeExcept;
      if nid !in nodes {
        return Err(InvalidArg);
      }
      ghost var pages := PageSet(livePages);
      var prev := nodes[nid];
      ghost var stale := {prev.data, prev.sub};
      NodeCut(nodes, nid);
      HoldsNode(W(), pages, nid, nodes - {nid}, stale);
      nodes := nodes - {nid};
      ghost var w1 := W();
      r := ReleaseNode(prev, stale, pages);
      assert (stale - {prev.data}) - {prev.sub} == {};
      ShrunkSelf(W());
      ShrunkNodes(w1, W());
      NodesChangedFrom(old(W()), w1, W(), W(), stale);
      NodeSurvivors(old(W()), w1, W(), pages, nid, {prev.data} + {prev.sub}, stale);
    }

    /** Allocates an extent and registers a block for it, owned by nobody yet. */
    method AllocBlock(cb: nat, isInternal: bool) returns (r: Result<BBTEntry>)
      requires Valid()
      modifies this`blocks, this`nextBlock, store`regions, store`spool, store`lastAllocAMap, store`bidNextB
      ensures Valid()
      ensures r.Ok? <==> cb <= MAX_DATA_CB && old(nextBlock) + 4 < U64
      ensures r.Err? ==> blocks == old(blocks) && nextBlock == old(nextBlock)
      ensures r.Ok? ==> Registered(old(W()), W(), r.value) && blocks == old(blocks)[r.value.bid := r.value]
      ensures r.Ok? ==> r.value.bid == (if isInternal then MakeInternal(old(nextBlock)) else old(nextBlock))
      ensures r.Ok? ==> r.value.cb == cb && nextBlock == old(nextBlock) + 4
      ensures r.Ok? ==> r.value.ib !in store.spool
    {
      hide Own, Space, Edges, LiveRefs, Used, Meta, Slots, KeptOutside, Registered, LowestAt, Marked, Markable, Base;
      var size := BlockDiskSize(cb);
      var ib := store.Allocate(size);
      if ib.Err? {
        return Err(ib.error);
      }
      var t := TakeMonotonic(nextBlock, 4);
      FreshBid(old(W()), PageSet(livePages), nextBlock);
      if t.Err? {
        AllocatedParts(old(store.regions), store.regions, ib.value, size);
        ghost var taken := store.spool;
        var freed := store.Free(ib.value, size);
        KeptTwice(old(store.spool), taken, store.spool, old(store.regions), ib.value, size);
        HoldsGrown(old(W()), W(), PageSet(livePages), ib.value, size);
        return Err(t.error);
      }
      nextBlock := t.value.1;
      var bid := if isInternal then MakeInternal(t.value.0) else t.value.0;
      FreshBid(old(W()), PageSet(livePages), bid);
      var noted := store.NoteBlockBID(bid);
      nextBlock := store.bidNextB;
      var e := BBTEntry(bid, ib.value, cb, 1);
      blocks := blocks[bid := e];
      HoldsRegister(old(W()), W(), PageSet(livePages), e);
      return Ok(e);
    }

    /** Writes the payload of a staged block at its extent. */
    method PutPayload(e: BBTEntry, body: Body) returns (r: Result<()>)
      requires store.Valid() && InRegion(|store.regions|, e.ib, Size(e))
      modifies store`spool
      ensures r.Ok? <==> e.cb == body.CB()
      ensures r.Err? ==> store.spool == old(store.spool)
      ensures r.Ok? ==> store.spool == old(store.spool)[e.ib := Stored(e.bid, body)]
    {
      if e.cb != body.CB() {
        return Err(InvalidArg);
      }
      r := store.WriteExtent(e.ib, Size(e), Stored(e.bid, body));
    }

    method BlockPayload(e: BBTEntry) returns (r: Result<Body>)
      ensures r == PayloadOf(store.spool, e)
    {
      if e.ib !in store.spool {
        return Err(InvariantBroken);
      }
      if store.spool[e.ib].bid != e.bid {
        return Err(InvariantBroken);
      }
      return Ok(store.spool[e.ib].body);
    }

    /** Records one reference held by the payload edge `e`; `owed` are the ones still to be recorded. */
    method AddExtra(ref: Ref, ghost e: Edge, ghost owed: set<Edge>) returns (r: Result<()>)
      requires Building(W(), owed + {e}, PageSet(livePages)) && e !in owed && e.target == ref
      requires 0 < ref.bid < e.parent < nextBlock
      modifies this`blocks, this`dataTreeRefs, this`subnodeRefs
      ensures r.Ok? <==> ref.bid in old(blocks)
      ensures r.Ok? ==> Building(W(), owed, PageSet(livePages)) && OnlyCounts(old(W()), W())
      ensures r.Ok? ==> blocks.Keys == old(blocks).Keys
    {
      hide Own, Space, Edges, LiveRefs, Used, Meta;
      if ref.bid !in blocks {
        return Err(InvalidArg);
      }
      BuildingAdd(W(), owed, PageSet(livePages), e);
      if ref.kind == DataTree {
        dataTreeRefs := dataTreeRefs[ref.bid := Get(dataTreeRefs, ref.bid) + 1];
      } else {
        subnodeRefs := subnodeRefs[ref.bid := Get(subnodeRefs, ref.bid) + 1];
      }
      assert C() == Added(old(C()), ref);
      var refs := CountRefs(ref.bid);
      blocks := blocks[ref.bid := blocks[ref.bid].(refs := (1 + refs) % U16)];
      return Ok(());
    }

    /** The bids of blocks nobody references. */
    method OrphanList() returns (drop: seq<nat>)
      ensures PageSet(drop) == Orphans(C())
    {
      drop := [];
      var todo := blocks.Keys;
      while todo != {}
        invariant todo <= blocks.Keys && PageSet(drop) == Orphans(C()) - todo
        decreases |todo|
      {
        hide LiveRefs;
        var bid :| bid in todo;
        var refs := CountRefs(bid);
        if refs == 0 {
          assert PageSet(drop + [bid]) == PageSet(drop) + {bid};
          drop := drop + [bid];
        }
        todo := todo - {bid};
      }
    }

    /** Drops every orphan; never fails, and creates none. */
    method ReclaimOrphans() returns (r: Result<()>)
      requires Valid()
      modifies this`blocks, this`dataTreeRefs, this`subnodeRefs, this`opaqueRefs, store`regions, store`spool
      ensures r.Ok? && Valid() && Shrunk(old(W()), W())
      ensures Orphans(C()) == {} && (old(Orphans(C())) == {} ==> W() == old(W()))
      ensures Survivors(old(C()), old(Edges(blocks, store.spool)), nodes, false, blocks)
    {
      hide Own, Space, Edges, LiveRefs, Used, Meta, Survivors, Spared;
      var drop := OrphanList();
      ShrunkSelf(W());
      SparedSelf(W(), Orphans(C()));
      NothingListed(drop);
      for i := 0 to |drop|
        invariant Valid() && Shrunk(old(W()), W()) && Orphans(C()) == PageSet(drop[i..]) * blocks.Keys
        invariant i == 0 ==> W() == old(W())
        invariant Spared(old(W()), W(), old(Orphans(C())))
      {
        ghost var before := W();
        assert PageSet(drop[i..]) == {drop[i]} + PageSet(drop[i + 1..]);
        assert drop[i] in blocks ==> drop[i] in Orphans(C());
        r := DropBlock(drop[i], {}, {}, PageSet(livePages));
        ShrunkTwice(old(W()), before, W());
        SparedAll(old(W()), before, W(), {drop[i]});
      }
      OnlyKept(old(W()), W(), PageSet(livePages));
      return Ok(());
    }

    method CheckRefCounts() returns (r: Result<()>)
      requires Valid()
      ensures r.Ok?
    {
      hide Own, Space, Edges, LiveRefs, Used, Meta;
      HoldsChecks(W(), PageSet(livePages));
      hide Holds;
      var todo := blocks.Keys;
      while todo != {}
        invariant todo <= blocks.Keys
        decreases |todo|
      {
        var bid :| bid in todo;
        var refs := CountRefs(bid);
        if blocks[bid].refs != (1 + refs) % U16 || blocks[bid].bid != bid {
          return Err(InvariantBroken);
        }
        todo := todo - {bid};
      }
      r := CheckNodes();
    }

    method CheckNodes() returns (r: Result<()>)
      requires Valid()
      ensures r.Ok?
    {
      hide Own, Space, Edges, LiveRefs, Used, Meta;
      HoldsChecks(W(), PageSet(livePages));
      hide Holds;
      var left := nodes.Keys;
      while left != {}
        invariant left <= nodes.Keys
        decreases |left|
      {
        var n :| n in left;
        if (nodes[n].data != 0 && nodes[n].data !in blocks) || (nodes[n].sub != 0 && nodes[n].sub !in blocks) {
          return Err(InvariantBroken);
        }
        left := left - {n};
      }
      return Ok(());
    }

    /** Whether [ib, ib+size) meets a live tree page or block extent, byte by byte. */
    method OverlapsLive(ib: nat, size: nat) returns (b: bool)
      ensures b <==> MeetsLive(W(), PageSet(livePages), ib, size)
    {
      for i := 0 to |livePages|
        invariant forall k | 0 <= k < i :: !(ib < livePages[k] + PAGE_SIZE && ib + size > livePages[k])
      {
        if ib < livePages[i] + PAGE_SIZE && ib + size > livePages[i] {
          assert livePages[i] in PageSet(livePages);
          return true;
        }
      }
      var todo := blocks.Keys;
      while todo != {}
        invariant todo <= blocks.Keys
        invariant forall o | o in blocks && o !in todo ::
          !(ib < blocks[o].ib + Size(blocks[o]) && ib + size > blocks[o].ib)
        decreases |todo|
      {
        var o :| o in todo;
        if ib < blocks[o].ib + Size(blocks[o]) && ib + size > blocks[o].ib {
          return true;
        }
        todo := todo - {o};
      }
      return false;
    }

    /** Registers a block at a caller-chosen extent: accepted exactly when the BID is new and the extent is free. */
    method PutBlock(e: BBTEntry) returns (r: Result<()>)
      requires Valid()
      modifies this`blocks, this`nextBlock, store`regions, store`spool, store`bidNextB
      ensures Valid()
      ensures r.Ok? <==> && e.bid != 0 && !HasReserved(e.bid) && e.bid !in old(blocks) && Size(e) <= MAX_ALLOC
                         && InRegion(|old(store.regions)|, e.ib, Size(e)) &&
                            Slots(e.ib, Size(e)) !! Used(old(store.regions))
      ensures r.Err? ==> W() == old(W())
      ensures r.Ok? ==> Registered(old(W()), W(), e.(refs := 1))
    {
      hide Own, Space, Edges, LiveRefs, Used, Meta, Slots, KeptOutside, Registered, Allocated, OverlapsMeta, MeetsLive;
      if e.bid == 0 || HasReserved(e.bid) {
        return Err(InvalidArg);
      }
      if e.bid in blocks {
        return Err(InvalidArg);
      }
      if e.ib == 0 || e.ib % BYTES_PER_SLOT != 0 {
        return Err(InvalidArg);
      }
      var size := BlockDiskSize(e.cb);
      if size == 0 || size > MAX_ALLOC {
        return Err(InvalidArg);
      }
      ExtentFree(W(), PageSet(livePages), e.ib, size);
      var meta := store.CoversMetadata(e.ib, size);
      if meta {
        return Err(InvalidArg);
      }
      var live := OverlapsLive(e.ib, size);
      if live {
        return Err(InvalidArg);
      }
      var isAllocated := store.AllocatedRange(e.ib, size);
      if !isAllocated {
        var reserved := store.Reserve(e.ib, size);
        if reserved.Err? {
          return Err(reserved.error);
        }
      }
      var noted := store.NoteBlockBID(e.bid);
      nextBlock := store.bidNextB;
      blocks := blocks[e.bid := e.(refs := 1)];
      ReservedKept(old(store.spool), store.spool, old(store.regions), e.ib, size);
      NextAligned(old(W()), PageSet(livePages));
      HoldsRegister(old(W()), W(), PageSet(livePages), e.(refs := 1));
      return Ok(());
    }
  }

  ghost predicate MeetsLive(w: World, pages: set<nat>, ib: nat, size: nat) {
    || (exists p | p in pages :: ib < p + PAGE_SIZE && ib + size > p)
    || (exists o | o in w.c.blocks :: ib < w.c.blocks[o].ib + Size(w.c.blocks[o]) && ib + size > w.c.blocks[o].ib)
  }

  /** An extent is free exactly when it meets no map page, tree page or block; then it is not allocated. */
  lemma ExtentFree(w: World, pages: set<nat>, ib: nat, size: nat)
    requires Holds(w, {}, {}, pages) && size > 0
    ensures InRegion(|w.rs|, ib, size) && Slots(ib, size) !! Used(w.rs) ==>
      !OverlapsMeta(|w.rs|, ib, size) && !MeetsLive(w, pages, ib, size) && !Markable(w.rs, ib, size, false)
    ensures !OverlapsMeta(|w.rs|, ib, size) && !MeetsLive(w, pages, ib, size) && InRegion(|w.rs|, ib, size) ==>
      Slots(ib, size) !! Used(w.rs)
    ensures !OverlapsMeta(|w.rs|, ib, size) && !MeetsLive(w, pages, ib, size) ==> !Markable(w.rs, ib, size, false)
  {
    hide Own, Edges, LiveRefs, Used;
    if InRegion(|w.rs|, ib, size) {
      OverlapsMetaSlots(|w.rs|, ib, size);
      UsedSubset(w.rs, ib, size);
      MeetsSlots(w.rs, w, pages, ib, size);
      assert SlotNumber(ib) in Slots(ib, size);
    }
  }

  lemma MeetsSlots(rs: seq<Bitmap>, w: World, pages: set<nat>, ib: nat, size: nat)
    requires Space(rs, w.c.blocks, pages) && Aligned(ib, size) && size > 0
    ensures MeetsLive(w, pages, ib, size) <==> !(Slots(ib, size) !! BlockSlots(w.c.blocks) + PageSlots(pages))
  {
    hide Used, Meta;
    forall p | p in pages
      ensures Slots(p, PAGE_SIZE) !! Slots(ib, size) <==> !(ib < p + PAGE_SIZE && ib + size > p)
      ensures Slots(p, PAGE_SIZE) <= PageSlots(pages)
    {
      DisjointExtents(p, PAGE_SIZE, ib, size);
    }
    forall o | o in w.c.blocks
      ensures Slots(w.c.blocks[o].ib, Size(w.c.blocks[o])) !! Slots(ib, size)
         <==> !(ib < w.c.blocks[o].ib + Size(w.c.blocks[o]) && ib + size > w.c.blocks[o].ib)
      ensures Slots(w.c.blocks[o].ib, Size(w.c.blocks[o])) <= BlockSlots(w.c.blocks)
    {
      DisjointExtents(w.c.blocks[o].ib, Size(w.c.blocks[o]), ib, size);
    }
    hide Slots;
  }

  lemma ReservedKept(spool: map<nat, Stored>, spool': map<nat, Stored>, rs: seq<Bitmap>, ib: nat, size: nat)
    requires spool' == Cleared(spool, ib, size) && size > 0
    ensures KeptOutside(spool, spool', rs, ib, size) && ib !in spool'
  {
  }

  lemma NextAligned(w: World, pages: set<nat>)
    requires Holds(w, {}, {}, pages)
    ensures w.next % 4 == 0
  {
    hide Space, Edges, LiveRefs, Used, Meta;
  }

  /** What CheckRefCounts looks at. */
  lemma HoldsChecks(w: World, pages: set<nat>)
    requires Holds(w, {}, {}, pages)
    ensures forall b | b in w.c.blocks :: w.c.blocks[b].bid == b && w.c.blocks[b].refs == (1 + LiveRefs(w.c, b)) % U16
    ensures forall n | n in w.c.nodes ::
      && (w.c.nodes[n].data == 0 || w.c.nodes[n].data in w.c.blocks)
      && (w.c.nodes[n].sub == 0 || w.c.nodes[n].sub in w.c.blocks)
      && w.c.nodes[n].nid == n && 0 < n < U32
  {
    hide Space, Edges, LiveRefs, Used, Meta;
  }

  function PayloadOf(spool: map<nat, Stored>, e: BBTEntry): Result<Body> {
    if e.ib in spool && spool[e.ib].bid == e.bid then Ok(spool[e.ib].body) else Err(InvariantBroken)
  }

  /** As Holds, while the references `owed` of the newest payload are not counted yet. */
  ghost predicate Building(w: World, owed: set<Edge>, pages: set<nat>) {
    && Meta(|w.rs|) <= Used(w.rs)
    && owed <= Edges(w.c.blocks, w.spool)
    && Own(w.c, Edges(w.c.blocks, w.spool) - owed, {}, w.next)
    && Space(w.rs, w.c.blocks, pages)
  }

  /** Same blocks, extents and payloads; only counts moved. */
  ghost predicate OnlyCounts(w: World, w': World) {
    && w'.c.nodes == w.c.nodes && w'.next == w.next && w'.rs == w.rs && w'.spool == w.spool
    && SameExtents(w.c.blocks, w'.c.blocks) && w'.c.blocks.Keys == w.c.blocks.Keys
    && w'.c.oref == w.c.oref
  }

  lemma BuildingAdd(w: World, owed: set<Edge>, pages: set<nat>, e: Edge)
    requires Building(w, owed + {e}, pages) && e !in owed
    requires e.target.bid in w.c.blocks && 0 < e.target.bid < e.parent < w.next
    ensures var c1 := Added(w.c, e.target);
      var w' := w.(c := Resynced(c1, e.target.bid, (1 + LiveRefs(c1, e.target.bid)) % U16));
      Building(w', owed, pages) && OnlyCounts(w, w')
  {
    hide Space, Edges, LiveRefs, Used, Meta, Own, SameExtents, Added;
    var c1 := Added(w.c, e.target);
    AddedParts(w.c, e.target);
    var c2 := Resynced(c1, e.target.bid, (1 + LiveRefs(c1, e.target.bid)) % U16);
    var E := Edges(w.c.blocks, w.spool);
    assert (E - (owed + {e})) + {e} == E - owed;
    assert Own(c2, E - owed, {}, w.next) by {
      AddSynced(w.c, E - (owed + {e}), w.next, e);
    }
    assert SameExtents(w.c.blocks, c2.blocks) && SameExtents(c2.blocks, w.c.blocks) by {
      ResyncedExtents(c1, e.target.bid, (1 + LiveRefs(c1, e.target.bid)) % U16);
    }
    assert Edges(c2.blocks, w.spool) == E by {
      EdgesSame(w.c.blocks, c2.blocks, w.spool, w.spool);
    }
    SpaceSame(w.rs, w.c.blocks, c2.blocks, pages);
  }

  lemma AddedParts(c: Cat, r: Ref)
    ensures Added(c, r).blocks == c.blocks && Added(c, r).nodes == c.nodes && Added(c, r).oref == c.oref
  {
  }

  lemma ResyncedExtents(c: Cat, bid: nat, refs: nat)
    requires bid in c.blocks
    ensures SameExtents(c.blocks, Resynced(c, bid, refs).blocks) && SameExtents(Resynced(c, bid, refs).blocks, c.blocks)
  {
  }

  lemma AddSynced(c: Cat, E: set<Edge>, next: nat, e: Edge)
    requires Own(c, E, {}, next) && e !in E
    requires e.target.bid in c.blocks && 0 < e.target.bid < e.parent < next
    ensures Own(Resynced(Added(c, e.target), e.target.bid, (1 + LiveRefs(Added(c, e.target), e.target.bid)) % U16),
                E + {e}, {}, next)
  {
    hide LiveRefs, Own, Added;
    AddOwn(c, E, {}, next, e);
    AddedParts(c, e.target);
    assert {} + {e.target.bid} == {e.target.bid};
    ResyncOwn(Added(c, e.target), E + {e}, {e.target.bid}, next, e.target.bid);
    assert {e.target.bid} - {e.target.bid} == {};
  }

  /** A new block `e` was added to `w`: its extent was free, all other blocks keep extent and payload. */
  ghost predicate Registered(w: World, w': World, e: BBTEntry) {
    && e.bid !in w.c.blocks && e.refs == 1
    && w'.c == w.c.(blocks := w.c.blocks[e.bid := e])
    && w'.next >= w.next && w'.next % 4 == 0 && Strip(e.bid) + 4 <= w'.next
    && Allocated(w.rs, w'.rs, e.ib, Size(e))
    && SamePayloads(w.c.blocks, w.spool, w'.spool)
  }

  lemma HoldsRegister(w: World, w': World, pages: set<nat>, e: BBTEntry)
    requires Holds(w, {}, {}, pages) && e.bid !in w.c.blocks && e.refs == 1 && Size(e) <= MAX_ALLOC
    requires e.bid != 0 && !HasReserved(e.bid)
    requires w'.c == w.c.(blocks := w.c.blocks[e.bid := e])
    requires w'.next >= w.next && w'.next % 4 == 0 && Strip(e.bid) + 4 <= w'.next
    requires Allocated(w.rs, w'.rs, e.ib, Size(e)) && Meta(|w'.rs|) <= Used(w'.rs)
    requires KeptOutside(w.spool, w'.spool, w.rs, e.ib, Size(e)) && e.ib !in w'.spool
    ensures Holds(w', {}, {}, pages) && Registered(w, w', e)
  {
    hide Own, Space, Edges, LiveRefs, Used, Meta, Slots, KeptOutside, SamePayloads, Allocated;
    assert Space(w'.rs, w'.c.blocks, pages) by {
      SpaceAlloc(w.rs, w'.rs, w.c.blocks, pages, e);
    }
    assert SamePayloads(w.c.blocks, w.spool, w'.spool) by {
      RegisterPayloads(w, w', pages, e);
    }
    assert Edges(w'.c.blocks, w'.spool) == Edges(w.c.blocks, w.spool) by {
      EdgesAlloc(w.c.blocks, w.spool, w'.spool, e);
    }
    assert Edges(w.c.blocks, w.spool) + {} == Edges(w.c.blocks, w.spool);
    RegisterOwn(w.c, Edges(w.c.blocks, w.spool), w.next, w'.next, e);
  }

  lemma AllocatedParts(rs: seq<Bitmap>, rs': seq<Bitmap>, ib: nat, size: nat)
    requires Allocated(rs, rs', ib, size)
    ensures |rs| <= |rs'| && InRegion(|rs'|, ib, size)
    ensures Slots(ib, size) <= Used(rs') && Slots(ib, size) !! Meta(|rs'|)
    ensures Used(rs') - Slots(ib, size) == Used(rs) + Meta(|rs'|)
    ensures Slots(ib, size) !! Used(rs)
  {
    hide Used, Meta, Slots;
  }

  lemma KeptTwice(spool: map<nat, Stored>, spool': map<nat, Stored>, spool'': map<nat, Stored>, rs: seq<Bitmap>,
                  ib: nat, size: nat)
    requires KeptOutside(spool, spool', rs, ib, size) && spool'' == Cleared(spool', ib, size)
    ensures KeptOutside(spool, spool'', rs, ib, size)
  {
  }

  /** Growing the file leaves the catalog and its payloads alone. */
  lemma HoldsGrown(w: World, w': World, pages: set<nat>, ib: nat, size: nat)
    requires Holds(w, {}, {}, pages) && w'.c == w.c && w'.next == w.next
    requires Meta(|w'.rs|) <= Used(w'.rs) && |w.rs| <= |w'.rs| && Used(w'.rs) == Used(w.rs) + Meta(|w'.rs|)
    requires Aligned(ib, size) && size > 0 && Slots(ib, size) !! Used(w.rs)
    requires KeptOutside(w.spool, w'.spool, w.rs, ib, size)
    ensures Holds(w', {}, {}, pages) && SamePayloads(w.c.blocks, w.spool, w'.spool)
  {
    hide Own, Edges, LiveRefs, Used, Meta, Slots, KeptOutside, SamePayloads;
    assert SamePayloads(w.c.blocks, w.spool, w'.spool) by {
      forall b | b in w.c.blocks
        ensures Slots(w.c.blocks[b].ib, Size(w.c.blocks[b])) !! Slots(ib, size)
      {
        BlockExtentUsed(w.rs, w.c.blocks, pages, b);
      }
      ClearedElsewhere(w.rs, w.c.blocks, pages, w.spool, w'.spool, ib, size);
    }
    assert Edges(w'.c.blocks, w'.spool) == Edges(w.c.blocks, w.spool) by {
      SelfExtents(w.c.blocks);
      EdgesSame(w.c.blocks, w.c.blocks, w.spool, w'.spool);
    }
    SpaceGrown(w.rs, w'.rs, w.c.blocks, pages);
  }

  lemma SelfExtents(blocks: map<nat, BBTEntry>)
    ensures SameExtents(blocks, blocks)
  {
  }

  /** The next counter value names no block yet. */
  lemma FreshBid(w: World, pages: set<nat>, bid: nat)
    requires Holds(w, {}, {}, pages) && (bid == w.next || bid == MakeInternal(w.next))
    ensures bid !in w.c.blocks && bid != 0 && !HasReserved(bid) && Strip(bid) == w.next
    ensures w.next > 0 && forall b | b in w.c.blocks :: b < w.next
  {
    hide Space, Edges, LiveRefs, Used, Meta;
  }

  lemma RegisterPayloads(w: World, w': World, pages: set<nat>, e: BBTEntry)
    requires Space(w.rs, w.c.blocks, pages)
    requires Allocated(w.rs, w'.rs, e.ib, Size(e))
    requires KeptOutside(w.spool, w'.spool, w.rs, e.ib, Size(e))
    ensures SamePayloads(w.c.blocks, w.spool, w'.spool)
  {
    hide Used, Meta, Slots, KeptOutside, SamePayloads, BlockSlots;
    forall b | b in w.c.blocks
      ensures Slots(w.c.blocks[b].ib, Size(w.c.blocks[b])) !! Slots(e.ib, Size(e))
    {
      BlockExtentUsed(w.rs, w.c.blocks, pages, b);
    }
    ClearedElsewhere(w.rs, w.c.blocks, pages, w.spool, w'.spool, e.ib, Size(e));
  }

  lemma NewUnreferenced(c: Cat, E: set<Edge>, next: nat, bid: nat)
    requires Own(c, E, {}, next) && bid !in c.blocks && bid != 0
    ensures LiveRefs(c, bid) == 0
  {
    assert Into(E, Ref(DataTree, bid)) == {} && Into(E, Ref(Subnode, bid)) == {};
    assert WithData(c.nodes, bid) == {} && WithSub(c.nodes, bid) == {};
  }

  lemma RegisterOwn(c: Cat, E: set<Edge>, next: nat, next': nat, e: BBTEntry)
    requires Own(c, E, {}, next) && e.bid !in c.blocks && e.refs == 1
    requires e.bid != 0 && !HasReserved(e.bid)
    requires next' >= next && next' % 4 == 0 && Strip(e.bid) + 4 <= next'
    ensures Own(c.(blocks := c.blocks[e.bid := e]), E, {}, next')
  {
    hide Into, NbtRefs;
    NewUnreferenced(c, E, next, e.bid);
    var c' := c.(blocks := c.blocks[e.bid := e]);
    assert forall b :: LiveRefs(c', b) == LiveRefs(c, b);
  }

  /** The two maps agree, and the rest of the state changed as in Shrunk. */
  ghost predicate NodesChanged(w: World, w': World) {
    && SameExtents(w.c.blocks, w'.c.blocks) && SamePayloads(w'.c.blocks, w.spool, w'.spool)
    && Orphans(w'.c) <= Orphans(w.c)
    && forall b | b in w'.c.blocks :: Get(w'.c.oref, b) == Get(w.c.oref, b)
  }

  /** Changing one node leaves four counts to resync; at most its old blocks lost their last reference. */
  lemma HoldsNode(w: World, pages: set<nat>, nid: nat, nodes': map<nat, NBTEntry>, stale: set<nat>)
    requires Holds(w, {}, {}, pages) && AgreeExcept(w.c.nodes, nodes', nid)
    requires nid in w.c.nodes ==> w.c.nodes[nid].data in stale && w.c.nodes[nid].sub in stale
    requires nid in nodes' ==> nodes'[nid].data in stale && nodes'[nid].sub in stale
    requires nid in nodes' ==> nodes'[nid].nid == nid && 0 < nid < U32
    requires nid in nodes' ==> (nodes'[nid].data == 0 || nodes'[nid].data in w.c.blocks)
    requires nid in nodes' ==> (nodes'[nid].sub == 0 || nodes'[nid].sub in w.c.blocks)
    ensures Holds(w.(c := w.c.(nodes := nodes')), {}, stale, pages)
    ensures Orphans(w.c.(nodes := nodes')) <= Orphans(w.c) + stale
  {
    hide Space, Edges, LiveRefs, Used, Meta;
    assert Edges(w.c.blocks, w.spool) + {} == Edges(w.c.blocks, w.spool);
    NodeOwn(w.c, Edges(w.c.blocks, w.spool), w.next, nid, nodes', stale);
  }

  lemma ShrunkNodes(w: World, w': World)
    requires Shrunk(w, w')
    ensures w'.c.nodes == w.c.nodes && w'.next == w.next && |w'.rs| == |w.rs| && Orphans(w'.c) <= Orphans(w.c)
  {
  }

  lemma NodeSet(nodes: map<nat, NBTEntry>, e: NBTEntry)
    ensures AgreeExcept(nodes, nodes[e.nid := e], e.nid)
  {
  }

  lemma NodeCut(nodes: map<nat, NBTEntry>, nid: nat)
    ensures AgreeExcept(nodes, nodes - {nid}, nid)
  {
  }

  /** The references of what is left are those of before whose block is left. */
  lemma EdgesLeft(w: World, w': World)
    requires SameExtents(w.c.blocks, w'.c.blocks) && SamePayloads(w'.c.blocks, w.spool, w'.spool)
    ensures forall e :: e in Edges(w'.c.blocks, w'.spool) <==>
      e in Edges(w.c.blocks, w.spool) && e.parent in w'.c.blocks
  {
    forall b | b in w'.c.blocks
      ensures b in w.c.blocks && KidsOf(w'.c.blocks, w'.spool, b) == KidsOf(w.c.blocks, w.spool, b)
    {
      assert w'.c.blocks[b].ib == w'.c.blocks[b].(refs := 0).ib == w.c.blocks[b].ib;
    }
  }

  lemma OwnOf(w: World, pages: set<nat>)
    requires Holds(w, {}, {}, pages)
    ensures Own(w.c, Edges(w.c.blocks, w.spool), {}, w.next)
    ensures forall e | e in Edges(w.c.blocks, w.spool) :: e.parent in w.c.blocks
  {
    hide Own, Space, LiveRefs, Used, Meta;
    assert Edges(w.c.blocks, w.spool) + {} == Edges(w.c.blocks, w.spool);
  }

  lemma OwnParts(c: Cat, E: set<Edge>, next: nat)
    requires Own(c, E, {}, next)
    ensures Counted(c, E) && Closed(c, E) && (forall e | e in E :: e.target.bid < e.parent)
    ensures forall b | b in c.blocks :: b < next
  {
    hide LiveRefs, Counted;
  }

  /** Blocks only left `w`, and none that was counted by a file, or unreferenced when those count. */
  lemma LeftWorld(w: World, w': World, pages: set<nat>, pages': set<nat>, loose: bool)
    requires Holds(w, {}, {}, pages) && Holds(w', {}, {}, pages')
    requires SameExtents(w.c.blocks, w'.c.blocks) && SamePayloads(w'.c.blocks, w.spool, w'.spool)
    requires Orphans(w'.c) <= (if loose then Orphans(w.c) else {}) && (loose ==> Orphans(w.c) <= w'.c.blocks.Keys)
    requires forall b | b in w'.c.blocks :: Get(w'.c.oref, b) == Get(w.c.oref, b)
    requires forall b | b in w.c.blocks && Get(w.c.oref, b) > 0 :: b in w'.c.blocks
    ensures Survivors(w.c, Edges(w.c.blocks, w.spool), w'.c.nodes, loose, w'.c.blocks)
  {
    hide Own, Space, Edges, LiveRefs, Used, Meta, Counted, Closed, Survivors, Holds, SamePayloads;
    OwnOf(w, pages);
    OwnOf(w', pages');
    OwnParts(w.c, Edges(w.c.blocks, w.spool), w.next);
    OwnParts(w'.c, Edges(w'.c.blocks, w'.spool), w'.next);
    EdgesLeft(w, w');
    assert w'.c.blocks.Keys <= w.c.blocks.Keys;
    forall b | b in w'.c.blocks && Orphan(w'.c, b)
      ensures loose && Orphan(w.c, b)
    {
      assert b in Orphans(w'.c);
    }
    forall b | loose && b in w.c.blocks && Orphan(w.c, b)
      ensures b in w'.c.blocks
    {
      assert b in Orphans(w.c);
    }
    LeftSurvivors(w.c, Edges(w.c.blocks, w.spool), w'.c, Edges(w'.c.blocks, w'.spool), loose, w.next);
  }

  /** After the node `nid` alone changed, blocks that were unreferenced are still there. */
  lemma OrphansStay(w: World, w1: World, w': World, pages: set<nat>, nid: nat, but: set<nat>, stale: set<nat>)
    requires Holds(w, {}, {}, pages) && Holds(w', {}, {}, pages) && AgreeExcept(w.c.nodes, w1.c.nodes, nid)
    requires w1 == w.(c := w.c.(nodes := w1.c.nodes)) && Spared(w1, w', but) && w'.c.nodes == w1.c.nodes && but <= stale
    requires nid in w.c.nodes ==> w.c.nodes[nid].data in stale && w.c.nodes[nid].sub in stale
    requires nid in w1.c.nodes ==> w1.c.nodes[nid].data in stale && w1.c.nodes[nid].sub in stale
    requires forall b | b in stale ::
      b == 0 || (nid in w.c.nodes && (b == w.c.nodes[nid].data || b == w.c.nodes[nid].sub))
                                  || (nid in w1.c.nodes && (b == w1.c.nodes[nid].data || b == w1.c.nodes[nid].sub))
    ensures Orphans(w.c) <= w'.c.blocks.Keys
  {
    hide Holds, LiveRefs, AgreeExcept;
    if nid in w.c.nodes {
      NodeBlocksLive(w, {}, {}, pages, nid);
    }
    if nid in w'.c.nodes {
      NodeBlocksLive(w', {}, {}, pages, nid);
    }
    SameRefs(w.c, w1.c.nodes, nid, stale);
    NoZero(w, pages);
    forall b | b in Orphans(w.c)
      ensures b in w'.c.blocks
    {
      if b !in stale {
        assert b in Orphans(w1.c) - but;
      }
    }
  }

  lemma SameRefs(c: Cat, nodes: map<nat, NBTEntry>, nid: nat, stale: set<nat>)
    requires AgreeExcept(c.nodes, nodes, nid)
    requires nid in c.nodes ==> c.nodes[nid].data in stale && c.nodes[nid].sub in stale
    requires nid in nodes ==> nodes[nid].data in stale && nodes[nid].sub in stale
    ensures forall b | b !in stale :: LiveRefs(c.(nodes := nodes), b) == LiveRefs(c, b)
  {
    NbtRefsFrame(c.nodes, nodes, nid, stale);
    hide NbtRefs, AgreeExcept;
  }

  lemma NoZero(w: World, pages: set<nat>)
    requires Holds(w, {}, {}, pages)
    ensures 0 !in w.c.blocks
  {
    hide Space, Edges, LiveRefs, Used, Meta;
  }

  lemma NodeSurvivors(w: World, w1: World, w': World, pages: set<nat>, nid: nat, but: set<nat>, stale: set<nat>)
    requires Holds(w, {}, {}, pages) && Holds(w', {}, {}, pages) && AgreeExcept(w.c.nodes, w1.c.nodes, nid)
    requires w1 == w.(c := w.c.(nodes := w1.c.nodes)) && Spared(w1, w', but) && w'.c.nodes == w1.c.nodes && but <= stale
    requires NodesChanged(w, w')
    requires nid in w.c.nodes ==> w.c.nodes[nid].data in stale && w.c.nodes[nid].sub in stale
    requires nid in w1.c.nodes ==> w1.c.nodes[nid].data in stale && w1.c.nodes[nid].sub in stale
    requires forall b | b in stale ::
      b == 0 || (nid in w.c.nodes && (b == w.c.nodes[nid].data || b == w.c.nodes[nid].sub))
                                  || (nid in w1.c.nodes && (b == w1.c.nodes[nid].data || b == w1.c.nodes[nid].sub))
    ensures Survivors(w.c, Edges(w.c.blocks, w.spool), w'.c.nodes, true, w'.c.blocks)
    ensures HungFrom(w.c, Edges(w.c.blocks, w.spool), nid, w'.c.blocks)
  {
    OrphansStay(w, w1, w', pages, nid, but, stale);
    hide Holds, Edges, Orphans, Survivors, HungFrom, AgreeExcept, SameExtents, SamePayloads, Own;
    LeftWorld(w, w', pages, pages, true);
    OwnOf(w, pages);
    LostHung(w.c, Edges(w.c.blocks, w.spool), w.next, nid, w'.c.nodes, w'.c.blocks);
  }

  lemma NodesChangedFrom(w: World, w1: World, w2: World, w3: World, stale: set<nat>)
    requires w1 == w.(c := w.c.(nodes := w1.c.nodes)) && Orphans(w1.c) <= Orphans(w.c) + stale
    requires Shrunk(w1, w2) && Shrunk(w2, w3) && stale !! Orphans(w2.c)
    ensures NodesChanged(w, w3)
  {
    hide LiveRefs, Orphans;
    ShrunkTwice(w1, w2, w3);
  }

  /** Blocks a node names are live and not orphans. */
  lemma NodeBlocksLive(w: World, pend: set<Edge>, stale: set<nat>, pages: set<nat>, n: nat)
    requires Holds(w, pend, stale, pages) && n in w.c.nodes
    ensures w.c.nodes[n].data == 0 || (w.c.nodes[n].data in w.c.blocks && w.c.nodes[n].data !in Orphans(w.c))
    ensures w.c.nodes[n].sub == 0 || (w.c.nodes[n].sub in w.c.blocks && w.c.nodes[n].sub !in Orphans(w.c))
    ensures 0 !in w.c.blocks && 0 !in Orphans(w.c)
  {
    hide Space, Edges, Used, Meta;
    NodeRefsPositive(w.c.nodes, n);
  }

  lemma NothingListed(list: seq<nat>)
    ensures PageSet(list) == {} ==> list == []
  {
    assert list != [] ==> list[0] in PageSet(list);
  }

  lemma ShrunkSelf(w: World)
    ensures Shrunk(w, w)
  {
  }

  /** The extent of a live block can be freed. */
  lemma DropExtent(w: World, pend: set<Edge>, stale: set<nat>, pages: set<nat>, bid: nat)
    requires Holds(w, pend, stale, pages) && bid in w.c.blocks
    ensures w.c.blocks[bid].bid == bid
    ensures InRegion(|w.rs|, w.c.blocks[bid].ib, Size(w.c.blocks[bid]))
    ensures Slots(w.c.blocks[bid].ib, Size(w.c.blocks[bid])) <= Used(w.rs)
    ensures Slots(w.c.blocks[bid].ib, Size(w.c.blocks[bid])) !! Meta(|w.rs|)
  {
    BlockExtentUsed(w.rs, w.c.blocks, pages, bid);
  }

  lemma SplitKid(pend: set<Edge>, bid: nat, kids: seq<Ref>, i: nat)
    requires i < |kids|
    ensures pend + KidEdges(bid, kids, i) == (pend + KidEdges(bid, kids, i + 1)) + {Edge(bid, i, kids[i])}
    ensures Edge(bid, i, kids[i]) !in KidEdges(bid, kids, i + 1)
  {
  }

  lemma EmptyHolds(w: World)
    requires w.c == Cat(map[], map[], map[], map[], map[]) && w.next == FIRST_ALLOC_BID
    requires w.rs == [FreshRegion(0)]
    ensures Holds(w, {}, {}, {})
  {
    assert Edges(w.c.blocks, w.spool) + {} == {};
    assert Own(w.c, {}, {}, w.next) by {
      hide Used, Meta;
      assert forall t :: Into({}, t) == {};
    }
    assert Used(w.rs) == Meta(1) by {
      GrownUsed([]);
      assert [] + [FreshRegion(0)] == w.rs;
      assert Used([]) == {} && Meta(0) == {};
    }
    hide Used, Meta, Own, Edges;
    assert BlockSlots(w.c.blocks) == {} && PageSlots({}) == {};
  }

  lemma HoldsAbsent(w: World, pend: set<Edge>, stale: set<nat>, pages: set<nat>, bid: nat)
    requires Holds(w, pend, stale, pages) && (bid == 0 || bid !in w.c.blocks)
    ensures Holds(w, pend, stale - {bid}, pages) && bid !in w.c.blocks
  {
    hide Space, Edges, LiveRefs;
  }

  lemma HoldsWeaker(w: World, pend: set<Edge>, stale: set<nat>, stale': set<nat>, pages: set<nat>)
    requires Holds(w, pend, stale, pages) && stale <= stale'
    ensures Holds(w, pend, stale', pages)
  {
    hide Space, Edges, LiveRefs;
  }

  lemma ShrunkRelease(w: World, w': World, w'': World, ref: Ref)
    requires Get(if ref.kind == DataTree then w.c.dref else w.c.sref, ref.bid) > 0
    requires w' == w.(c := Released(w.c, ref)) && Orphans(w.c) <= Orphans(w'.c) <= Orphans(w.c) + {ref.bid}
    requires ref.bid !in Orphans(w.c)
    requires Shrunk(w', w'') && ref.bid !in Orphans(w''.c)
    ensures Shrunk(w, w'')
  {
    hide LiveRefs, Orphans;
  }

  lemma SparedRelease(w: World, w': World, w'': World, ref: Ref)
    requires Get(if ref.kind == DataTree then w.c.dref else w.c.sref, ref.bid) > 0
    requires w' == w.(c := Released(w.c, ref)) && Orphans(w.c) <= Orphans(w'.c)
    requires ref.bid !in Orphans(w.c) && Spared(w', w'', {ref.bid})
    ensures Spared(w, w'', {})
  {
    hide LiveRefs, Orphans;
  }

  lemma SparedSelf(w: World, but: set<nat>)
    ensures Spared(w, w, but)
  {
    hide Orphans;
  }

  lemma SparedKeys(w: World, w': World, but: set<nat>)
    requires Shrunk(w, w') && w'.c.blocks.Keys == w.c.blocks.Keys
    ensures Spared(w, w', but)
  {
  }

  lemma SparedAll(w: World, w': World, w'': World, but: set<nat>)
    requires Spared(w, w', Orphans(w.c)) && Spared(w', w'', but)
    ensures Spared(w, w'', Orphans(w.c))
  {
    hide Orphans;
  }

  /** Reclamation leaves exactly what nodes and taken-over counts keep. */
  lemma OnlyKept(w: World, w': World, pages: set<nat>)
    requires Holds(w, {}, {}, pages) && Holds(w', {}, {}, pages) && Shrunk(w, w') && Orphans(w'.c) == {}
    requires Spared(w, w', Orphans(w.c))
    ensures Survivors(w.c, Edges(w.c.blocks, w.spool), w'.c.nodes, false, w'.c.blocks)
  {
    hide Holds, Edges, Orphans, Survivors, SameExtents, SamePayloads;
    LeftWorld(w, w', pages, pages, false);
  }

  lemma OrphanIn(c: Cat, bid: nat)
    requires bid in c.blocks && Orphan(c, bid)
    ensures {bid} <= Orphans(c)
  {
  }

  lemma ShrunkFewer(w: World, w': World)
    requires Shrunk(w, w')
    ensures w'.c.blocks.Keys <= w.c.blocks.Keys && |w'.c.blocks| <= |w.c.blocks|
  {
    hide LiveRefs, Orphans;
    assert w'.c.blocks.Keys <= w.c.blocks.Keys;
    SubsetSize(w'.c.blocks.Keys, w.c.blocks.Keys);
  }

  lemma ScanNode(nodes: map<nat, NBTEntry>, bid: nat, todo: set<nat>, n: nat)
    requires n in todo && todo <= nodes.Keys
    ensures |WithData(nodes, bid) - (todo - {n})| == |WithData(nodes, bid) - todo| +
      if nodes[n].data == bid then 1 else 0
    ensures |WithSub(nodes, bid) - (todo - {n})| == |WithSub(nodes, bid) - todo| + if nodes[n].sub == bid then 1 else 0
  {
    assert WithData(nodes, bid) - (todo - {n}) == (WithData(nodes, bid) - todo) +
      if nodes[n].data == bid then {n} else {};
    assert WithSub(nodes, bid) - (todo - {n}) == (WithSub(nodes, bid) - todo) + if nodes[n].sub == bid then {n} else {};
  }

  // ---------- identifiers as the package reader compares them ----------

  /** No two catalog entries agree once the internal bit is cleared: true while one counter issues BIDs. */
  ghost predicate StripDistinct(blocks: map<nat, BBTEntry>) {
    forall b, b' | b in blocks && b' in blocks && Strip(b) == Strip(b') :: b == b'
  }

  /** Allocator-issued BIDs stay distinct after stripping; a BID registered by hand may collide. */
  lemma RegisterKeepsStripDistinct(w: World, w': World, e: BBTEntry)
    requires Registered(w, w', e) && StripDistinct(w.c.blocks)
    ensures StripDistinct(w'.c.blocks) <==> forall b | b in w.c.blocks :: Strip(b) != Strip(e.bid)
  {
    if b :| b in w.c.blocks && Strip(b) == Strip(e.bid) {
      assert b in w'.c.blocks && e.bid in w'.c.blocks;
    }
  }

  lemma IssuedStripDistinct(w: World, w': World, pages: set<nat>, e: BBTEntry)
    requires Holds(w, {}, {}, pages) && Registered(w, w', e)
    requires e.bid == w.next || e.bid == MakeInternal(w.next)
    ensures StripDistinct(w.c.blocks) ==> StripDistinct(w'.c.blocks)
  {
    hide Edges, LiveRefs, Used, Meta, Space, Registered;
    FreshBid(w, pages, e.bid);
    if StripDistinct(w.c.blocks) {
      RegisterKeepsStripDistinct(w, w', e);
    }
  }

  lemma FewerStripDistinct(blocks: map<nat, BBTEntry>, blocks': map<nat, BBTEntry>)
    requires StripDistinct(blocks) && forall b | b in blocks' :: b in blocks
    ensures StripDistinct(blocks')
  {
  }
}
