/** What exact reference counts buy: the live blocks are the reachable ones, and no two extents meet. */
module Ownership {
  import opened Common
  import opened Geometry
  import opened Blocks
  import opened Allocation
  import opened Catalog
  import opened Survival
  import opened NodeDatabase

  /** A chain of payload references leads to `bid` from a block some node names. */
  ghost predicate Reachable(c: Cat, E: set<Edge>, bid: nat) {
    exists top | Names(c.nodes, top) :: Leads(E, top, bid)
  }

  lemma NoneLoose(c: Cat, E: set<Edge>, next: nat)
    requires Own(c, E, {}, next) && Orphans(c) == {} && forall e | e in E :: e.parent in c.blocks
    ensures Left(c, E, c, E, false) && forall b | b in c.blocks :: b < next
  {
    OwnParts(c, E, next);
    hide Counted, Closed, LiveRefs;
    forall b | b in c.blocks
      ensures !Orphan(c, b)
    {
      assert b !in Orphans(c);
    }
  }

  /** With no orphan and no opaque count, the live blocks are exactly the ones reachable from nodes. */
  lemma LiveIffReachable(w: World, pages: set<nat>)
    requires Holds(w, {}, {}, pages) && Orphans(w.c) == {}
    requires forall b | b in w.c.blocks :: Get(w.c.oref, b) == 0
    ensures forall b :: b in w.c.blocks <==> Reachable(w.c, Edges(w.c.blocks, w.spool), b)
  {
    var E := Edges(w.c.blocks, w.spool);
    hide Holds, Own, Edges, Orphans, Left, Leads;
    OwnOf(w, pages);
    NoneLoose(w.c, E, w.next);
    forall b
      ensures b in w.c.blocks <==> Reachable(w.c, E, b)
    {
      if b in w.c.blocks {
        LeftKept(w.c, E, w.c, E, false, w.next, b);
      }
      if top :| Names(w.c.nodes, top) && Leads(E, top, b) {
        OwnParts(w.c, E, w.next);
        NamesLive(w.c, E, top);
        LeadsLeft(w.c, E, w.c, E, false, top, b);
      }
    }
  }

  lemma OwnCounts(c: Cat, E: set<Edge>, next: nat, bid: nat)
    requires Own(c, E, {}, next) && bid in c.blocks
    ensures c.blocks[bid].refs ==
      (1 + NbtRefs(c.nodes, bid) + |Into(E, Ref(DataTree, bid))| + |Into(E, Ref(Subnode, bid))| + Get(c.oref,
          bid)) % U16
  {
    hide Into, Closed, Issued, NbtRefs;
  }

  /** The number of times live payloads mention `bid`, and the reference count that follows. */
  lemma CountsMatchPayloads(w: World, pages: set<nat>, bid: nat)
    requires Holds(w, {}, {}, pages) && bid in w.c.blocks
    ensures var E := Edges(w.c.blocks, w.spool);
      w.c.blocks[bid].refs == (1 + NbtRefs(w.c.nodes, bid) + |Into(E, Ref(DataTree, bid))| + |Into(E,
          Ref(Subnode, bid))|
                               + Get(w.c.oref, bid)) % U16
  {
    hide Own, Space, Used, Meta, Edges, Into, NbtRefs;
    assert Edges(w.c.blocks, w.spool) + {} == Edges(w.c.blocks, w.spool);
    OwnCounts(w.c, Edges(w.c.blocks, w.spool), w.next, bid);
  }

  /** No leak and no overlap: every slot of the file has an owner exactly when it is allocated, and only one. */
  lemma SlotOwner(w: World, pages: set<nat>, g: nat)
    requires Holds(w, {}, {}, pages)
    ensures SlotSet(w.rs, g) && g < SLOTS_PER_AMAP * |w.rs| <==>
      || g in Meta(|w.rs|)
      || (exists p | p in pages :: g in Slots(p, PAGE_SIZE))
      || (exists b | b in w.c.blocks :: g in Slots(w.c.blocks[b].ib, Size(w.c.blocks[b])))
    ensures forall b, b' | b in w.c.blocks && b' in w.c.blocks && b != b' ::
      w.c.blocks[b].ib + Size(w.c.blocks[b]) <= w.c.blocks[b'].ib ||
        w.c.blocks[b'].ib + Size(w.c.blocks[b']) <= w.c.blocks[b].ib
  {
    hide Own, Edges, LiveRefs;
    assert g in Used(w.rs) <==> SlotSet(w.rs, g) && g < SLOTS_PER_AMAP * |w.rs|;
    assert g in BlockSlots(w.c.blocks) <==>
      exists b | b in w.c.blocks :: g in Slots(w.c.blocks[b].ib, Size(w.c.blocks[b]));
    assert g in PageSlots(pages) <==> exists p | p in pages :: g in Slots(p, PAGE_SIZE);
    hide Used, Meta, Slots;
    forall b, b' | b in w.c.blocks && b' in w.c.blocks && b != b'
      ensures w.c.blocks[b].ib + Size(w.c.blocks[b]) <= w.c.blocks[b'].ib ||
        w.c.blocks[b'].ib + Size(w.c.blocks[b']) <= w.c.blocks[b].ib
    {
      DisjointExtents(w.c.blocks[b].ib, Size(w.c.blocks[b]), w.c.blocks[b'].ib, Size(w.c.blocks[b']));
    }
  }
}
