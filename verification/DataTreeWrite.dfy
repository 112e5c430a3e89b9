/** Building data trees and the transaction around it (xblock.go, tx.go). */
module DataTreeBuilder {
  import opened Common
  import opened Geometry
  import opened Blocks
  import opened Allocation
  import opened Catalog
  import opened NodeDatabase
  import opened DataTrees

  /** Blocks were added; the old ones keep extent and payload, nodes and opaque counts are the same. Identifiers that
      were distinct with the internal bit cleared stay so. */
  ghost predicate Grew(w: World, w': World) {
    && w'.c.nodes == w.c.nodes && w'.c.oref == w.c.oref && w.next <= w'.next
    && Kept(w.c.blocks, w.spool, w'.c.blocks, w'.spool)
    && (StripDistinct(w.c.blocks) ==> StripDistinct(w'.c.blocks))
  }

  lemma GrewTwice(w: World, w': World, w'': World)
    requires Grew(w, w') && Grew(w', w'')
    ensures Grew(w, w'')
  {
    forall b | b in w.c.blocks
      ensures w''.c.blocks[b].(refs := 0) == w.c.blocks[b].(refs := 0) && b in w'.c.blocks
      ensures w.c.blocks[b].ib == w'.c.blocks[b].ib
    {
      KeptPayload(w.c.blocks, w.spool, w'.c.blocks, w'.spool, b);
      assert w'.c.blocks[b].(refs := 0) == w.c.blocks[b].(refs := 0);
    }
  }

  lemma GrewCounts(w: World, w': World)
    requires OnlyCounts(w, w')
    ensures Grew(w, w')
  {
    forall b | b in w.c.blocks
      ensures b in w'.c.blocks && w'.c.blocks[b].(refs := 0) == w.c.blocks[b].(refs := 0)
    {
      assert b in w'.c.blocks;
    }
  }

  /** Distinct live blocks start at distinct offsets. */
  lemma OtherOffset(w: World, pages: set<nat>, b: nat, b': nat)
    requires Space(w.rs, w.c.blocks, pages) && b in w.c.blocks && b' in w.c.blocks && b != b'
    ensures w.c.blocks[b].ib != w.c.blocks[b'].ib
  {
    var x, y := w.c.blocks[b].ib, w.c.blocks[b'].ib;
    assert SlotNumber(x) in Slots(x, Size(w.c.blocks[b])) && SlotNumber(y) in Slots(y, Size(w.c.blocks[b']));
  }

  function Written(w: World, e: BBTEntry, body: Body): World {
    w.(spool := w.spool[e.ib := Stored(e.bid, body)])
  }

  /** Writing the payload of a block that had none: nothing else changes, its references become owed. */
  lemma WrittenEdges(w: World, pages: set<nat>, e: BBTEntry, body: Body)
    requires Space(w.rs, w.c.blocks, pages) && e.bid in w.c.blocks && w.c.blocks[e.bid] == e && e.ib !in w.spool
    ensures var w' := Written(w, e, body);
      && Payload(w'.c.blocks, w'.spool, e.bid) == Ok(body)
      && KidsOf(w'.c.blocks, w'.spool, e.bid) == (if IsInternal(e.bid) then Kids(body) else [])
      && forall b | b in w.c.blocks && b != e.bid ::
           KidsOf(w'.c.blocks, w'.spool, b) == KidsOf(w.c.blocks, w.spool, b)
           && w.c.blocks[b].ib != e.ib
  {
    forall b | b in w.c.blocks && b != e.bid
      ensures w.c.blocks[b].ib != e.ib
    {
      OtherOffset(w, pages, b, e.bid);
    }
  }

  lemma EdgesWritten(w: World, pages: set<nat>, e: BBTEntry, body: Body)
    requires Space(w.rs, w.c.blocks, pages) && e.bid in w.c.blocks && w.c.blocks[e.bid] == e && e.ib !in w.spool
    ensures var w' := Written(w, e, body);
      && (IsInternal(e.bid) ==>
          Edges(w'.c.blocks, w'.spool) == Edges(w.c.blocks, w.spool) + KidEdges(e.bid, Kids(body), 0))
      && (IsInternal(e.bid) ==> Edges(w.c.blocks, w.spool) !! KidEdges(e.bid, Kids(body), 0))
      && (!IsInternal(e.bid) ==> Edges(w'.c.blocks, w'.spool) == Edges(w.c.blocks, w.spool))
  {
    hide Space;
    WrittenEdges(w, pages, e, body);
    var w' := Written(w, e, body);
    assert KidsOf(w.c.blocks, w.spool, e.bid) == [];
  }

  lemma BuildingStart(w: World, pages: set<nat>, e: BBTEntry, body: Body)
    requires Holds(w, {}, {}, pages) && e.bid in w.c.blocks && w.c.blocks[e.bid] == e && e.ib !in w.spool
    ensures IsInternal(e.bid) ==> Building(Written(w, e, body), KidEdges(e.bid, Kids(body), 0), pages)
    ensures !IsInternal(e.bid) ==> Holds(Written(w, e, body), {}, {}, pages)
  {
    EdgesWritten(w, pages, e, body);
    hide Own, Space, Edges, Used, Meta, KidEdges;
    var w' := Written(w, e, body);
    assert Edges(w.c.blocks, w.spool) + {} == Edges(w.c.blocks, w.spool);
    if IsInternal(e.bid) {
      assert Edges(w'.c.blocks, w'.spool) - KidEdges(e.bid, Kids(body), 0) == Edges(w.c.blocks, w.spool);
    }
  }

  lemma BuildingEnd(w: World, pages: set<nat>)
    requires Building(w, {}, pages)
    ensures Holds(w, {}, {}, pages)
  {
    hide Own, Space, Edges, Used, Meta;
    assert Edges(w.c.blocks, w.spool) - {} == Edges(w.c.blocks, w.spool) + {};
  }

  lemma GrewWritten(w: World, w1: World, pages: set<nat>, e: BBTEntry, body: Body)
    requires Registered(w, w1, e) && Space(w1.rs, w1.c.blocks, pages) && e.ib !in w1.spool
    requires StripDistinct(w.c.blocks) ==> StripDistinct(w1.c.blocks)
    ensures Grew(w, Written(w1, e, body))
    ensures Payload(w1.c.blocks, Written(w1, e, body).spool, e.bid) == Ok(body)
  {
    hide Allocated, StripDistinct;
    WrittenEdges(w1, pages, e, body);
    hide Space;
    forall b | b in w.c.blocks
      ensures w.c.blocks[b].ib != e.ib
    {
      assert w1.c.blocks[b] == w.c.blocks[b];
    }
  }

  /** One data block with its payload. */
  method PutDataBlock(n: NDB, data: seq<byte>) returns (r: Result<BBTEntry>)
    requires n.Valid()
    modifies n`blocks, n`nextBlock, n.store`regions, n.store`spool, n.store`lastAllocAMap, n.store`bidNextB
    ensures n.Valid()
    ensures r.Ok? <==> |data| <= MAX_DATA_CB && old(n.nextBlock) + 4 < U64
    ensures r.Ok? ==> Grew(old(n.W()), n.W()) && n.nextBlock == old(n.nextBlock) + 4
    ensures r.Ok? ==> n.blocks.Keys == old(n.blocks.Keys) + {r.value.bid}
    ensures r.Ok? ==> var e := r.value;
      && e.bid == old(n.nextBlock) && e.bid in n.blocks && n.blocks[e.bid] == e && e.cb == |data|
      && Payload(n.blocks, n.store.spool, e.bid) == Ok(Data(data))
      && !IsInternal(e.bid) && e.bid != 0 && !HasReserved(e.bid)
  {
    hide Own, Space, Edges, LiveRefs, Used, Meta, Grew, Registered, Written, Payload, StripDistinct;
    ghost var pages := PageSet(n.livePages);
    NextAligned(n.W(), pages);
    FreshBid(n.W(), pages, n.nextBlock);
    var e := n.AllocBlock(|data|, false);
    if e.Err? {
      return e;
    }
    ghost var w1 := n.W();
    IssuedStripDistinct(old(n.W()), w1, pages, e.value);
    GrewWritten(old(n.W()), w1, pages, e.value, Data(data));
    ExtentOf(w1, pages, e.value.bid);
    BuildingStart(w1, pages, e.value, Data(data));
    var put := n.PutPayload(e.value, Data(data));
    assert n.W() == Written(w1, e.value, Data(data)) by {
      WrittenIs(w1, e.value, Data(data));
    }
    return e;
  }

  lemma WrittenIs(w: World, e: BBTEntry, body: Body)
    ensures Written(w, e, body) == World(w.c, w.next, w.rs, w.spool[e.ib := Stored(e.bid, body)])
  {
  }

  lemma ExtentOf(w: World, pages: set<nat>, bid: nat)
    requires Holds(w, {}, {}, pages) && bid in w.c.blocks
    ensures InRegion(|w.rs|, w.c.blocks[bid].ib, Size(w.c.blocks[bid]))
    ensures w.c.blocks[bid].ib + Size(w.c.blocks[bid]) <= AMapRegionEnd(|w.rs| - 1)
    ensures Meta(|w.rs|) <= Used(w.rs)
  {
    hide Own, Edges, LiveRefs, Used, Meta;
  }

  /** One internal block over existing blocks: extent, payload, then one recorded reference per child. */
  method PutInternal(n: NDB, body: Body) returns (r: Result<BBTEntry>)
    requires n.Valid() && body.CB() <= MAX_DATA_CB
    requires forall k | k in Kids(body) :: k.bid != 0 && k.bid in n.blocks
    modifies n`blocks, n`nextBlock, n`dataTreeRefs, n`subnodeRefs
    modifies n.store`regions, n.store`spool, n.store`lastAllocAMap, n.store`bidNextB
    ensures r.Ok? <==> old(n.nextBlock) + 4 < U64
    ensures r.Ok? ==> n.Valid() && Grew(old(n.W()), n.W()) && n.nextBlock == old(n.nextBlock) + 4
    ensures r.Ok? ==> n.blocks.Keys == old(n.blocks.Keys) + {r.value.bid}
    ensures r.Ok? ==> var e := r.value;
      && e.bid == MakeInternal(old(n.nextBlock)) && old(n.nextBlock) < e.bid < n.nextBlock
      && e.bid in n.blocks && IsInternal(e.bid) && !HasReserved(e.bid)
      && Payload(n.blocks, n.store.spool, e.bid) == Ok(body)
  {
    hide Own, Space, Edges, LiveRefs, Used, Meta, Grew, Registered, Written, Payload, KidEdges, StripDistinct;
    ghost var pages := PageSet(n.livePages);
    NextAligned(n.W(), pages);
    FreshBid(n.W(), pages, n.nextBlock);
    FreshBid(n.W(), pages, MakeInternal(n.nextBlock));
    var alloced := n.AllocBlock(body.CB(), true);
    if alloced.Err? {
      return alloced;
    }
    var e := alloced.value;
    var kids := Kids(body);
    ghost var w1 := n.W();
    IssuedStripDistinct(old(n.W()), w1, pages, e);
    GrewWritten(old(n.W()), w1, pages, e, body);
    ExtentOf(w1, pages, e.bid);
    BuildingStart(w1, pages, e, body);
    var put := n.PutPayload(e, body);
    ghost var w2 := n.W();
    assert w2 == Written(w1, e, body) by {
      WrittenIs(w1, e, body);
    }
    KeptKids(old(n.W()), w2, kids);
    GrewSelf(w2);
    for i := 0 to |kids|
      invariant Building(n.W(), KidEdges(e.bid, kids, i), pages) && Grew(w2, n.W())
      invariant n.nextBlock == w2.next && n.blocks.Keys == w2.c.blocks.Keys && n.store.spool == w2.spool
      invariant n.livePages == old(n.livePages) && n.nextBlock == n.store.bidNextB
    {
      ghost var before := n.W();
      assert kids[i] in kids;
      NextKid(e.bid, kids, i);
      var added := n.AddExtra(kids[i], Edge(e.bid, i, kids[i]), KidEdges(e.bid, kids, i + 1));
      GrewCounts(before, n.W());
      GrewTwice(w2, before, n.W());
    }
    NoKid(e.bid, kids);
    BuildingEnd(n.W(), pages);
    GrewTwice(old(n.W()), w2, n.W());
    WrittenLive(w1, w2, e, body);
    GrewPayload(w2, n.W(), e.bid);
    return Ok(e);
  }

  /** One XBLOCK or XXBLOCK over existing blocks. */
  method PutExtended(n: NDB, level: nat, total: nat, bids: seq<nat>) returns (r: Result<BBTEntry>)
    requires n.Valid() && XBlockOk(Extended(level, total, bids)) && forall b | b in bids :: b in n.blocks
    modifies n`blocks, n`nextBlock, n`dataTreeRefs, n`subnodeRefs
    modifies n.store`regions, n.store`spool, n.store`lastAllocAMap, n.store`bidNextB
    ensures r.Ok? <==> old(n.nextBlock) + 4 < U64
    ensures r.Ok? ==> n.Valid() && Grew(old(n.W()), n.W()) && n.nextBlock == old(n.nextBlock) + 4
    ensures r.Ok? ==> n.blocks.Keys == old(n.blocks.Keys) + {r.value.bid}
    ensures r.Ok? ==> var e := r.value;
      && e.bid == MakeInternal(old(n.nextBlock)) && old(n.nextBlock) < e.bid < n.nextBlock && !HasReserved(e.bid)
      && HoldsExtended(n.blocks, n.store.spool, e.bid, level)
      && Payload(n.blocks, n.store.spool, e.bid) == Ok(Extended(level, total, bids))
  {
    hide Holds, Grew, Payload;
    r := PutInternal(n, Extended(level, total, bids));
    if r.Ok? {
      ExtendedHere(n.blocks, n.store.spool, r.value.bid, Extended(level, total, bids));
    }
  }

  lemma NextKid(parent: nat, kids: seq<Ref>, i: nat)
    requires i < |kids|
    ensures KidEdges(parent, kids, i) == KidEdges(parent, kids, i + 1) + {Edge(parent, i, kids[i])}
    ensures Edge(parent, i, kids[i]) !in KidEdges(parent, kids, i + 1)
  {
  }

  lemma NoKid(parent: nat, kids: seq<Ref>)
    ensures KidEdges(parent, kids, |kids|) == {}
  {
  }

  lemma KeptKids(w: World, w': World, kids: seq<Ref>)
    requires Grew(w, w') && forall k | k in kids :: k.bid in w.c.blocks
    ensures forall k | k in kids :: k.bid in w'.c.blocks
  {
  }

  lemma GrewSelf(w: World)
    ensures Grew(w, w)
  {
  }

  lemma WrittenLive(w1: World, w2: World, e: BBTEntry, body: Body)
    requires w2 == Written(w1, e, body) && e.bid in w1.c.blocks
    ensures e.bid in w2.c.blocks
  {
  }

  lemma GrewPayload(w: World, w': World, bid: nat)
    requires Grew(w, w') && bid in w.c.blocks
    ensures bid in w'.c.blocks && Payload(w'.c.blocks, w'.spool, bid) == Payload(w.c.blocks, w.spool, bid)
    ensures w'.c.blocks[bid].cb == w.c.blocks[bid].cb
  {
    KeptPayload(w.c.blocks, w.spool, w'.c.blocks, w'.spool, bid);
  }

  lemma ExtendedHere(blocks: Catalogue, spool: Spool, bid: nat, body: Body)
    requires bid in blocks && IsInternal(bid) && Payload(blocks, spool, bid) == Ok(body) && XBlockOk(body)
    ensures HoldsExtended(blocks, spool, bid, body.level)
  {
  }

  // ---------- the tree over given leaves ----------

  function BidsOf(es: seq<BBTEntry>): seq<nat> {
    seq(|es|, i requires 0 <= i < |es| => es[i].bid)
  }

  /** Live data blocks, each once. */
  ghost predicate LeafList(blocks: Catalogue, es: seq<BBTEntry>) {
    && DistinctBids(BidsOf(es))
    && forall i | 0 <= i < |es| :: es[i].bid in blocks && blocks[es[i].bid].cb == es[i].cb
         && !IsInternal(es[i].bid) && es[i].bid != 0 && !HasReserved(es[i].bid)
  }

  function XBlocksFor(leaves: nat): nat {
    (leaves + MAX_XBLOCK_ENTRIES - 1) / MAX_XBLOCK_ENTRIES
  }

  lemma LeafChunk(blocks: Catalogue, es: seq<BBTEntry>, lo: nat, hi: nat, total: nat)
    requires LeafList(blocks, es) && lo < hi <= |es| && hi - lo <= MAX_XBLOCK_ENTRIES
    ensures XBlockOk(Extended(1, total, BidsOf(es[lo..hi])))
    ensures forall b | b in BidsOf(es[lo..hi]) :: b in blocks
  {
    forall i, j | 0 <= i < j < hi - lo
      ensures BidsOf(es[lo..hi])[i] != BidsOf(es[lo..hi])[j]
    {
      assert BidsOf(es)[lo + i] != BidsOf(es)[lo + j];
    }
  }

  lemma LeafListKept(w: World, w': World, es: seq<BBTEntry>)
    requires Grew(w, w') && LeafList(w.c.blocks, es)
    ensures LeafList(w'.c.blocks, es)
  {
    forall i | 0 <= i < |es|
      ensures es[i].bid in w'.c.blocks && w'.c.blocks[es[i].bid].cb == es[i].cb
    {
      KeptPayload(w.c.blocks, w.spool, w'.c.blocks, w'.spool, es[i].bid);
    }
  }

  /** XBLOCKs written so far: level 1, in rising order, and together they list the first `done` leaves. */
  ghost predicate MidList(w: World, xb: seq<BBTEntry>, es: seq<BBTEntry>, done: nat)
    requires done <= |es|
  {
    && (forall i | 0 <= i < |xb| :: HoldsExtended(w.c.blocks, w.spool, xb[i].bid, 1) && 0 < xb[i].bid < w.next
          && !HasReserved(xb[i].bid))
    && (forall i, j | 0 <= i < j < |xb| :: xb[i].bid < xb[j].bid)
    && FlatMids(w.c.blocks, w.spool, BidsOf(xb)) == BidsOf(es)[..done]
  }

  lemma MidListKept(w: World, w': World, xb: seq<BBTEntry>, es: seq<BBTEntry>, done: nat)
    requires done <= |es| && MidList(w, xb, es, done) && Grew(w, w')
    ensures MidList(w', xb, es, done)
  {
    forall i | 0 <= i < |xb|
      ensures HoldsExtended(w'.c.blocks, w'.spool, xb[i].bid, 1)
    {
      KeptExtended(w.c.blocks, w.spool, w'.c.blocks, w'.spool, xb[i].bid, 1);
    }
    forall m | m in BidsOf(xb)
      ensures m in w.c.blocks
    {
      var i :| 0 <= i < |xb| && BidsOf(xb)[i] == m;
      assert HoldsExtended(w.c.blocks, w.spool, xb[i].bid, 1);
    }
    hide HoldsExtended;
    KeptFlat(w.c.blocks, w.spool, w'.c.blocks, w'.spool, BidsOf(xb));
  }

  lemma MidListAppend(w: World, xb: seq<BBTEntry>, e: BBTEntry, es: seq<BBTEntry>, lo: nat, hi: nat)
    requires lo <= hi <= |es| && MidList(w, xb, es, lo)
    requires HoldsExtended(w.c.blocks, w.spool, e.bid, 1) && 0 < e.bid < w.next && !HasReserved(e.bid)
    requires forall i | 0 <= i < |xb| :: xb[i].bid < e.bid
    requires Bids(w.c.blocks, w.spool, e.bid) == BidsOf(es[lo..hi])
    ensures MidList(w, xb + [e], es, hi)
  {
    hide HoldsExtended, FlatMids, Bids;
    FlatAppend(w.c.blocks, w.spool, BidsOf(xb), e.bid);
    assert BidsOf(xb + [e]) == BidsOf(xb) + [e.bid];
    assert BidsOf(es)[..lo] + BidsOf(es[lo..hi]) == BidsOf(es)[..hi];
  }

  /** A complete tree over `es`: accepted by the walker, with exactly these leaves. */
  ghost predicate TreeOver(w: World, root: nat, es: seq<BBTEntry>) {
    && TreeOk(w.c.blocks, w.spool, root) && Leaves(w.c.blocks, w.spool, root) == BidsOf(es)
  }

  lemma SingleTree(w: World, es: seq<BBTEntry>)
    requires |es| == 1 && LeafList(w.c.blocks, es)
    ensures TreeOver(w, es[0].bid, es)
  {
    assert BidsOf(es) == [es[0].bid];
    var root := es[0].bid;
    assert Mids(w.c.blocks, w.spool, root) == [] && Direct(w.c.blocks, w.spool, root) == [root];
    assert Leaves(w.c.blocks, w.spool, root) == [root];
    assert SumCB(w.c.blocks, [root]) == SumCB(w.c.blocks, [root][..0]) + CBOf(w.c.blocks, root);
  }

  lemma XTree(w: World, es: seq<BBTEntry>, root: nat, total: nat)
    requires LeafList(w.c.blocks, es) && HoldsExtended(w.c.blocks, w.spool, root, 1)
    requires Payload(w.c.blocks, w.spool, root) == Ok(Extended(1, total, BidsOf(es)))
    requires total == SumCB(w.c.blocks, BidsOf(es))
    ensures TreeOver(w, root, es)
  {
    hide XBlockOk, DistinctBids;
    assert Leaves(w.c.blocks, w.spool, root) == BidsOf(es);
    forall b | b in BidsOf(es)
      ensures b in w.c.blocks && !IsInternal(b)
    {
      var i :| 0 <= i < |es| && BidsOf(es)[i] == b;
    }
    assert Mids(w.c.blocks, w.spool, root) == [];
    assert DistinctBids([]) by {
      NoBids();
    }
  }

  lemma NoBids()
    ensures DistinctBids([])
  {
  }

  lemma XXShape(blocks: Catalogue, spool: Spool, root: nat, total: nat, mids: seq<nat>)
    requires HoldsExtended(blocks, spool, root, 2) && Payload(blocks, spool, root) == Ok(Extended(2, total, mids))
    ensures StartOk(blocks, spool, root) && Total(blocks, spool, root) == total
    ensures Mids(blocks, spool, root) == mids && Direct(blocks, spool, root) == []
    ensures Leaves(blocks, spool, root) == FlatMids(blocks, spool, mids)
  {
    hide XBlockOk;
  }

  lemma XXTree(w: World, xb: seq<BBTEntry>, es: seq<BBTEntry>, root: nat, total: nat)
    requires LeafList(w.c.blocks, es) && MidList(w, xb, es, |es|) && HoldsExtended(w.c.blocks, w.spool, root, 2)
    requires Payload(w.c.blocks, w.spool, root) == Ok(Extended(2, total, BidsOf(xb)))
    requires forall i | 0 <= i < |xb| :: xb[i].bid < root
    requires total == SumCB(w.c.blocks, BidsOf(es))
    ensures TreeOver(w, root, es)
  {
    hide XBlockOk, DistinctBids, Mids, Direct, Total, StartOk, FlatMids, Leaves, Bids, SumCB, Payload, HoldsExtended;
    assert DistinctBids(BidsOf(xb)) by {
      MidBidsDistinct(w, xb, es);
    }
    XXShape(w.c.blocks, w.spool, root, total, BidsOf(xb));
    assert BidsOf(es)[..|es|] == BidsOf(es);
    forall b | b in BidsOf(es)
      ensures b in w.c.blocks && !IsInternal(b)
    {
      var i :| 0 <= i < |es| && BidsOf(es)[i] == b;
    }
    forall m | m in BidsOf(xb)
      ensures m != root && HoldsExtended(w.c.blocks, w.spool, m, 1)
    {
      var i :| 0 <= i < |xb| && BidsOf(xb)[i] == m;
    }
  }

  lemma MidBidsDistinct(w: World, xb: seq<BBTEntry>, es: seq<BBTEntry>)
    requires MidList(w, xb, es, |es|)
    ensures DistinctBids(BidsOf(xb))
    ensures 0 < |xb| <= MAX_XBLOCK_ENTRIES ==> XBlockOk(Extended(2, 0, BidsOf(xb)))
    ensures forall m | m in BidsOf(xb) :: m in w.c.blocks && 0 < m < w.next
  {
    hide FlatMids;
    forall i | 0 <= i < |xb|
      ensures IsInternal(BidsOf(xb)[i]) && BidsOf(xb)[i] in w.c.blocks
    {
      ExtendedLive(w.c.blocks, w.spool, xb[i].bid, 1);
    }
    hide HoldsExtended;
    assert forall i, j | 0 <= i < j < |xb| :: BidsOf(xb)[i] < BidsOf(xb)[j];
  }

  method SumLeafCB(es: seq<BBTEntry>, ghost blocks: Catalogue) returns (sub: nat)
    requires forall i | 0 <= i < |es| :: es[i].bid in blocks && blocks[es[i].bid].cb == es[i].cb
    ensures sub == SumCB(blocks, BidsOf(es))
  {
    sub := 0;
    for i := 0 to |es|
      invariant sub == SumCB(blocks, BidsOf(es[..i]))
    {
      assert BidsOf(es[..i + 1])[..i] == BidsOf(es[..i]);
      sub := sub + es[i].cb;
    }
    assert es[..|es|] == es;
  }

  /** Every internal block that is new is the root of an acceptable tree. */
  ghost predicate NewTrees(w: World, w': World) {
    forall b | b in w'.c.blocks && b !in w.c.blocks && IsInternal(b) :: TreeOk(w'.c.blocks, w'.spool, b)
  }

  lemma NewTreesSelf(w: World)
    ensures NewTrees(w, w)
  {
    hide TreeOk;
  }

  lemma NewTreesStep(w: World, w1: World, w2: World, bid: nat)
    requires NewTrees(w, w1) && Grew(w1, w2) && w2.c.blocks.Keys == w1.c.blocks.Keys + {bid}
    requires IsInternal(bid) ==> TreeOk(w2.c.blocks, w2.spool, bid)
    ensures NewTrees(w, w2)
  {
    hide TreeOk, Kept;
    forall b | b in w2.c.blocks && b !in w.c.blocks && IsInternal(b)
      ensures TreeOk(w2.c.blocks, w2.spool, b)
    {
      if b != bid {
        KeptTree(w1.c.blocks, w1.spool, w2.c.blocks, w2.spool, b);
      }
    }
  }

  lemma NewTreesTwice(w: World, w1: World, w2: World)
    requires NewTrees(w, w1) && Grew(w1, w2) && NewTrees(w1, w2)
    ensures NewTrees(w, w2)
  {
    hide TreeOk, Kept;
    forall b | b in w2.c.blocks && b !in w.c.blocks && IsInternal(b)
      ensures TreeOk(w2.c.blocks, w2.spool, b)
    {
      if b in w1.c.blocks {
        KeptTree(w1.c.blocks, w1.spool, w2.c.blocks, w2.spool, b);
      }
    }
  }

  /** One XBLOCK over a chunk is already an acceptable tree. */
  lemma MidTree(before: World, w: World, es: seq<BBTEntry>, lo: nat, hi: nat, bid: nat, sub: nat)
    requires lo <= hi <= |es| && LeafList(before.c.blocks, es) && Grew(before, w) && LeafList(w.c.blocks, es)
    requires sub == SumCB(before.c.blocks, BidsOf(es[lo..hi])) && HoldsExtended(w.c.blocks, w.spool, bid, 1)
    requires Payload(w.c.blocks, w.spool, bid) == Ok(Extended(1, sub, BidsOf(es[lo..hi])))
    ensures TreeOk(w.c.blocks, w.spool, bid)
  {
    hide HoldsExtended, Payload, TreeOk, Grew;
    LeafListPart(before.c.blocks, es, lo, hi);
    LeafListPart(w.c.blocks, es, lo, hi);
    hide LeafList;
    LeafListSum(before, w, es[lo..hi]);
    XTree(w, es[lo..hi], bid, sub);
  }

  lemma LeafListPart(blocks: Catalogue, es: seq<BBTEntry>, lo: nat, hi: nat)
    requires lo <= hi <= |es| && LeafList(blocks, es)
    ensures LeafList(blocks, es[lo..hi])
  {
    assert forall k | 0 <= k < hi - lo :: es[lo..hi][k] == es[lo + k] && BidsOf(es[lo..hi])[k] == BidsOf(es)[lo + k];
  }

  /** XBLOCKs of at most 1021 leaves, then one XXBLOCK when there are several. */
  method BuildDataTree(n: NDB, es: seq<BBTEntry>, total: nat) returns (r: Result<BBTEntry>)
    requires n.Valid() && |es| > 0 && LeafList(n.blocks, es) && total == SumCB(n.blocks, BidsOf(es))
    modifies n`blocks, n`nextBlock, n`dataTreeRefs, n`subnodeRefs
    modifies n.store`regions, n.store`spool, n.store`lastAllocAMap, n.store`bidNextB
    ensures r.Ok? ==>
      n.Valid() && Grew(old(n.W()), n.W()) && TreeOver(n.W(), r.value.bid, es) && NewTrees(old(n.W()), n.W())
    ensures r.Ok? ==> r.value.bid != 0 && r.value.bid in n.blocks && !HasReserved(r.value.bid)
    ensures r.Ok? ==> n.nextBlock <= old(n.nextBlock) + 4 * (XBlocksFor(|es|) + 1)
    ensures old(n.nextBlock) + 4 * (XBlocksFor(|es|) + 1) < U64 && |es| <= MAX_XBLOCK_ENTRIES * MAX_XBLOCK_ENTRIES ==>
      r.Ok?
  {
    hide Own, Space, Edges, LiveRefs, Used, Meta, Grew, Payload, LeafList, MidList, Holds, XBlockOk, HoldsExtended;
    hide TreeOver, Bids, NewTrees, TreeOk, SumCB, HasReserved, IsInternal, MakeInternal, DistinctBids, Kept;
    NewTreesSelf(n.W());
    if |es| == 1 {
      SingleTree(n.W(), es);
      GrewSelf(n.W());
      LeafAt(n.blocks, es, 0);
      return Ok(es[0]);
    }
    var xb: seq<BBTEntry> := [];
    var i := 0;
    EmptyMidList(n.W(), es);
    GrewSelf(n.W());
    while i < |es|
      invariant i <= |es| && n.Valid() && Grew(old(n.W()), n.W()) && NewTrees(old(n.W()), n.W())
      invariant LeafList(n.blocks, es) && MidList(n.W(), xb, es, i)
      invariant i == |es| || i == MAX_XBLOCK_ENTRIES * |xb|
      invariant |xb| == XBlocksFor(i)
      invariant n.nextBlock == old(n.nextBlock) + 4 * |xb|
      invariant |xb| == 1 && i == |es| ==>
        Payload(n.blocks, n.store.spool, xb[0].bid) == Ok(Extended(1, SumCB(n.blocks, BidsOf(es)), BidsOf(es)))
      decreases |es| - i
    {
      var end := if i + MAX_XBLOCK_ENTRIES > |es| then |es| else i + MAX_XBLOCK_ENTRIES;
      var chunk := es[i..end];
      LeafChunk(n.blocks, es, i, end, 0);
      ChunkLeaves(n.blocks, es, i, end);
      var sub := SumLeafCB(chunk, n.blocks);
      LeafChunk(n.blocks, es, i, end, sub);
      ghost var before := n.W();
      var blk := PutExtended(n, 1, sub, BidsOf(chunk));
      if blk.Err? {
        return blk;
      }
      LeafListKept(before, n.W(), es);
      GrewTwice(old(n.W()), before, n.W());
      MidListKept(before, n.W(), xb, es, i);
      MidStep(before, n.W(), xb, blk.value, es, i, end, sub);
      MidTree(before, n.W(), es, i, end, blk.value.bid, sub);
      NewTreesStep(old(n.W()), before, n.W(), blk.value.bid);
      if xb == [] && end == |es| {
        assert es[0..|es|] == es;
        LeafListSum(before, n.W(), es);
      }
      xb := xb + [blk.value];
      i := end;
    }
    if |xb| == 1 {
      MidAt(n.W(), xb, es, 0);
      LeafListSum(old(n.W()), n.W(), es);
      XTree(n.W(), es, xb[0].bid, total);
      return Ok(xb[0]);
    }
    if |xb| > MAX_XBLOCK_ENTRIES {
      return Err(LimitExceeded);
    }
    MidBidsDistinct(n.W(), xb, es);
    XBlockTotal(BidsOf(xb), total);
    ghost var before := n.W();
    r := PutExtended(n, 2, total, BidsOf(xb));
    if r.Ok? {
      MidsBelow(before, xb, es);
      LeafListKept(before, n.W(), es);
      MidListKept(before, n.W(), xb, es, |es|);
      GrewTwice(old(n.W()), before, n.W());
      LeafListSum(old(n.W()), n.W(), es);
      XXTree(n.W(), xb, es, r.value.bid, total);
      TreeOverOk(n.W(), r.value.bid, es);
      NewTreesStep(old(n.W()), before, n.W(), r.value.bid);
      ExtendedLive(n.blocks, n.store.spool, r.value.bid, 2);
    }
  }

  lemma TreeOverOk(w: World, root: nat, es: seq<BBTEntry>)
    requires TreeOver(w, root, es)
    ensures TreeOk(w.c.blocks, w.spool, root)
  {
    hide TreeOk;
  }

  lemma XBlockTotal(bids: seq<nat>, total: nat)
    requires XBlockOk(Extended(2, 0, bids))
    ensures XBlockOk(Extended(2, total, bids))
  {
  }

  lemma MidsBelow(w: World, xb: seq<BBTEntry>, es: seq<BBTEntry>)
    requires MidList(w, xb, es, |es|)
    ensures forall i | 0 <= i < |xb| :: xb[i].bid < w.next
  {
  }

  lemma MidAt(w: World, xb: seq<BBTEntry>, es: seq<BBTEntry>, i: nat)
    requires MidList(w, xb, es, |es|) && i < |xb|
    ensures HoldsExtended(w.c.blocks, w.spool, xb[i].bid, 1) && xb[i].bid in w.c.blocks && xb[i].bid > 0 &&
      !HasReserved(xb[i].bid)
  {
  }

  lemma LeafAt(blocks: Catalogue, es: seq<BBTEntry>, i: nat)
    requires LeafList(blocks, es) && i < |es|
    ensures es[i].bid in blocks && es[i].bid != 0 && !HasReserved(es[i].bid)
  {
  }

  lemma ChunkLeaves(blocks: Catalogue, es: seq<BBTEntry>, lo: nat, hi: nat)
    requires LeafList(blocks, es) && lo <= hi <= |es|
    ensures forall k | 0 <= k < hi - lo ::
      es[lo..hi][k].bid in blocks && blocks[es[lo..hi][k].bid].cb == es[lo..hi][k].cb
  {
  }

  lemma EmptyMidList(w: World, es: seq<BBTEntry>)
    ensures MidList(w, [], es, 0)
  {
  }

  lemma LeafListSum(w: World, w': World, es: seq<BBTEntry>)
    requires Grew(w, w') && LeafList(w.c.blocks, es)
    ensures SumCB(w'.c.blocks, BidsOf(es)) == SumCB(w.c.blocks, BidsOf(es))
  {
    forall b | b in BidsOf(es)
      ensures b in w.c.blocks
    {
      var i :| 0 <= i < |es| && BidsOf(es)[i] == b;
    }
    KeptLeaves(w.c.blocks, w.spool, w'.c.blocks, w'.spool, BidsOf(es));
  }

  lemma MidStep(before: World, w: World, xb: seq<BBTEntry>, e: BBTEntry, es: seq<BBTEntry>, lo: nat, hi: nat, sub: nat)
    requires lo <= hi <= |es| && MidList(before, xb, es, lo) && MidList(w, xb, es, lo)
    requires before.next < e.bid < w.next && e.bid == MakeInternal(before.next)
    requires HoldsExtended(w.c.blocks, w.spool, e.bid, 1)
    requires Payload(w.c.blocks, w.spool, e.bid) == Ok(Extended(1, sub, BidsOf(es[lo..hi])))
    ensures MidList(w, xb + [e], es, hi)
  {
    hide HoldsExtended, FlatMids;
    MidListAppend(w, xb, e, es, lo, hi);
  }

  // ---------- the whole byte string ----------

  function LeafCount(size: nat): nat {
    (size + MAX_DATA_CB - 1) / MAX_DATA_CB
  }

  /** A tree that reads back as `data`. */
  ghost predicate Stores(w: World, root: nat, data: seq<byte>) {
    && ReadableTree(w.c.blocks, w.spool, root)
    && LeafBytes(w.c.blocks, w.spool, Leaves(w.c.blocks, w.spool, root)) == data
    && Total(w.c.blocks, w.spool, root) == |data|
  }

  /** Leaves written so far: in rising order, holding exactly the bytes `data`. */
  ghost predicate Streamed(w: World, es: seq<BBTEntry>, data: seq<byte>) {
    && (forall i, j | 0 <= i < j < |es| :: es[i].bid < es[j].bid)
    && (forall i | 0 <= i < |es| :: es[i].bid in w.c.blocks && w.c.blocks[es[i].bid].cb == es[i].cb
          && 0 < es[i].bid < w.next && !IsInternal(es[i].bid) && !HasReserved(es[i].bid)
          && ReadableBlock(w.c.blocks, w.spool, es[i].bid))
    && LeafBytes(w.c.blocks, w.spool, BidsOf(es)) == data
  }

  lemma StreamedList(w: World, es: seq<BBTEntry>, data: seq<byte>)
    requires Streamed(w, es, data)
    ensures LeafList(w.c.blocks, es) && SumCB(w.c.blocks, BidsOf(es)) == |data|
    ensures forall b | b in BidsOf(es) :: b in w.c.blocks && ReadableBlock(w.c.blocks, w.spool, b)
  {
    hide ReadableBlock;
    BytesCount(w.c.blocks, w.spool, BidsOf(es));
  }

  lemma StreamedStep(w: World, w': World, es: seq<BBTEntry>, data: seq<byte>, e: BBTEntry, chunk: seq<byte>)
    requires Streamed(w, es, data) && Grew(w, w')
    requires e.bid == w.next < w'.next && e.bid in w'.c.blocks && w'.c.blocks[e.bid] == e && e.cb == |chunk|
    requires Payload(w'.c.blocks, w'.spool, e.bid) == Ok(Data(chunk))
    requires !IsInternal(e.bid) && e.bid != 0 && !HasReserved(e.bid)
    ensures Streamed(w', es + [e], data + chunk)
  {
    StreamedList(w, es, data);
    KeptLeaves(w.c.blocks, w.spool, w'.c.blocks, w'.spool, BidsOf(es));
    forall i | 0 <= i < |es|
      ensures es[i].bid in w'.c.blocks && w'.c.blocks[es[i].bid].cb == es[i].cb
      ensures ReadableBlock(w'.c.blocks, w'.spool, es[i].bid)
    {
      KeptPayload(w.c.blocks, w.spool, w'.c.blocks, w'.spool, es[i].bid);
    }
    hide Kept;
    assert BidsOf(es + [e]) == BidsOf(es) + [e.bid];
    assert BidsOf(es + [e])[..|es|] == BidsOf(es);
  }

  lemma StreamedStores(w: World, w': World, es: seq<BBTEntry>, data: seq<byte>, root: nat)
    requires Streamed(w, es, data) && Grew(w, w') && TreeOver(w', root, es)
    ensures Stores(w', root, data)
  {
    hide Streamed, TreeOk, Leaves, Total;
    StreamedList(w, es, data);
    StreamedBytes(w, es, data);
    KeptLeaves(w.c.blocks, w.spool, w'.c.blocks, w'.spool, BidsOf(es));
    forall b | b in BidsOf(es)
      ensures ReadableBlock(w'.c.blocks, w'.spool, b)
    {
      KeptPayload(w.c.blocks, w.spool, w'.c.blocks, w'.spool, b);
    }
    ReadableTotal(w'.c.blocks, w'.spool, root);
  }

  lemma StreamedBytes(w: World, es: seq<BBTEntry>, data: seq<byte>)
    requires Streamed(w, es, data)
    ensures LeafBytes(w.c.blocks, w.spool, BidsOf(es)) == data
  {
  }

  lemma EmptyTree(w: World)
    ensures Stores(w, 0, [])
  {
    assert Leaves(w.c.blocks, w.spool, 0) == [];
  }

  lemma EmptyStream(w: World)
    ensures Streamed(w, [], [])
  {
    assert BidsOf([]) == [];
  }

  /** The root of a stored non-empty string. */
  const NO_BLOCK: BBTEntry := BBTEntry(0, 0, 0, 0)

  /** Cuts the input into full leaves and builds the tree; a positive `expected` must be the length. */
  method StreamDataTree(n: NDB, input: seq<byte>, expected: nat) returns (r: Result<BBTEntry>)
    requires n.Valid()
    modifies n`blocks, n`nextBlock, n`dataTreeRefs, n`subnodeRefs
    modifies n.store`regions, n.store`spool, n.store`lastAllocAMap, n.store`bidNextB
    ensures r.Ok? ==>
      n.Valid() && Grew(old(n.W()), n.W()) && Stores(n.W(), r.value.bid, input) && NewTrees(old(n.W()), n.W())
    ensures r.Ok? ==> |input| < U32 && (expected == 0 || expected == |input|) && (r.value.bid == 0 <==> input == [])
    ensures r.Ok? ==>
      !HasReserved(r.value.bid) &&
      n.nextBlock <= old(n.nextBlock) + 4 * (LeafCount(|input|) + XBlocksFor(LeafCount(|input|)) + 1)
    ensures && |input| < U32 && (expected == 0 || expected == |input|)
            && old(n.nextBlock) + 4 * (LeafCount(|input|) + XBlocksFor(LeafCount(|input|)) + 1) < U64
            ==> r.Ok?
  {
    hide Own, Space, Edges, LiveRefs, Used, Meta, Grew, Payload, LeafList, Holds, Streamed, TreeOver, Stores, NewTrees,
         TreeOk;
    NewTreesSelf(n.W());
    if expected >= U32 {
      return Err(LimitExceeded);
    }
    var es: seq<BBTEntry> := [];
    var pos := 0;
    EmptyStream(n.W());
    GrewSelf(n.W());
    while pos < |input|
      invariant pos <= |input| && n.Valid() && Grew(old(n.W()), n.W()) && NewTrees(old(n.W()), n.W())
      invariant Streamed(n.W(), es, input[..pos])
      invariant pos == |input| || pos == MAX_DATA_CB * |es|
      invariant |es| == LeafCount(pos) && n.nextBlock == old(n.nextBlock) + 4 * |es|
      invariant es == [] ==> pos == 0
      invariant pos > 0 ==> pos < U32
      decreases |input| - pos
    {
      var end := if pos + MAX_DATA_CB > |input| then |input| else pos + MAX_DATA_CB;
      ghost var before := n.W();
      var e := PutDataBlock(n, input[pos..end]);
      if e.Err? {
        return e;
      }
      StreamedStep(before, n.W(), es, input[..pos], e.value, input[pos..end]);
      GrewTwice(old(n.W()), before, n.W());
      NewTreesStep(old(n.W()), before, n.W(), e.value.bid);
      assert input[..pos] + input[pos..end] == input[..end];
      es := es + [e.value];
      pos := end;
      if pos >= U32 {
        return Err(LimitExceeded);
      }
    }
    if expected > 0 && pos != expected {
      return Err(InvalidArg);
    }
    assert input[..pos] == input;
    if |es| == 0 {
      EmptyTree(n.W());
      return Ok(NO_BLOCK);
    }
    ghost var before := n.W();
    StreamedList(before, es, input);
    r := BuildDataTree(n, es, pos);
    if r.Ok? {
      StreamedStores(before, n.W(), es, input, r.value.bid);
      NewTreesTwice(old(n.W()), before, n.W());
      GrewTwice(old(n.W()), before, n.W());
    }
  }

  /** capture: the cloneable value state of store and catalog (state.go). */
  datatype Snapshot = Snapshot(
    c: Cat, nextBlock: nat, livePages: seq<nat>,
    regions: seq<Bitmap>, spool: map<nat, Stored>, lastAllocAMap: nat, bidNextP: nat, bidNextB: nat,
    nbtRoot: BREF, bbtRoot: BREF)

  function Capture(n: NDB): Snapshot
    reads n, n.store
  {
    Snapshot(Cat(n.nodes, n.blocks, n.dataTreeRefs, n.subnodeRefs, n.opaqueRefs), n.nextBlock, n.livePages,
             n.store.regions, n.store.spool, n.store.lastAllocAMap, n.store.bidNextP, n.store.bidNextB,
             n.store.nbtRoot, n.store.bbtRoot)
  }

  method Restore(n: NDB, snap: Snapshot)
    modifies n, n.store
    ensures Capture(n) == snap
  {
    n.nodes, n.blocks := snap.c.nodes, snap.c.blocks;
    n.dataTreeRefs, n.subnodeRefs, n.opaqueRefs := snap.c.dref, snap.c.sref, snap.c.oref;
    n.nextBlock, n.livePages := snap.nextBlock, snap.livePages;
    n.store.regions, n.store.spool, n.store.lastAllocAMap := snap.regions, snap.spool, snap.lastAllocAMap;
    n.store.bidNextP, n.store.bidNextB := snap.bidNextP, snap.bidNextB;
    n.store.nbtRoot, n.store.bbtRoot := snap.nbtRoot, snap.bbtRoot;
  }

  /** PutDataTree: all or nothing. What it stores reads back, and every older tree is as before. */
  method PutDataTree(n: NDB, input: seq<byte>, expected: nat) returns (r: Result<BBTEntry>)
    requires n.Valid()
    modifies n, n.store
    ensures n.Valid() && n.store.bidNextP == old(n.store.bidNextP)
    ensures r.Ok? ==> Grew(old(n.W()), n.W()) && Stores(n.W(), r.value.bid, input) && NewTrees(old(n.W()), n.W())
    ensures r.Ok? ==> |input| < U32
    ensures r.Ok? ==> n.nextBlock <= old(n.nextBlock) + 4 * (LeafCount(|input|) + XBlocksFor(LeafCount(|input|)) + 1)
    ensures r.Err? ==> Capture(n) == old(Capture(n))
    ensures && |input| < U32 && (expected == 0 || expected == |input|)
            && old(n.nextBlock) + 4 * (LeafCount(|input|) + XBlocksFor(LeafCount(|input|)) + 1) < U64
            ==> r.Ok?
  {
    hide Holds, Grew, Stores, NewTrees;
    var snap := Capture(n);
    r := StreamDataTree(n, input, expected);
    if r.Err? {
      Restore(n, snap);
      assert n.C() == snap.c;
      assert n.W() == old(n.W());
    }
  }

  /** Every older tree still stores what it stored. */
  lemma GrewStores(w: World, w': World, root: nat, data: seq<byte>)
    requires Grew(w, w') && Stores(w, root, data)
    ensures Stores(w', root, data)
  {
    hide TreeOk, Leaves, Total;
    KeptTree(w.c.blocks, w.spool, w'.c.blocks, w'.spool, root);
    forall b | b in Leaves(w.c.blocks, w.spool, root)
      ensures ReadableBlock(w'.c.blocks, w'.spool, b)
    {
      LeafLive(w.c.blocks, w.spool, root, b);
      KeptPayload(w.c.blocks, w.spool, w'.c.blocks, w'.spool, b);
    }
  }

  lemma LeafLive(blocks: Catalogue, spool: Spool, root: nat, b: nat)
    requires TreeOk(blocks, spool, root) && b in Leaves(blocks, spool, root)
    ensures b in blocks
  {
    hide Leaves, Total, StartOk, Mids;
  }

  /** The 32-bit length limit comes first: no byte string short of it ever needs an XXXBLOCK. */
  lemma NoXXXBlock(size: nat)
    requires size < U32
    ensures XBlocksFor(LeafCount(size)) <= 515 <= MAX_XBLOCK_ENTRIES
  {
  }

  /** Reading back through the walker, with any buffer size, gives the stored bytes. */
  method RoundTrip(n: NDB, input: seq<byte>, max: nat) returns (r: Result<seq<byte>>)
    requires n.Valid() && max > 0
    modifies n, n.store
    ensures && |input| < U32
            && old(n.nextBlock) + 4 * (LeafCount(|input|) + XBlocksFor(LeafCount(|input|)) + 1) < U64
            ==> r == Ok(input)
  {
    hide Holds, Grew, TreeOk, Leaves, Total;
    var root := PutDataTree(n, input, |input|);
    if root.Err? {
      return Err(root.error);
    }
    r := ReadAll(n, root.value.bid, max);
  }
}
