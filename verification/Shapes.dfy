/** Payload trees stay well formed over every run: built ones, and those left after reclamation (xblock.go,
    subnode.go, ndb.go). */
module PayloadShapes {
  import opened Common
  import opened Geometry
  import opened Blocks
  import opened Allocation
  import opened Catalog
  import opened NodeDatabase
  import opened DataTrees
  import opened DataTreeBuilder
  import opened Subnodes

  /** An internal block that holds a tree payload is the root of a well-formed tree. */
  ghost predicate Shaped(blocks: Catalogue, spool: Spool, bid: nat) {
    if !IsInternal(bid) then true
    else match Payload(blocks, spool, bid)
      case Ok(Extended(_, _, _)) => TreeOk(blocks, spool, bid)
      case Ok(SubLeaf(_)) => SubShape(blocks, spool, bid)
      case Ok(SubIndex(_)) => SubShape(blocks, spool, bid)
      case _ => true
  }

  ghost predicate Shapely(w: World) {
    forall b | b in w.c.blocks :: Shaped(w.c.blocks, w.spool, b)
  }

  lemma ShapedTree(blocks: Catalogue, spool: Spool, bid: nat)
    requires IsInternal(bid) && (TreeOk(blocks, spool, bid) || SubShape(blocks, spool, bid))
    ensures Shaped(blocks, spool, bid)
  {
    hide SLOk, SIOk, LeafShape, Mids, Leaves, DistinctBids;
    if SubShape(blocks, spool, bid) {
      LeafOrIndex(blocks, spool, bid);
    }
  }

  lemma KeptShaped(blocks: Catalogue, spool: Spool, blocks': Catalogue, spool': Spool, bid: nat)
    requires Kept(blocks, spool, blocks', spool') && bid in blocks && Shaped(blocks, spool, bid)
    ensures Shaped(blocks', spool', bid)
  {
    KeptPayload(blocks, spool, blocks', spool', bid);
    hide Kept, TreeOk, SubShape;
    if TreeOk(blocks, spool, bid) {
      KeptTree(blocks, spool, blocks', spool', bid);
    }
    if SubShape(blocks, spool, bid) {
      KeptShape(blocks, spool, blocks', spool', bid);
    }
  }

  /** PutDataTree and PutSubnodeTree keep every payload tree well formed. */
  lemma GrewShapely(w: World, w': World)
    requires Shapely(w) && Grew(w, w') && (NewTrees(w, w') || NewShapes(w, w'))
    ensures Shapely(w')
  {
    hide Shaped, Kept, TreeOk, SubShape;
    forall b | b in w'.c.blocks
      ensures Shaped(w'.c.blocks, w'.spool, b)
    {
      if b in w.c.blocks {
        KeptShaped(w.c.blocks, w.spool, w'.c.blocks, w'.spool, b);
      } else if IsInternal(b) {
        ShapedTree(w'.c.blocks, w'.spool, b);
      } else {
        ExternalShaped(w'.c.blocks, w'.spool, b);
      }
    }
  }

  /** What InspectXBlock and InspectSubnodeBlock check of a payload by itself. */
  ghost predicate Inspects(body: Body) {
    match body
    case Data(_) => true
    case Extended(_, _, _) => XBlockOk(body)
    case SubLeaf(entries) => SLOk(entries)
    case SubIndex(kids) => SIOk(kids)
  }

  /** Where payload trees are whole, treeChildRefs never meets a payload its inspections refuse. That stays so while
      blocks are dropped, one after the other. */
  lemma DropsInspect(w: World, w': World, bid: nat)
    requires Shapely(w) && SameExtents(w.c.blocks, w'.c.blocks) && SamePayloads(w'.c.blocks, w.spool, w'.spool)
    requires bid in w'.c.blocks && IsInternal(bid) && Payload(w'.c.blocks, w'.spool, bid).Ok?
    ensures Inspects(Payload(w'.c.blocks, w'.spool, bid).value)
  {
    KeptPayload(w'.c.blocks, w'.spool, w.c.blocks, w.spool, bid);
    hide XBlockOk, SLOk, SIOk, LeafShape, KidOk, Mids, Leaves, DistinctBids;
    assert Shaped(w.c.blocks, w.spool, bid);
  }

  lemma ExternalShaped(blocks: Catalogue, spool: Spool, bid: nat)
    requires !IsInternal(bid)
    ensures Shaped(blocks, spool, bid)
  {
  }

  // ---------- fewer blocks ----------

  /** Every payload reference of a live block names a live block. */
  ghost predicate ClosedKids(blocks: Catalogue, spool: Spool) {
    && (forall b | b in blocks :: blocks[b].bid == b)
    && forall b, k | b in blocks && k in KidsOf(blocks, spool, b) :: k.bid in blocks
  }

  lemma HoldsClosedKids(w: World, pages: set<nat>)
    requires Holds(w, {}, {}, pages)
    ensures ClosedKids(w.c.blocks, w.spool)
  {
    hide Own, Space, LiveRefs, Used, Meta, KidsOf;
    var E := Edges(w.c.blocks, w.spool);
    assert E + {} == E;
    OwnClosed(w.c, E, w.next);
    forall b, k | b in w.c.blocks && k in KidsOf(w.c.blocks, w.spool, b)
      ensures k.bid in w.c.blocks
    {
      var i :| 0 <= i < |KidsOf(w.c.blocks, w.spool, b)| && KidsOf(w.c.blocks, w.spool, b)[i] == k;
      assert Edge(b, i, k) in E;
    }
  }

  lemma OwnClosed(c: Cat, E: set<Edge>, next: nat)
    requires Own(c, E, {}, next)
    ensures (forall e | e in E :: e.target.bid in c.blocks) && forall b | b in c.blocks :: c.blocks[b].bid == b
  {
    hide LiveRefs, Counted, RefCounts;
  }

  lemma BidsLive(blocks: Catalogue, spool: Spool, bid: nat, level: nat)
    requires ClosedKids(blocks, spool) && HoldsExtended(blocks, spool, bid, level)
    ensures forall c | c in Bids(blocks, spool, bid) :: c in blocks
  {
    hide XBlockOk;
    var bids := Bids(blocks, spool, bid);
    forall c | c in bids
      ensures c in blocks
    {
      var i :| 0 <= i < |bids| && bids[i] == c;
      assert KidsOf(blocks, spool, bid)[i] == Ref(DataTree, c);
      assert Ref(DataTree, c) in KidsOf(blocks, spool, bid);
    }
  }

  lemma {:induction false} FlatLive(blocks: Catalogue, spool: Spool, mids: seq<nat>)
    requires ClosedKids(blocks, spool) && forall m | m in mids :: HoldsExtended(blocks, spool, m, 1)
    ensures forall b | b in FlatMids(blocks, spool, mids) :: b in blocks
  {
    hide ClosedKids, HoldsExtended;
    if mids != [] {
      BidsLive(blocks, spool, mids[0], 1);
      FlatLive(blocks, spool, mids[1..]);
    }
  }

  lemma BackExtended(blocks: Catalogue, spool: Spool, blocks': Catalogue, spool': Spool, bid: nat, level: nat)
    requires Kept(blocks, spool, blocks', spool') && bid in blocks && HoldsExtended(blocks', spool', bid, level)
    ensures HoldsExtended(blocks, spool, bid, level)
  {
    hide XBlockOk;
    KeptPayload(blocks, spool, blocks', spool', bid);
  }

  lemma BackTop(blocks: Catalogue, spool: Spool, blocks': Catalogue, spool': Spool, root: nat)
    requires Kept(blocks, spool, blocks', spool') && ClosedKids(blocks, spool)
    requires StartOk(blocks', spool', root) && (root == 0 || root in blocks)
    ensures StartOk(blocks, spool, root)
    ensures forall m | m in Mids(blocks, spool, root) :: m in blocks
    ensures forall b | b in Direct(blocks, spool, root) :: b in blocks
  {
    hide XBlockOk;
    if root != 0 {
      KeptPayload(blocks, spool, blocks', spool', root);
      if HoldsExtended(blocks, spool, root, 1) {
        BidsLive(blocks, spool, root, 1);
      } else if HoldsExtended(blocks, spool, root, 2) {
        BidsLive(blocks, spool, root, 2);
      }
    }
  }

  /** A tree whose root survives survives whole, because what it references survives. */
  lemma TreeBack(blocks: Catalogue, spool: Spool, blocks': Catalogue, spool': Spool, root: nat)
    requires Kept(blocks, spool, blocks', spool') && ClosedKids(blocks, spool)
    requires TreeOk(blocks', spool', root) && (root == 0 || root in blocks)
    ensures TreeOk(blocks, spool, root)
  {
    hide XBlockOk, DistinctBids, Kept, StartOk, Mids, Direct, Total, HoldsExtended, ClosedKids;
    BackTop(blocks, spool, blocks', spool', root);
    KeptTop(blocks, spool, blocks', spool', root);
    var mids := Mids(blocks, spool, root);
    forall m | m in mids
      ensures HoldsExtended(blocks, spool, m, 1)
    {
      BackExtended(blocks, spool, blocks', spool', m, 1);
    }
    KeptFlat(blocks, spool, blocks', spool', mids);
    FlatLive(blocks, spool, mids);
    KeptLeaves(blocks, spool, blocks', spool', Leaves(blocks, spool, root));
  }

  lemma {:induction false} ShapeBack(blocks: Catalogue, spool: Spool, blocks': Catalogue, spool': Spool, bid: nat)
    requires Kept(blocks, spool, blocks', spool') && ClosedKids(blocks, spool)
    requires SubShape(blocks', spool', bid) && bid in blocks
    ensures SubShape(blocks, spool, bid)
    decreases bid, 1
  {
    hide Kept, TreeOk, SLOk, SIOk, ClosedKids;
    KeptPayload(blocks, spool, blocks', spool', bid);
    LeafOrIndex(blocks', spool', bid);
    LeafOrIndex(blocks, spool, bid);
    if IsLeafBlock(blocks, spool, bid) {
      LeafBack(blocks, spool, blocks', spool', bid, bid);
    } else {
      var kids := IndexKids(blocks, spool, bid);
      IndexLive(blocks, spool, bid);
      forall k | k in kids
        ensures KidOk(blocks, spool, k)
      {
        KidBack(blocks, spool, blocks', spool', k);
      }
    }
  }

  lemma IndexLive(blocks: Catalogue, spool: Spool, bid: nat)
    requires ClosedKids(blocks, spool) && IsIndexBlock(blocks, spool, bid)
    ensures forall k | k in IndexKids(blocks, spool, bid) :: k.ref in blocks
  {
    hide SIOk;
    var kids := IndexKids(blocks, spool, bid);
    forall k | k in kids
      ensures k.ref in blocks
    {
      var i :| 0 <= i < |kids| && kids[i] == k;
      assert KidsOf(blocks, spool, bid)[i] == Ref(Subnode, k.ref);
      assert Ref(Subnode, k.ref) in KidsOf(blocks, spool, bid);
    }
  }

  lemma LeafLiveKids(blocks: Catalogue, spool: Spool, bid: nat)
    requires ClosedKids(blocks, spool) && IsLeafBlock(blocks, spool, bid)
    ensures forall e | e in LeafEntries(blocks, spool, bid) ::
      (e.data != 0 ==> e.data in blocks) && (e.sub != 0 ==> e.sub in blocks)
  {
    LeafKids(blocks, spool, bid);
    hide IsLeafBlock, AllLeafRefs, LeafEntries, KidsOf, SLOk;
    forall e | e in LeafEntries(blocks, spool, bid)
      ensures (e.data != 0 ==> e.data in blocks) && (e.sub != 0 ==> e.sub in blocks)
    {
      SubRefListed(LeafEntries(blocks, spool, bid), e);
      assert e.data != 0 ==> Ref(Subnode, e.data) in KidsOf(blocks, spool, bid);
      assert e.sub != 0 ==> Ref(Subnode, e.sub) in KidsOf(blocks, spool, bid);
    }
  }

  lemma LeafBack(blocks: Catalogue, spool: Spool, blocks': Catalogue, spool': Spool, bid: nat, bound: nat)
    requires Kept(blocks, spool, blocks', spool') && ClosedKids(blocks, spool) && IsLeafBlock(blocks, spool, bid)
    requires LeafShape(blocks', spool', LeafEntries(blocks, spool, bid), bound)
    ensures LeafShape(blocks, spool, LeafEntries(blocks, spool, bid), bound)
    decreases bound, 0
  {
    hide Kept, TreeOk, SubShape, ClosedKids, IsLeafBlock, LeafEntries;
    LeafLiveKids(blocks, spool, bid);
    forall e | e in LeafEntries(blocks, spool, bid)
      ensures e.data != 0 ==> TreeOk(blocks, spool, e.data)
      ensures e.sub != 0 ==> SubShape(blocks, spool, e.sub)
    {
      if e.data != 0 {
        TreeBack(blocks, spool, blocks', spool', e.data);
      }
      if e.sub != 0 {
        ShapeBack(blocks, spool, blocks', spool', e.sub);
      }
    }
  }

  lemma KidBack(blocks: Catalogue, spool: Spool, blocks': Catalogue, spool': Spool, k: SIEntry)
    requires Kept(blocks, spool, blocks', spool') && ClosedKids(blocks, spool) && KidOk(blocks', spool', k) &&
      k.ref in blocks
    ensures KidOk(blocks, spool, k)
    decreases k.ref, 1
  {
    hide Kept, LeafShape, SLOk, ClosedKids;
    KeptPayload(blocks, spool, blocks', spool', k.ref);
    LeafBack(blocks, spool, blocks', spool', k.ref, k.ref);
  }

  /** PutNode, DeleteNode, reclamation and Encode only lose whole trees: the rest stays well formed. */
  lemma FewerShapely(w: World, w': World, pages: set<nat>)
    requires Shapely(w) && Holds(w', {}, {}, pages)
    requires SameExtents(w.c.blocks, w'.c.blocks) && SamePayloads(w'.c.blocks, w.spool, w'.spool)
    ensures Shapely(w')
  {
    hide Holds, Shaped, TreeOk, SubShape, ClosedKids;
    HoldsClosedKids(w', pages);
    KeptBack(w, w');
    hide Kept, SameExtents, SamePayloads;
    forall b | b in w'.c.blocks
      ensures Shaped(w'.c.blocks, w'.spool, b)
    {
      ShapedBack(w'.c.blocks, w'.spool, w.c.blocks, w.spool, b);
    }
  }

  lemma KeptBack(w: World, w': World)
    requires SameExtents(w.c.blocks, w'.c.blocks) && SamePayloads(w'.c.blocks, w.spool, w'.spool)
    ensures Kept(w'.c.blocks, w'.spool, w.c.blocks, w.spool) && forall b | b in w'.c.blocks :: b in w.c.blocks
  {
  }

  lemma ShapedBack(blocks: Catalogue, spool: Spool, blocks': Catalogue, spool': Spool, bid: nat)
    requires Kept(blocks, spool, blocks', spool') && ClosedKids(blocks, spool) && bid in blocks &&
      Shaped(blocks', spool', bid)
    ensures Shaped(blocks, spool, bid)
  {
    KeptPayload(blocks, spool, blocks', spool', bid);
    hide Kept, TreeOk, SubShape, ClosedKids;
    if TreeOk(blocks', spool', bid) {
      TreeBack(blocks, spool, blocks', spool', bid);
    }
    if SubShape(blocks', spool', bid) {
      ShapeBack(blocks, spool, blocks', spool', bid);
    }
  }
}
