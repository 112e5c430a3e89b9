/** Runs on which a commit or a reopening is refused (ndb.go, subnode.go). */
module FailingRuns {
  import opened Common
  import opened Geometry
  import opened Blocks
  import opened Allocation
  import opened Catalog
  import opened Survival
  import opened NodeDatabase
  import opened Ownership
  import opened DataTrees
  import opened DataTreeBuilder
  import opened Subnodes
  import opened BTree
  import opened PagePlan
  import opened TreeEncoder
  import opened CatalogEncoder
  import opened PayloadShapes
  import opened Reopening
  import StoreRuns

  // ---------- a page meets its identifier ----------

  function PageOf(slot: nat): nat {
    FIRST_AMAP + BYTES_PER_SLOT * slot
  }

  /** In a one-region file the next page is the first aligned group of eight free slots. */
  lemma NextPage(rs: seq<Bitmap>, slot: nat)
    requires |rs| == 1 && slot % SLOTS_PER_PAGE == 0 && slot + SLOTS_PER_PAGE <= SLOTS_PER_AMAP
    requires forall g | slot <= g < slot + SLOTS_PER_PAGE :: g !in Used(rs)
    requires forall s: nat | s % SLOTS_PER_PAGE == 0 && s < slot :: s in Used(rs)
    ensures FirstPage(rs) == PageOf(slot) && |PageTaken(rs)| == 1
    ensures Used(PageTaken(rs)) == Used(rs) + Slots(PageOf(slot), PAGE_SIZE)
  {
    var ib := PageOf(slot);
    assert (ib - FIRST_AMAP) / AMAP_COVERAGE == 0 && (ib - FIRST_AMAP) % AMAP_COVERAGE / BYTES_PER_SLOT == slot;
    assert forall g: nat | g < SLOTS_PER_AMAP :: g in Used(rs) <==> rs[0][g];
    assert Window(rs, 0, slot, SLOTS_PER_PAGE);
    forall j: nat, s: nat | s % SLOTS_PER_PAGE == 0 && Before(j, s, 0, slot)
      ensures !Window(rs, j, s, SLOTS_PER_PAGE)
    {
      assert s in Used(rs) && rs[0][s];
    }
    assert LowestAt(rs, ib, SLOTS_PER_PAGE, SLOTS_PER_PAGE);
    assert !NoWindow(rs, SLOTS_PER_PAGE, SLOTS_PER_PAGE);
    assert Markable(rs, ib, PAGE_SIZE, true);
    PlannedPage(rs, ib);
    MarkedUsed(rs, ib, PAGE_SIZE, true);
  }

  /** The slots in use besides map pages. */
  ghost predicate InUse(rs: seq<Bitmap>, pages: set<nat>) {
    |rs| == 1 && (forall p | p in pages :: p >= FIRST_AMAP) && Used(rs) == Meta(1) + PageSlots(pages)
  }

  lemma FirstSlots(g: nat)
    ensures g in Meta(1) <==> g < 16
  {
  }

  lemma SlotsOf(slot: nat, g: nat)
    ensures g in Slots(PageOf(slot), PAGE_SIZE) <==> slot <= g < slot + SLOTS_PER_PAGE
  {
  }

  /** Pages 16 and 24 are free, or 32 and 40 are after those two. */
  lemma NextTwo(rs: seq<Bitmap>, pages: set<nat>, odd: bool)
    requires InUse(rs, pages)
    requires odd ==> pages == {PageOf(16), PageOf(24)}
    requires !odd ==> pages == {} || pages == {PageOf(32), PageOf(40)}
    ensures var slot := if odd then 32 else 16;
      && NthPage(rs, 0) == PageOf(slot) && NthPage(rs, 1) == PageOf(slot + 8) && |After(rs, 2)| == 1
  {
    hide FirstPage, PageTaken, Used, Meta;
    var slot := if odd then 32 else 16;
    forall g: nat
      ensures g in Meta(1) <==> g < 16
      ensures g in Slots(PageOf(16), PAGE_SIZE) <==> 16 <= g < 24
      ensures g in Slots(PageOf(24), PAGE_SIZE) <==> 24 <= g < 32
      ensures g in Slots(PageOf(32), PAGE_SIZE) <==> 32 <= g < 40
      ensures g in Slots(PageOf(40), PAGE_SIZE) <==> 40 <= g < 48
    {
      FirstSlots(g);
      SlotsOf(16, g);
      SlotsOf(24, g);
      SlotsOf(32, g);
      SlotsOf(40, g);
    }
    hide Slots;
    forall g
      ensures g in PageSlots(pages) <==> exists p | p in pages :: g in Slots(p, PAGE_SIZE)
    {
    }
    NextPage(rs, slot);
    NextPage(PageTaken(rs), slot + 8);
    assert After(rs, 0) == rs && After(rs, 1) == PageTaken(rs) && After(rs, 2) == PageTaken(PageTaken(rs));
  }

  /** Where the two trees of an empty catalog stand after `i` commits. */
  ghost predicate LiveAfter(livePages: seq<nat>, i: nat) {
    if i == 0 then livePages == []
    else if i % 2 == 1 then livePages == [PageOf(16), PageOf(24)]
    else livePages == [PageOf(32), PageOf(40)]
  }

  /** An empty database after `i` commits. */
  ghost predicate Empty(n: NDB, i: nat)
    reads n, n.store
  {
    && n.Valid() && n.nodes == map[] && n.blocks == map[] && |n.store.regions| == 1
    && n.store.bidNextP == 5 + 2 * i && LiveAfter(n.livePages, i)
  }

  lemma EmptyInUse(w: World, livePages: seq<nat>, i: nat)
    requires Holds(w, {}, {}, PageSet(livePages)) && w.c.blocks == map[] && |w.rs| == 1 && LiveAfter(livePages, i)
    ensures InUse(w.rs, PageSet(livePages))
    ensures i % 2 == 1 ==> PageSet(livePages) == {PageOf(16), PageOf(24)}
    ensures i % 2 == 0 ==> PageSet(livePages) == {} || PageSet(livePages) == {PageOf(32), PageOf(40)}
  {
    hide Own, Edges, LiveRefs, Used, Meta, Slots;
    assert BlockSlots(w.c.blocks) == {};
  }

  /** With an empty catalog the second page of the commit after `i` others meets its identifier exactly when i is
      9981. */
  lemma EmptyClash(rs: seq<Bitmap>, pages: set<nat>, i: nat)
    requires InUse(rs, pages) && i <= 9981
    requires i % 2 == 1 ==> pages == {PageOf(16), PageOf(24)}
    requires i % 2 == 0 ==> pages == {} || pages == {PageOf(32), PageOf(40)}
    ensures Clash(rs, 5 + 2 * i, 2) <==> i == 9981
    ensures var slot := if i % 2 == 1 then 32 else 16;
      NthPage(rs, 0) == PageOf(slot) && NthPage(rs, 1) == PageOf(slot + 8) && |After(rs, 2)| == 1
  {
    NextTwo(rs, pages, i % 2 == 1);
    hide NthPage, InUse, After;
    assert ClashAt(rs, 5 + 2 * i, 1) <==> i == 9981;
  }

  lemma NoOrphans(w: World)
    requires w.c.blocks == map[]
    ensures Orphans(w.c) == {}
  {
  }

  /** One commit of an empty database. */
  method CommitEmpty(n: NDB, ghost i: nat) returns (ok: bool)
    requires Empty(n, i) && i <= 9981
    modifies n, n.store
    ensures ok <==> i != 9981
    ensures ok ==> Empty(n, i + 1)
    ensures !ok ==>
      && n.Valid() && n.nodes == map[] && n.blocks == map[] && n.livePages == old(n.livePages)
      && n.store.bidNextP >= old(n.store.bidNextP)
  {
    hide Holds, Reclaimed, Shrunk, Mirrors, Accounted, PagesIssued, Clash, InUse, NthPage, After, Orphans, Survivors;
    EmptyInUse(n.W(), n.livePages, i);
    EmptyClash(n.store.regions, PageSet(n.livePages), i);
    NoOrphans(n.W());
    ghost var w := n.W();
    var r;
    ghost var ns, bs, start;
    r, ns, bs, start := Encode(n);
    StillEmpty(w, n.W());
    ok := r.Ok?;
  }

  lemma StillEmpty(w: World, w': World)
    requires Reclaimed(w, w') && w.c.blocks == map[] && w.c.nodes == map[]
    ensures w'.c.blocks == map[] && w'.c.nodes == map[] && CatalogPages(w'.c) == 2
  {
    hide Orphans, SamePayloads;
  }

  /** 9981 commits of an empty database succeed, and the next one fails: its BBT page at 0x4E00 would have the
      identifier 0x4E00. */
  method CommitsClash() returns (n: NDB, ok: bool)
    ensures !ok && n.Valid() && n.nodes == map[] && n.blocks == map[]
    ensures n.store.bidNextP >= 0x4DFF && n.livePages == [PageOf(16), PageOf(24)]
  {
    n := new NDB();
    var i := 0;
    while i < 9981
      invariant i <= 9981 && Empty(n, i) && fresh(n) && fresh(n.store)
    {
      hide Empty;
      ok := CommitEmpty(n, i);
      i := i + 1;
    }
    ok := CommitEmpty(n, i);
  }

  // ---------- a count is truncated ----------

  /** A catalog this small with identifiers this low never meets a page. */
  lemma SmallCatalog(c: Cat, rs: seq<Bitmap>)
    requires |c.nodes| <= U16 && |c.blocks| <= 20
    ensures !Clash(rs, FIRST_ALLOC_BID + 1, CatalogPages(c))
  {
    hide TreePages, PagesAbove, Clash;
    FewPages(|c.nodes|);
    FewPages(|c.blocks|);
    LowIdentifiers(rs, FIRST_ALLOC_BID + 1, CatalogPages(c));
  }

  /** The nodes 1 to `i` all have the block `root` for their data, and it is the only block. */
  ghost predicate Shares(n: NDB, root: nat, i: nat)
    reads n, n.store
  {
    && n.Valid() && n.store.bidNextP == FIRST_ALLOC_BID + 1 && !IsInternal(root) && root != 0
    && n.blocks.Keys == {root} && Get(n.opaqueRefs, root) == 0 && OneData(n.nodes, root, i)
  }

  ghost predicate OneData(nodes: map<nat, NBTEntry>, root: nat, i: nat) {
    |nodes| == i && forall k | k in nodes :: k <= i && nodes[k].data == root && nodes[k].sub == 0
  }

  lemma OneMore(nodes: map<nat, NBTEntry>, root: nat, i: nat)
    requires OneData(nodes, root, i)
    ensures OneData(nodes[i + 1 := NBTEntry(i + 1, root, 0, 0)], root, i + 1)
  {
  }

  lemma AllPoint(nodes: map<nat, NBTEntry>, root: nat, i: nat)
    requires OneData(nodes, root, i) && root != 0
    ensures NbtRefs(nodes, root) == i
  {
    assert WithData(nodes, root) == nodes.Keys && WithSub(nodes, root) == {};
  }

  /** With one external block only the nodes count. */
  lemma SoleBlock(w: World, pages: set<nat>, root: nat)
    requires Holds(w, {}, {}, pages) && w.c.blocks.Keys == {root} && !IsInternal(root) && Get(w.c.oref, root) == 0
    ensures w.c.blocks[root].refs == (1 + NbtRefs(w.c.nodes, root)) % U16
    ensures Shapely(w)
  {
    hide NbtRefs, Space;
    var E := Edges(w.c.blocks, w.spool);
    assert E == {};
    assert Into(E, Ref(DataTree, root)) == {} && Into(E, Ref(Subnode, root)) == {};
  }

  lemma FewerKeys(w: World, w': World, root: nat)
    requires SameExtents(w.c.blocks, w'.c.blocks) && w.c.blocks.Keys == {root} && root in w'.c.blocks
    ensures w'.c.blocks.Keys == {root}
  {
  }

  /** One more node over the block. */
  method PutSharer(n: NDB, root: nat, ghost i: nat, nid: nat)
    requires Shares(n, root, i) && nid == i + 1 < U32
    modifies n, n.store
    ensures Shares(n, root, i + 1)
  {
    hide Holds, SameExtents, SamePayloads, Orphans, OneData, Survivors, HungFrom;
    ghost var w := n.W();
    OneMore(n.nodes, root, i);
    var put := n.PutNode(NBTEntry(nid, root, 0, 0));
    NodeBlocksLive(n.W(), {}, {}, PageSet(n.livePages), nid);
    FewerKeys(w, n.W(), root);
  }

  /** 65536 nodes over one block: the commit succeeds and stores a count of 1, and reopening refuses it. */
  method TruncatedRun() returns (n: NDB, encoded: bool, r: Result<NDB>)
    ensures n.Valid() && |n.nodes| == U16 && |n.blocks| == 1 && forall k | k in n.nodes :: n.nodes[k].data in n.blocks
    ensures encoded && r.Err? && !CountsCover(n.C())
  {
    hide Holds, Shapely, Reclaimed, Shrunk, Clash, Orphans, Grew, OneData, CountsCover, NoSharedVisits, Distinct,
         CatalogPages, Survivors;
    n := new NDB();
    var blk := PutDataBlock(n, [0]);
    var root := blk.value.bid;
    NoSharers(root);
    for i := 0 to U16
      invariant Shares(n, root, i) && fresh(n) && fresh(n.store)
    {
      PutSharer(n, root, i, i + 1);
    }
    SoleBlock(n.W(), PageSet(n.livePages), root);
    ghost var w := n.W();
    ghost var start;
    encoded, r, start := CommitAndReopen(n);
    StillShared(w, n.W(), start, PageSet(n.livePages), root);
    SmallCatalog(n.C(), start.rs);
  }

  lemma NoSharers(root: nat)
    ensures OneData(map[], root, 0)
  {
  }

  lemma StillShared(w: World, w': World, start: World, pages: set<nat>, root: nat)
    requires Reclaimed(w, w') && Shrunk(w, start) && start.c == w'.c && Holds(w', {}, {}, pages)
    requires w.c.blocks.Keys == {root} && OneData(w.c.nodes, root, U16) && Get(w.c.oref, root) == 0 &&
      !IsInternal(root) && root != 0
    ensures w'.c.blocks.Keys == {root} && w'.c.blocks[root].refs == 1 && !CountsCover(w'.c)
    ensures |w'.c.nodes| == U16 && |w'.c.blocks| == 1 && forall k | k in w'.c.nodes :: w'.c.nodes[k].data in w'.c.blocks
  {
    hide Holds, SameExtents, SamePayloads, Orphans;
    assert |w'.c.blocks| == |w'.c.blocks.Keys|;
    assert w.c.nodes.Keys != {};
    var k :| k in w.c.nodes;
    NodeBlocksLive(w', {}, {}, pages, k);
    FewerKeys(w, w', root);
    AllPoint(w'.c.nodes, root, U16);
    SoleBlock(w', pages, root);
  }

  // ---------- a subnode tree shares a block ----------

  /** A subnode block without references. */
  ghost predicate Bottom(blocks: Catalogue, spool: Spool, sub: nat) {
    IsLeafBlock(blocks, spool, sub) && LeafEntries(blocks, spool, sub) == [SLEntry(1, 0, 0)]
  }

  /** A subnode block of two entries with the same subnode tree. */
  ghost predicate TwoOver(blocks: Catalogue, spool: Spool, root: nat, sub: nat) {
    && IsLeafBlock(blocks, spool, root) && 0 < sub < root && |LeafEntries(blocks, spool, root)| == 2
    && forall e | e in LeafEntries(blocks, spool, root) :: e.data == 0 && e.sub == sub
  }

  lemma BottomRole(blocks: Catalogue, spool: Spool, sub: nat)
    requires Bottom(blocks, spool, sub)
    ensures SubShape(blocks, spool, sub) && DistinctBids(Visits(blocks, spool, sub))
  {
    LeafOrIndex(blocks, spool, sub);
    VisitsOf(blocks, spool, sub);
    LeafVisitsLast(blocks, spool, LeafEntries(blocks, spool, sub), sub);
    hide IsLeafBlock, LeafEntries, Visits;
    assert LeafVisits(blocks, spool, [], sub) == [];
  }

  lemma LeafListed(blocks: Catalogue, spool: Spool, bid: nat)
    requires IsLeafBlock(blocks, spool, bid)
    ensures LeafEntries(blocks, spool, bid) == Entries(blocks, spool, bid)
  {
    LeafOrIndex(blocks, spool, bid);
    hide IsLeafBlock, LeafEntries, IndexKids;
  }

  lemma SubBelow(w: World, pages: set<nat>, root: nat, sub: nat)
    requires Holds(w, {}, {}, pages) && IsLeafBlock(w.c.blocks, w.spool, root) &&
      LeafEntries(w.c.blocks, w.spool, root) != []
    requires forall e | e in LeafEntries(w.c.blocks, w.spool, root) :: e.data == 0 && e.sub == sub
    ensures sub < root
  {
    HoldsDescending(w, pages);
    hide Holds, IsLeafBlock, LeafEntries;
    LeafBounds(w.c.blocks, w.spool, root);
    assert LeafEntries(w.c.blocks, w.spool, root)[0] in LeafEntries(w.c.blocks, w.spool, root);
  }

  /** Both blocks are there, and nothing else. */
  ghost predicate Twice(w: World, root: nat, sub: nat) {
    && w.c.blocks.Keys == {root, sub} && w.c.oref == map[]
    && Bottom(w.c.blocks, w.spool, sub) && TwoOver(w.c.blocks, w.spool, root, sub)
  }

  lemma Only(es: seq<SLEntry>, e: SLEntry)
    requires multiset(es) == multiset([e])
    ensures es == [e]
  {
    assert |multiset(es)| == |es| == 1;
    assert es[0] in multiset(es);
  }

  lemma Both(es: seq<SLEntry>, sub: nat)
    requires multiset(es) == multiset([SLEntry(1, 0, sub), SLEntry(2, 0, sub)])
    ensures |es| == 2 && forall e | e in es :: e.data == 0 && e.sub == sub
  {
    assert |multiset(es)| == |es| == 2;
    forall e | e in es
      ensures e.data == 0 && e.sub == sub
    {
      assert e in multiset(es);
    }
  }

  lemma OneEntry(blocks: Catalogue, spool: Spool)
    ensures Listable(blocks, spool, [SLEntry(1, 0, 0)])
  {
  }

  lemma TwoEntries(blocks: Catalogue, spool: Spool, sub: nat)
    requires Bottom(blocks, spool, sub) && !HasReserved(sub)
    ensures Listable(blocks, spool, [SLEntry(1, 0, sub), SLEntry(2, 0, sub)])
  {
    hide Bottom, SubShape, Visits, DistinctBids, TreeOk;
    BottomRole(blocks, spool, sub);
  }

  lemma BottomKept(w: World, w': World, sub: nat)
    requires Grew(w, w') && Bottom(w.c.blocks, w.spool, sub)
    ensures Bottom(w'.c.blocks, w'.spool, sub)
  {
    hide SLOk, Kept;
    KeptPayload(w.c.blocks, w.spool, w'.c.blocks, w'.spool, sub);
  }

  /** The two trees. */
  method PutTwice(n: NDB) returns (root: nat, ghost sub: nat)
    requires n.Valid() && Shapely(n.W()) && n.C() == Cat(map[], map[], map[], map[], map[]) &&
      n.nextBlock == FIRST_ALLOC_BID
    modifies n, n.store
    ensures n.Valid() && Shapely(n.W()) && Twice(n.W(), root, sub) && n.nodes == map[]
    ensures n.store.bidNextP == old(n.store.bidNextP)
  {
    hide Holds, Shapely, Grew, NewShapes, Listable, SubShape, Entries, IsLeafBlock, Bottom, TwoOver, LeafEntries,
         Distinct;
    ghost var w0 := n.W();
    OneEntry(n.blocks, n.store.spool);
    var first := PutSubnodeTree(n, [SLEntry(1, 0, 0)]);
    ghost var w1 := n.W();
    StoreRuns.More(w0, w1);
    var s := first.value.bid;
    LeafListed(n.blocks, n.store.spool, s);
    Only(Entries(n.blocks, n.store.spool, s), SLEntry(1, 0, 0));
    BottomHere(w1, PageSet(n.livePages), s);
    TwoEntries(n.blocks, n.store.spool, s);
    var second := PutSubnodeTree(n, [SLEntry(1, 0, s), SLEntry(2, 0, s)]);
    StoreRuns.More(w1, n.W());
    root, sub := second.value.bid, s;
    LeafListed(n.blocks, n.store.spool, root);
    Both(Entries(n.blocks, n.store.spool, root), s);
    BottomKept(w1, n.W(), s);
    SameNodes(w0, w1);
    SameNodes(w1, n.W());
    SubBelow(n.W(), PageSet(n.livePages), root, s);
    TwoHere(n.blocks, n.store.spool, root, s);
  }

  lemma SameNodes(w: World, w': World)
    requires Grew(w, w')
    ensures w'.c.nodes == w.c.nodes && w'.c.oref == w.c.oref
  {
  }

  lemma TwoHere(blocks: Catalogue, spool: Spool, root: nat, sub: nat)
    requires IsLeafBlock(blocks, spool, root) && 0 < sub < root && |LeafEntries(blocks, spool, root)| == 2
    requires forall e | e in LeafEntries(blocks, spool, root) :: e.data == 0 && e.sub == sub
    ensures TwoOver(blocks, spool, root, sub)
  {
  }

  lemma BottomHere(w: World, pages: set<nat>, sub: nat)
    requires Holds(w, {}, {}, pages) && IsLeafBlock(w.c.blocks, w.spool, sub) &&
      LeafEntries(w.c.blocks, w.spool, sub) == [SLEntry(1, 0, 0)]
    ensures Bottom(w.c.blocks, w.spool, sub) && sub > 0 && !HasReserved(sub)
  {
    WorldOwn(w, pages);
    hide Holds, LiveRefs, Edges;
  }

  lemma EdgesLeft(w: World, w': World)
    requires SameExtents(w.c.blocks, w'.c.blocks) && SamePayloads(w'.c.blocks, w.spool, w'.spool)
    ensures Edges(w'.c.blocks, w'.spool) <= Edges(w.c.blocks, w.spool)
  {
    forall b | b in w'.c.blocks
      ensures KidsOf(w'.c.blocks, w'.spool, b) == KidsOf(w.c.blocks, w.spool, b)
    {
      KeptPayload(w'.c.blocks, w'.spool, w.c.blocks, w.spool, b);
    }
  }

  lemma TwoKids(blocks: Catalogue, spool: Spool, root: nat, sub: nat)
    requires TwoOver(blocks, spool, root, sub) && blocks[root].bid == root
    ensures |KidsOf(blocks, spool, root)| == 2
  {
    LeafKids(blocks, spool, root);
    var es := LeafEntries(blocks, spool, root);
    hide IsLeafBlock, LeafEntries, KidsOf;
    assert es[0] in es && es[1] in es && es[..1] == [es[0]];
    assert AllLeafRefs(es[..1]) == AllLeafRefs([]) + [Ref(Subnode, sub)] == [Ref(Subnode, sub)];
  }

  lemma NoKids(blocks: Catalogue, spool: Spool, sub: nat)
    requires Bottom(blocks, spool, sub) && blocks[sub].bid == sub
    ensures KidsOf(blocks, spool, sub) == []
  {
    LeafKids(blocks, spool, sub);
    hide IsLeafBlock, LeafEntries, KidsOf;
    assert AllLeafRefs([SLEntry(1, 0, 0)]) == AllLeafRefs([]) + [];
  }

  lemma TwoEdges(w: World, pages: set<nat>, root: nat, sub: nat)
    requires Holds(w, {}, {}, pages) && Twice(w, root, sub)
    ensures |Edges(w.c.blocks, w.spool)| <= 2
  {
    hide Holds, Own, LiveRefs, IsLeafBlock, LeafEntries, Bottom, TwoOver, KidsOf;
    WorldOwn(w, pages);
    TwoKids(w.c.blocks, w.spool, root, sub);
    NoKids(w.c.blocks, w.spool, sub);
    var kids := KidsOf(w.c.blocks, w.spool, root);
    var ends := {Edge(root, 0, kids[0]), Edge(root, 1, kids[1])};
    assert Edges(w.c.blocks, w.spool) <= ends;
    SubsetSize(Edges(w.c.blocks, w.spool), ends);
  }

  /** With few references no count is zero. */
  lemma FewRefs(w: World, pages: set<nat>)
    requires Holds(w, {}, {}, pages) && |Edges(w.c.blocks, w.spool)| <= 2 && |w.c.nodes| <= 1
    requires forall b | b in w.c.blocks :: Get(w.c.oref, b) == 0
    ensures forall b | b in w.c.blocks :: w.c.blocks[b].refs != 0
  {
    hide Holds, Edges, Own, Into, NbtRefs;
    WorldOwn(w, pages);
    var E := Edges(w.c.blocks, w.spool);
    forall b | b in w.c.blocks
      ensures w.c.blocks[b].refs != 0
    {
      OwnCounts(w.c, E, w.next, b);
      FewInto(E, Ref(DataTree, b));
      FewInto(E, Ref(Subnode, b));
      FewNodes(w.c.nodes, b);
    }
  }

  lemma FewInto(E: set<Edge>, t: Ref)
    ensures |Into(E, t)| <= |E|
  {
    SubsetSize(Into(E, t), E);
  }

  lemma FewNodes(nodes: map<nat, NBTEntry>, bid: nat)
    ensures NbtRefs(nodes, bid) <= 2 * |nodes|
  {
    SubsetSize(WithData(nodes, bid), nodes.Keys);
    SubsetSize(WithSub(nodes, bid), nodes.Keys);
  }

  lemma StillTwice(w0: World, w: World, w': World, start: World, pages0: set<nat>, pages: set<nat>, root: nat, sub: nat)
    requires Holds(w0, {}, {}, pages0) && Twice(w0, root, sub) && NodesChanged(w0, w) && |w.c.nodes| <= 1
    requires 1 in w.c.nodes && w.c.nodes[1].sub == root
    requires Reclaimed(w, w') && Shrunk(w, start) && start.c == w'.c && Holds(w', {}, {}, pages)
    ensures |w'.c.nodes| <= U16 && |w'.c.blocks| <= 20
    ensures root in w'.c.blocks && w'.c.nodes == w.c.nodes
    ensures (forall b | b in w'.c.blocks :: w'.c.blocks[b].refs != 0) && !NoSharedVisits(w'.c.blocks, w'.spool)
  {
    hide Holds, Orphans, Edges, Bottom, TwoOver, IsLeafBlock, LeafEntries;
    LostTwice(w0, w, w');
    NodeBlocksLive(w', {}, {}, pages, 1);
    RootThere(w0, root, sub);
    TwoEdges(w0, pages0, root, sub);
    EdgesLeft(w0, w');
    SubsetSize(Edges(w'.c.blocks, w'.spool), Edges(w0.c.blocks, w0.spool));
    SubsetSize(w'.c.blocks.Keys, w0.c.blocks.Keys);
    FewRefs(w', pages);
    TwoLeft(w0, w', root, sub);
  }

  lemma LostTwice(w: World, w': World, w'': World)
    requires SameExtents(w.c.blocks, w'.c.blocks) && SamePayloads(w'.c.blocks, w.spool, w'.spool)
    requires SameExtents(w'.c.blocks, w''.c.blocks) && SamePayloads(w''.c.blocks, w'.spool, w''.spool)
    ensures SameExtents(w.c.blocks, w''.c.blocks) && SamePayloads(w''.c.blocks, w.spool, w''.spool)
  {
    forall b | b in w''.c.blocks
      ensures w''.c.blocks[b].(refs := 0) == w.c.blocks[b].(refs := 0) && w''.c.blocks[b].ib == w'.c.blocks[b].ib
    {
      KeptPayload(w''.c.blocks, w''.spool, w'.c.blocks, w'.spool, b);
    }
  }

  lemma TwoLeft(w: World, w': World, root: nat, sub: nat)
    requires SameExtents(w.c.blocks, w'.c.blocks) && SamePayloads(w'.c.blocks, w.spool, w'.spool)
    requires TwoOver(w.c.blocks, w.spool, root, sub) && root in w'.c.blocks
    ensures !NoSharedVisits(w'.c.blocks, w'.spool)
  {
    KeptPayload(w'.c.blocks, w'.spool, w.c.blocks, w.spool, root);
    hide Visits, SLOk, RoleOk;
    SharedSubnodeRefused(w'.c.blocks, w'.spool, root, 0, 1);
    assert SubnodeRoot(w'.c.blocks, w'.spool, root);
  }

  /** A subnode tree, one over it with two entries that share it, and a node: all are accepted and committed, and
      reopening refuses the file. */
  method SharedRun() returns (n: NDB, encoded: bool, r: Result<NDB>)
    ensures n.Valid() && n.nodes.Keys == {1} && n.nodes[1].sub in n.blocks
    ensures encoded && r.Err? && !NoSharedVisits(n.blocks, n.store.spool)
  {
    hide Holds, Shapely, Reclaimed, Shrunk, Clash, NoSharedVisits, CountsCover, Distinct, Twice, NodesChanged,
         CatalogPages, Survivors, HungFrom;
    n := new NDB();
    StoreRuns.NothingShapely(n.W());
    var root;
    ghost var sub;
    root, sub := PutTwice(n);
    ghost var w0, pages0 := n.W(), PageSet(n.livePages);
    RootThere(w0, root, sub);
    var put := n.PutNode(NBTEntry(1, 0, root, 0));
    ghost var w := n.W();
    StoreRuns.NodesFewer(w0, w, pages0, {1});
    ghost var start;
    encoded, r, start := CommitAndReopen(n);
    StillTwice(w0, w, n.W(), start, pages0, PageSet(n.livePages), root, sub);
    SmallCatalog(n.C(), start.rs);
  }

  lemma RootThere(w: World, root: nat, sub: nat)
    requires Twice(w, root, sub)
    ensures root in w.c.blocks && root > 0
  {
  }
}
