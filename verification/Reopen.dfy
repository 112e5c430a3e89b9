/** OpenNDB: rebuilding a catalog from a committed image (ndb.go, store.go). */
module Reopening {
  import opened Common
  import opened Geometry
  import opened Blocks
  import opened Allocation
  import opened Catalog
  import opened Survival
  import opened NodeDatabase
  import opened DataTrees
  import opened Subnodes
  import opened BTree
  import opened TreeEncoder
  import opened PagePlan
  import opened CatalogEncoder
  import opened TreeChecker
  import opened PayloadShapes

  /** What a committed file says: maps, block payloads, tree pages, and the header's roots and counters. */
  datatype Disk = Disk(regions: seq<Bitmap>, spool: map<nat, Stored>, trees: Trees, bidNextP: nat, bidNextB: nat,
                       lastAMap: nat)

  /** The file is what a successful commit of catalog `w` with tree pages `livePages` wrote. */
  ghost predicate Committed(d: Disk, w: World, livePages: seq<nat>, ns: Shape, bs: Shape) {
    && Holds(w, {}, {}, PageSet(livePages)) && Orphans(w.c) == {}
    && Mirrors(d.trees, w.c, ns, bs) && Accounted(Refs(ns) + Refs(bs), livePages, []) &&
       PagesIssued(d.trees.img, d.bidNextP)
    && d.regions == w.rs && d.spool == w.spool && d.bidNextB == w.next
    && |d.regions| > 0 && d.bidNextP > FIRST_ALLOC_BID
  }

  function Typed(c: Cat, bid: nat): nat {
    Get(c.dref, bid) + Get(c.sref, bid)
  }

  /** Every stored count covers the references that are found again. */
  ghost predicate CountsCover(c: Cat) {
    forall b | b in c.blocks :: c.blocks[b].refs >= 2 && c.blocks[b].refs >= 1 + NbtRefs(c.nodes, b) + Typed(c, b)
  }

  /** The payload of one block, as reconstructTreeRefs wants it. */
  ghost predicate PayloadFits(blocks: Catalogue, spool: Spool, bid: nat) {
    if !IsInternal(bid) then true
    else match Payload(blocks, spool, bid)
      case Ok(Extended(_, _, _)) => TreeOk(blocks, spool, bid)
      case Ok(SubLeaf(_)) => SubShape(blocks, spool, bid) && DistinctBids(Visits(blocks, spool, bid))
      case Ok(SubIndex(_)) => SubShape(blocks, spool, bid) && DistinctBids(Visits(blocks, spool, bid))
      case _ => true
  }

  ghost predicate PayloadsFit(blocks: Catalogue, spool: Spool) {
    forall b | b in blocks :: PayloadFits(blocks, spool, b)
  }

  // ---------- typed references, counted again ----------

  /** The references held by the payloads of `done`. */
  ghost function EdgesOf(blocks: Catalogue, spool: Spool, done: set<nat>): set<Edge> {
    set p, i | p in done && 0 <= i < |KidsOf(blocks, spool, p)| :: Edge(p, i, KidsOf(blocks, spool, p)[i])
  }

  ghost function KidsUpTo(parent: nat, kids: seq<Ref>, to: nat): set<Edge> {
    set i | 0 <= i < |kids| && i < to :: Edge(parent, i, kids[i])
  }

  lemma UpToStep(parent: nat, kids: seq<Ref>, i: nat)
    requires i < |kids|
    ensures KidsUpTo(parent, kids, i + 1) == KidsUpTo(parent, kids, i) + {Edge(parent, i, kids[i])}
    ensures Edge(parent, i, kids[i]) !in KidsUpTo(parent, kids, i)
  {
  }

  lemma EdgesStep(blocks: Catalogue, spool: Spool, done: set<nat>, b: nat)
    requires b !in done
    ensures EdgesOf(blocks, spool, done + {b}) ==
      EdgesOf(blocks, spool, done) + KidsUpTo(b, KidsOf(blocks, spool, b), |KidsOf(blocks, spool, b)|)
    ensures forall e | e in EdgesOf(blocks, spool, done) :: e.parent != b
  {
    hide KidsOf;
  }

  lemma CountedUnique(c: Cat, c': Cat, E: set<Edge>)
    requires Counted(c, E) && Counted(c', E)
    ensures c.dref == c'.dref && c.sref == c'.sref
  {
    hide Into;
    assert forall b :: Get(c.dref, b) == Get(c'.dref, b) && Get(c.sref, b) == Get(c'.sref, b);
    assert forall b :: (b in c.dref <==> Get(c.dref, b) > 0) && (b in c'.dref <==> Get(c'.dref, b) > 0);
    assert forall b :: (b in c.sref <==> Get(c.sref, b) > 0) && (b in c'.sref <==> Get(c'.sref, b) > 0);
    assert forall b | b in c.dref :: c.dref[b] == Get(c.dref, b) == c'.dref[b];
    assert forall b | b in c.sref :: c.sref[b] == Get(c.sref, b) == c'.sref[b];
  }

  /** One block's payload checks out exactly when it fits. */
  method PayloadRefs(n: NDB, bid: nat) returns (r: Option<seq<Ref>>)
    requires Descending(n.blocks, n.store.spool) && bid in n.blocks
    ensures r.Some? <==> PayloadFits(n.blocks, n.store.spool, bid)
    ensures r.Some? ==> r.value == KidsOf(n.blocks, n.store.spool, bid)
  {
    hide TreeOk, SubShape, Visits, DistinctBids, XBlockOk;
    BidMatches(n.blocks, n.store.spool, bid);
    if !IsInternal(bid) {
      return Some([]);
    }
    var payload := n.BlockPayload(n.blocks[bid]);
    if payload.Err? {
      return Some([]);
    }
    match payload.value {
      case Extended(_, _, _) =>
        var ok := InspectXBlock(payload.value);
        var tree := WalkDataTree(n, bid);
        TreeInspects(n.blocks, n.store.spool, bid);
        if !ok || tree.Err? {
          return None;
        }
      case Data(_) =>
      case _ =>
        var fits, seen := ValidateAt(n, bid, {}, 0);
        Descend0(n.blocks, n.store.spool, bid);
        if !fits {
          return None;
        }
    }
    return Some(Kids(payload.value));
  }

  lemma Descend0(blocks: Catalogue, spool: Spool, bid: nat)
    requires Descending(blocks, spool) && bid in blocks && IsInternal(bid)
    ensures bid != 0 && (Fresh({}, Visits(blocks, spool, bid)) <==> DistinctBids(Visits(blocks, spool, bid)))
  {
    hide Visits, DistinctBids, Descending;
  }

  lemma TreeInspects(blocks: Catalogue, spool: Spool, bid: nat)
    requires IsInternal(bid) && Payload(blocks, spool, bid).Ok?
    ensures TreeOk(blocks, spool, bid) ==> XBlockOk(Payload(blocks, spool, bid).value)
  {
    hide XBlockOk, Mids, Leaves;
  }

  /** reconstructTreeRefs: fails exactly on a payload that does not fit, else counts every payload reference. */
  method ReconstructTreeRefs(n: NDB) returns (r: Result<()>)
    requires Descending(n.blocks, n.store.spool) && n.dataTreeRefs == map[] && n.subnodeRefs == map[]
    modifies n`dataTreeRefs, n`subnodeRefs
    ensures r.Ok? <==> PayloadsFit(n.blocks, n.store.spool)
    ensures r.Ok? ==> Counted(n.C(), Edges(n.blocks, n.store.spool))
  {
    hide PayloadFits, Counted, KidsOf, Descending;
    ghost var B, S := n.blocks, n.store.spool;
    var todo := n.blocks.Keys;
    NoneCounted(n.C(), B, S);
    while todo != {}
      invariant todo <= B.Keys && forall b | b in B && b !in todo :: PayloadFits(B, S, b)
      invariant Counted(n.C(), EdgesOf(B, S, B.Keys - todo))
      decreases |todo|
    {
      var bid :| bid in todo;
      var kids := PayloadRefs(n, bid);
      if kids.None? {
        return Err(InvariantBroken);
      }
      ghost var E := EdgesOf(B, S, B.Keys - todo);
      EdgesStep(B, S, B.Keys - todo, bid);
      assert E + KidsUpTo(bid, kids.value, 0) == E;
      for i := 0 to |kids.value|
        invariant Counted(n.C(), E + KidsUpTo(bid, kids.value, i))
      {
        hide EdgesOf, KidsUpTo;
        var ref := kids.value[i];
        ghost var e := Edge(bid, i, ref);
        UpToStep(bid, kids.value, i);
        AddCounted(n.C(), E + KidsUpTo(bid, kids.value, i), e);
        assert (E + KidsUpTo(bid, kids.value, i)) + {e} == E + KidsUpTo(bid, kids.value, i + 1);
        ghost var c' := Added(n.C(), ref);
        if ref.kind == DataTree {
          n.dataTreeRefs := n.dataTreeRefs[ref.bid := Get(n.dataTreeRefs, ref.bid) + 1];
        } else {
          n.subnodeRefs := n.subnodeRefs[ref.bid := Get(n.subnodeRefs, ref.bid) + 1];
        }
        assert n.C() == c';
      }
      assert B.Keys - (todo - {bid}) == (B.Keys - todo) + {bid};
      todo := todo - {bid};
    }
    AllEdges(B, S);
    return Ok(());
  }

  lemma NoneCounted(c: Cat, blocks: Catalogue, spool: Spool)
    requires c.dref == map[] && c.sref == map[]
    ensures Counted(c, EdgesOf(blocks, spool, blocks.Keys - blocks.Keys))
  {
    assert EdgesOf(blocks, spool, blocks.Keys - blocks.Keys) == {};
    assert forall t :: Into({}, t) == {};
  }

  lemma AllEdges(blocks: Catalogue, spool: Spool)
    ensures EdgesOf(blocks, spool, blocks.Keys - {}) == Edges(blocks, spool)
  {
    hide KidsOf;
  }

  /** applyExtraRefs: whatever the stored count says beyond the references found is kept as opaque. */
  method ApplyExtraRefs(n: NDB) returns (r: Result<()>)
    requires n.opaqueRefs == map[]
    modifies n`opaqueRefs
    ensures r.Ok? <==> forall b | b in n.blocks :: n.blocks[b].refs >= 1 + NbtRefs(n.nodes, b) + Typed(n.C(), b)
    ensures r.Ok? ==> n.opaqueRefs.Keys <= n.blocks.Keys
    ensures r.Ok? ==> forall b | b in n.blocks :: n.blocks[b].refs == 1 + LiveRefs(n.C(), b)
    ensures r.Ok? ==>
      forall b | b in n.blocks :: Get(n.opaqueRefs, b) == n.blocks[b].refs - 1 - NbtRefs(n.nodes, b) - Typed(n.C(), b)
  {
    var todo := n.blocks.Keys;
    while todo != {}
      invariant todo <= n.blocks.Keys && n.opaqueRefs.Keys <= n.blocks.Keys - todo
      invariant forall b | b in n.blocks && b !in todo ::
        && n.blocks[b].refs >= 1 + NbtRefs(n.nodes, b) + Typed(n.C(), b)
        && Get(n.opaqueRefs, b) == n.blocks[b].refs - 1 - NbtRefs(n.nodes, b) - Typed(n.C(), b)
      decreases |todo|
    {
      hide NbtRefs;
      var bid :| bid in todo;
      var nbt := n.NbtLiveRefs(bid);
      if n.blocks[bid].refs < 1 + nbt {
        return Err(InvariantBroken);
      }
      var extra := n.blocks[bid].refs - 1 - nbt;
      var typed := Get(n.dataTreeRefs, bid) + Get(n.subnodeRefs, bid);
      if typed > extra {
        return Err(InvariantBroken);
      }
      if extra - typed > 0 {
        n.opaqueRefs := n.opaqueRefs[bid := extra - typed];
      }
      todo := todo - {bid};
    }
    return Ok(());
  }

  /** The BBT leaves rebuild the block map and do not move the BID counter. */
  method FillBlocks(n: NDB, es: seq<Entry>, ghost blocks: map<nat, BBTEntry>)
    requires ListsBlocks(es, blocks) && n.blocks == map[]
    requires forall b | b in blocks :: b != 0 && !HasReserved(b) && Strip(b) + 4 <= n.store.bidNextB
    modifies n`blocks, n.store`bidNextB
    ensures n.blocks == blocks && n.store.bidNextB == old(n.store.bidNextB)
  {
    for i := 0 to |es|
      invariant n.store.bidNextB == old(n.store.bidNextB)
      invariant forall b | b in n.blocks :: b in blocks && n.blocks[b] == blocks[b]
      invariant forall k | 0 <= k < i :: es[k].b.bid in n.blocks
    {
      assert es[i] in es;
      n.blocks := n.blocks[es[i].b.bid := es[i].b];
      var noted := n.store.NoteBlockBID(es[i].b.bid);
    }
    forall b | b in blocks
      ensures b in n.blocks
    {
      var i :| 0 <= i < |es| && es[i] == B(blocks[b]);
    }
  }

  method FillNodes(n: NDB, es: seq<Entry>, ghost nodes: map<nat, NBTEntry>)
    requires ListsNodes(es, nodes) && n.nodes == map[]
    modifies n`nodes
    ensures n.nodes == nodes
  {
    for i := 0 to |es|
      invariant forall b | b in n.nodes :: b in nodes && n.nodes[b] == nodes[b]
      invariant forall k | 0 <= k < i :: es[k].n.nid in n.nodes
    {
      assert es[i] in es;
      n.nodes := n.nodes[es[i].n.nid := es[i].n];
    }
    forall b | b in nodes
      ensures b in n.nodes
    {
      var i :| 0 <= i < |es| && es[i] == N(nodes[b]);
    }
  }

  ghost predicate StoreIs(s: Store, d: Disk)
    reads s
  {
    && s.regions == d.regions && s.spool == d.spool && s.lastAllocAMap == d.lastAMap
    && s.bidNextP == d.bidNextP && s.bidNextB == d.bidNextB && s.nbtRoot == d.trees.nbt && s.bbtRoot == d.trees.bbt
  }

  /** LoadStoreFrom: an empty catalog over the store the file describes. */
  method LoadStore(d: Disk) returns (r: Result<NDB>)
    ensures r.Ok? <==> |d.regions| > 0 && Meta(|d.regions|) <= Used(d.regions) && d.bidNextP > FIRST_ALLOC_BID
                       && d.bidNextB >= FIRST_ALLOC_BID && d.bidNextB % 4 == 0
    ensures r.Ok? ==> fresh(r.value) && fresh(r.value.store) && StoreIs(r.value.store, d)
    ensures r.Ok? ==> r.value.C() == Cat(map[], map[], map[], map[], map[]) && r.value.nextBlock == d.bidNextB
  {
    hide Used, Meta, Holds;
    if |d.regions| == 0 || d.bidNextP <= FIRST_ALLOC_BID || d.bidNextB < FIRST_ALLOC_BID || d.bidNextB % 4 != 0 {
      return Err(InvariantBroken);
    }
    var n := new NDB();
    n.store.regions, n.store.spool := d.regions, d.spool;
    n.store.lastAllocAMap, n.store.bidNextP, n.store.bidNextB := d.lastAMap, d.bidNextP, d.bidNextB;
    n.store.nbtRoot, n.store.bbtRoot := d.trees.nbt, d.trees.bbt;
    n.nextBlock := d.bidNextB;
    var ok := MapsMarked(n.store);
    if !ok {
      return Err(InvariantBroken);
    }
    return Ok(n);
  }

  method MapsMarked(s: Store) returns (ok: bool)
    ensures ok <==> Meta(|s.regions|) <= Used(s.regions)
  {
    hide Used, Meta, Markable;
    MetaMarked(s.regions);
    for i := 0 to |s.regions|
      invariant forall k, j | 0 <= k < i && 0 <= j < |RegionMapPages(k)| ::
        Markable(s.regions, RegionMapPages(k)[j].offset, PAGE_SIZE, false)
    {
      var pages := RegionMapPages(i);
      for j := 0 to |pages|
        invariant forall m | 0 <= m < j :: Markable(s.regions, pages[m].offset, PAGE_SIZE, false)
      {
        var marked := s.AllocatedRange(pages[j].offset, PAGE_SIZE);
        if !marked {
          return false;
        }
      }
    }
    return true;
  }

  /** Every map page allocated means every slot of the map pages allocated. */
  lemma MetaMarked(rs: seq<Bitmap>)
    ensures Meta(|rs|) <= Used(rs) <==>
      forall k, j | 0 <= k < |rs| && 0 <= j < |RegionMapPages(k)| ::
        Markable(rs, RegionMapPages(k)[j].offset, PAGE_SIZE, false)
  {
    if Meta(|rs|) <= Used(rs) {
      forall k, j | 0 <= k < |rs| && 0 <= j < |RegionMapPages(k)|
        ensures Markable(rs, RegionMapPages(k)[j].offset, PAGE_SIZE, false)
      {
        PageOfMeta(rs, k, j);
      }
    }
    if forall k, j | 0 <= k < |rs| && 0 <= j < |RegionMapPages(k)| ::
      Markable(rs, RegionMapPages(k)[j].offset, PAGE_SIZE, false) {
      forall g | g in Meta(|rs|)
        ensures g in Used(rs)
      {
        var k, j := g / SLOTS_PER_AMAP, g % SLOTS_PER_AMAP / SLOTS_PER_PAGE;
        assert Markable(rs, RegionMapPages(k)[j].offset, PAGE_SIZE, false);
        PageOfMeta(rs, k, j);
        MetaSlotPage(g, k, j);
      }
    }
  }

  lemma MetaSlotPage(g: nat, k: nat, j: nat)
    requires k == g / SLOTS_PER_AMAP && j == g % SLOTS_PER_AMAP / SLOTS_PER_PAGE && j < |RegionMapPages(k)|
    ensures g in Slots(RegionMapPages(k)[j].offset, PAGE_SIZE)
  {
    var p := RegionMapPages(k)[j].offset;
    assert p - FIRST_AMAP == BYTES_PER_SLOT * (SLOTS_PER_AMAP * k + SLOTS_PER_PAGE * j);
    assert SLOTS_PER_AMAP * k + SLOTS_PER_PAGE * j <= g < SLOTS_PER_AMAP * k + SLOTS_PER_PAGE * j + SLOTS_PER_PAGE;
  }

  lemma PageOfMeta(rs: seq<Bitmap>, k: nat, j: nat)
    requires k < |rs| && j < |RegionMapPages(k)|
    ensures var p := RegionMapPages(k)[j].offset;
      && SlotNumber(p) == SLOTS_PER_AMAP * k + SLOTS_PER_PAGE * j
      && Slots(p, PAGE_SIZE) <= Meta(|rs|)
      && (Markable(rs, p, PAGE_SIZE, false) <==> Slots(p, PAGE_SIZE) <= Used(rs))
  {
    var p := RegionMapPages(k)[j].offset;
    assert p - FIRST_AMAP == BYTES_PER_SLOT * (SLOTS_PER_AMAP * k + SLOTS_PER_PAGE * j);
    assert (p - FIRST_AMAP) / AMAP_COVERAGE == k;
    UsedSubset(rs, p, PAGE_SIZE);
    forall g | g in Slots(p, PAGE_SIZE)
      ensures g in Meta(|rs|)
    {
      assert g / SLOTS_PER_AMAP == k && g % SLOTS_PER_AMAP < MetaCount(k);
    }
  }

  // ---------- reopening ----------

  lemma TreesFound(d: Disk, w: World, livePages: seq<nat>, ns: Shape, bs: Shape)
    requires Committed(d, w, livePages, ns, bs)
    ensures d.trees.nbt.bid != 0 && d.trees.bbt.bid != 0
    ensures Sound(d.trees, ns, bs) <==> CountsFit(w.c)
    ensures forall ns', bs' | Sound(d.trees, ns', bs') :: ns' == ns && bs' == bs
    ensures In(d.trees.img, NBT, ns) && In(d.trees.img, BBT, bs) && d.trees.nbt == ns.ref && d.trees.bbt == bs.ref
    ensures ListsNodes(Flat(ns), w.c.nodes) && ListsBlocks(Flat(bs), w.c.blocks)
  {
    hide Holds, In, Refs, Flat, Full, Sorted, PagesIssued, DistinctIBs, ListsNodes, ListsBlocks, CountsFit, Orphans,
         Accounted, Covered, Unmet;
    EncodeAccepted(d.trees, w, ns, bs, livePages, d.bidNextP);
    InHere(d.trees.img, NBT, ns);
    InHere(d.trees.img, BBT, bs);
    assert d.trees.nbt.bid != 0 && d.trees.bbt.bid != 0 by {
      RootsIssued(d.trees.img, d.bidNextP, ns.ref);
      RootsIssued(d.trees.img, d.bidNextP, bs.ref);
    }
    forall ns', bs' | Sound(d.trees, ns', bs')
      ensures ns' == ns && bs' == bs
    {
      InUnique(d.trees.img, NBT, ns', ns);
      InUnique(d.trees.img, BBT, bs', bs);
    }
  }

  lemma RootsIssued(img: Image, next: nat, r: BREF)
    requires PagesIssued(img, next) && r.ib in img && img[r.ib].bid == r.bid
    ensures r.bid != 0
  {
  }

  lemma PagesAre(refs: seq<BREF>, livePages: seq<nat>)
    requires Accounted(refs, livePages, [])
    ensures PageSet(Offsets(refs)) == PageSet(livePages) && Distinct(Offsets(refs))
  {
    assert livePages[0..] == livePages;
    var o := Offsets(refs);
    forall p | p in IBs(refs)
      ensures p in o
    {
      var i :| 0 <= i < |refs| && refs[i].ib == p;
      assert o[i] == p;
    }
    forall p | p in o
      ensures p in IBs(refs)
    {
      var i :| 0 <= i < |o| && o[i] == p;
      assert refs[i] in refs;
    }
  }

  lemma OwnFacts(c: Cat, E: set<Edge>, next: nat)
    requires Own(c, E, {}, next)
    ensures next % 4 == 0 && next > 0 && Counted(c, E)
    ensures forall b | b in c.blocks :: b != 0 && !HasReserved(b) && Strip(b) + 4 <= next
    ensures forall b | b in c.blocks :: c.blocks[b].refs == (1 + LiveRefs(c, b)) % U16
  {
    hide LiveRefs, Counted, Closed;
  }

  lemma CommittedFacts(w: World, pages: set<nat>)
    requires Holds(w, {}, {}, pages)
    ensures Meta(|w.rs|) <= Used(w.rs) && w.next % 4 == 0 && w.next > 0
    ensures forall b | b in w.c.blocks :: b != 0 && !HasReserved(b) && Strip(b) + 4 <= w.next
    ensures forall b | b in w.c.blocks :: w.c.blocks[b].refs == (1 + LiveRefs(w.c, b)) % U16
    ensures Counted(w.c, Edges(w.c.blocks, w.spool))
  {
    hide Own, Space, Edges, LiveRefs, Used, Meta, Counted;
    WorldOwn(w, pages);
    OwnFacts(w.c, Edges(w.c.blocks, w.spool), w.next);
  }

  lemma OwnReopened(c: Cat, E: set<Edge>, next: nat, oref: map<nat, nat>)
    requires Own(c, E, {}, next) && oref.Keys <= c.blocks.Keys
    requires forall b | b in c.blocks :: c.blocks[b].refs == 1 + LiveRefs(c.(oref := oref), b)
    ensures Own(c.(oref := oref), E, {}, next)
  {
    hide LiveRefs, Into;
    OwnFacts(c, E, next);
  }

  /** The rebuilt catalog is exact again: only the opaque counts were recomputed. */
  lemma ReopenedHolds(w: World, pages: set<nat>, oref: map<nat, nat>)
    requires Holds(w, {}, {}, pages) && oref.Keys <= w.c.blocks.Keys
    requires forall b | b in w.c.blocks :: w.c.blocks[b].refs == 1 + LiveRefs(w.c.(oref := oref), b)
    ensures Holds(w.(c := w.c.(oref := oref)), {}, {}, pages)
  {
    hide Own, Space, Edges, LiveRefs, Used, Meta;
    WorldOwn(w, pages);
    OwnReopened(w.c, Edges(w.c.blocks, w.spool), w.next, oref);
    assert Edges(w.c.blocks, w.spool) + {} == Edges(w.c.blocks, w.spool);
  }

  lemma CoverFits(w: World, pages: set<nat>)
    requires Holds(w, {}, {}, pages)
    ensures CountsCover(w.c) <==>
      CountsFit(w.c) && forall b | b in w.c.blocks :: w.c.blocks[b].refs >= 1 + NbtRefs(w.c.nodes, b) + Typed(w.c, b)
  {
    hide Holds, NbtRefs, LiveRefs;
    CommittedFacts(w, pages);
  }

  /** OpenNDBFrom on a committed file: accepted exactly when the counts cover and every payload fits, and then
      the same nodes, blocks, typed counts, maps, payloads and counters are back. */
  method OpenNDB(d: Disk, ghost w: World, ghost livePages: seq<nat>, ghost ns: Shape, ghost bs: Shape)
    returns (r: Result<NDB>)
    requires Committed(d, w, livePages, ns, bs)
    ensures r.Ok? <==> CountsCover(w.c) && PayloadsFit(w.c.blocks, w.spool)
    ensures r.Ok? ==> fresh(r.value) && fresh(r.value.store) && r.value.Valid() && StoreIs(r.value.store, d)
    ensures r.Ok? ==> r.value.W() == w.(c := w.c.(oref := r.value.opaqueRefs))
    ensures r.Ok? ==>
      forall b | b in w.c.blocks ::
      Get(r.value.opaqueRefs, b) == w.c.blocks[b].refs - 1 - NbtRefs(w.c.nodes, b) - Typed(w.c, b)
    ensures r.Ok? ==> PageSet(r.value.livePages) == PageSet(livePages)
  {
    hide Holds, In, Refs, Flat, Counted, Descending, PayloadsFit, CountsFit, Orphans, ListsNodes, ListsBlocks, Sound,
         LiveRefs, NbtRefs;
    hide Used, Meta, Accounted, PagesIssued, Mirrors, Edges, SubShape, Visits;
    CommittedFacts(w, PageSet(livePages));
    TreesFound(d, w, livePages, ns, bs);
    CoverFits(w, PageSet(livePages));
    HoldsDescending(w, PageSet(livePages));
    var loaded := LoadStore(d);
    if loaded.Err? {
      return loaded;
    }
    var n := loaded.value;
    if d.trees.nbt.bid == 0 || d.trees.bbt.bid == 0 {
      return Err(InvariantBroken);
    }
    var checked;
    ghost var ns', bs';
    checked, ns', bs' := CheckTrees(d.trees);
    if checked.Err? {
      return Err(checked.error);
    }
    var blockList := WalkLeaves(d.trees.img, d.trees.bbt, BBT, bs);
    FillBlocks(n, blockList.value, w.c.blocks);
    var nodeList := WalkLeaves(d.trees.img, d.trees.nbt, NBT, ns);
    FillNodes(n, nodeList.value, w.c.nodes);
    var typed := ReconstructTreeRefs(n);
    if typed.Err? {
      return Err(typed.error);
    }
    CountedUnique(n.C(), w.c, Edges(w.c.blocks, w.spool));
    var extra := ApplyExtraRefs(n);
    if extra.Err? {
      return Err(extra.error);
    }
    assert n.C() == w.c.(oref := n.opaqueRefs);
    var nbtPages := CollectPages(d.trees.img, d.trees.nbt, NBT, ns);
    var bbtPages := CollectPages(d.trees.img, d.trees.bbt, BBT, bs);
    n.livePages := nbtPages.value + bbtPages.value;
    n.nextBlock := n.store.bidNextB;
    OffsetsAppend(Refs(ns), Refs(bs));
    PagesAre(Refs(ns) + Refs(bs), livePages);
    ReopenedHolds(w, PageSet(livePages), n.opaqueRefs);
    assert n.Valid();
    var counts := n.CheckRefCounts();
    return Ok(n);
  }

  // ---------- commit, then reopen ----------

  /** No subnode tree meets one of its blocks twice. */
  ghost predicate NoSharedVisits(blocks: Catalogue, spool: Spool) {
    forall b | b in blocks && SubnodeRoot(blocks, spool, b) :: DistinctBids(Visits(blocks, spool, b))
  }

  predicate SubnodeRoot(blocks: Catalogue, spool: Spool, bid: nat) {
    IsInternal(bid) && Payload(blocks, spool, bid).Ok?
    && (Payload(blocks, spool, bid).value.SubLeaf? || Payload(blocks, spool, bid).value.SubIndex?)
  }

  lemma ShapelyFits(w: World)
    requires Shapely(w)
    ensures PayloadsFit(w.c.blocks, w.spool) <==> NoSharedVisits(w.c.blocks, w.spool)
  {
    hide TreeOk, SubShape, Visits, DistinctBids;
    forall b | b in w.c.blocks
      ensures PayloadFits(w.c.blocks, w.spool, b)
          <==> (SubnodeRoot(w.c.blocks, w.spool, b) ==> DistinctBids(Visits(w.c.blocks, w.spool, b)))
    {
      assert Shaped(w.c.blocks, w.spool, b);
    }
  }

  /** With fewer than 65535 references to each block, the counts cover and the opaque counts come back too. */
  lemma SmallCountsCover(w: World, pages: set<nat>)
    requires Holds(w, {}, {}, pages) && Orphans(w.c) == {} && forall b | b in w.c.blocks :: LiveRefs(w.c, b) < U16 - 1
    ensures CountsCover(w.c)
    ensures forall b | b in w.c.blocks ::
      w.c.blocks[b].refs - 1 - NbtRefs(w.c.nodes, b) - Typed(w.c, b) == Get(w.c.oref, b)
  {
    hide Holds, NbtRefs, Orphans;
    CommittedFacts(w, pages);
    forall b | b in w.c.blocks
      ensures w.c.blocks[b].refs == 1 + LiveRefs(w.c, b) && LiveRefs(w.c, b) > 0
    {
      NotOrphan(w.c, b);
    }
  }

  lemma RegionsExist(w: World, refs: seq<BREF>, livePages: seq<nat>)
    requires Holds(w, {}, {}, PageSet(livePages)) && Accounted(refs, livePages, []) && refs != []
    ensures |w.rs| > 0
  {
    hide Own, Edges, LiveRefs, Used, Meta;
    assert livePages[0..] == livePages && refs[0] in refs;
    assert refs[0].ib in IBs(refs);
  }

  /** Commit a catalog built by the builders and reopen it: refused exactly when a stored count was truncated below
      what is found again, or when some subnode tree shares a block; otherwise the catalog is back. */
  method CommitAndReopen(n: NDB) returns (encoded: bool, r: Result<NDB>, ghost start: World)
    requires n.Valid() && Shapely(n.W()) && n.store.bidNextP > FIRST_ALLOC_BID
    modifies n, n.store
    ensures n.Valid() && Reclaimed(old(n.W()), n.W()) && Shapely(n.W()) && n.store.bidNextP >= old(n.store.bidNextP)
    ensures Shrunk(old(n.W()), start) && start.c == n.C() && (old(Orphans(n.C())) == {} ==> start == old(n.W()))
    ensures Survivors(old(n.C()), old(Edges(n.blocks, n.store.spool)), n.nodes, false, n.blocks)
    ensures !encoded <==> (exists b | b in n.blocks :: n.blocks[b].refs == 0)
                          || Clash(start.rs, old(n.store.bidNextP), CatalogPages(n.C()))
    ensures encoded ==> (r.Ok? <==> CountsCover(n.C()) && NoSharedVisits(n.blocks, n.store.spool))
    ensures encoded && r.Ok? ==> fresh(r.value) && fresh(r.value.store) && r.value.Valid()
    ensures encoded && r.Ok? ==> r.value.W() == n.W().(c := n.C().(oref := r.value.opaqueRefs))
    ensures encoded && r.Ok? ==>
      PageSet(r.value.livePages) == PageSet(n.livePages) && r.value.store.bidNextP == n.store.bidNextP
    ensures encoded && r.Ok? && (forall b | b in n.blocks :: LiveRefs(n.C(), b) < U16 - 1) ==>
      forall b | b in n.blocks :: Get(r.value.opaqueRefs, b) == Get(n.opaqueRefs, b)
  {
    hide Holds, Refs, Orphans, Mirrors, Accounted, PagesIssued, Shapely, SameExtents, SamePayloads, LiveRefs, NbtRefs,
         Typed, CountsCover;
    hide PayloadsFit, NoSharedVisits, Shrunk, Clash, Survivors;
    ghost var ns, bs;
    var trees;
    ghost var w0 := n.W();
    trees, ns, bs, start := Encode(n);
    FewerShapely(w0, n.W(), PageSet(n.livePages));
    if trees.Err? {
      return false, Err(trees.error), start;
    }
    NoRefs(ns, bs);
    RegionsExist(n.W(), Refs(ns) + Refs(bs), n.livePages);
    var d := Disk(n.store.regions, n.store.spool, trees.value, n.store.bidNextP, n.store.bidNextB,
                  n.store.lastAllocAMap);
    r := OpenNDB(d, n.W(), n.livePages, ns, bs);
    encoded := true;
    ShapelyFits(n.W());
    if forall b | b in n.blocks :: LiveRefs(n.C(), b) < U16 - 1 {
      SmallCountsCover(n.W(), PageSet(n.livePages));
    }
  }

  lemma NoRefs(ns: Shape, bs: Shape)
    ensures Refs(ns) + Refs(bs) != []
  {
  }

  /** The builder accepts entries that share a subnode block, but such a tree cannot be reopened. */
  lemma SharedSubnodeRefused(blocks: Catalogue, spool: Spool, bid: nat, i: nat, j: nat)
    requires IsLeafBlock(blocks, spool, bid) && i < j < |LeafEntries(blocks, spool, bid)|
    requires 0 < LeafEntries(blocks, spool, bid)[i].sub == LeafEntries(blocks, spool, bid)[j].sub < bid
    ensures !DistinctBids(Visits(blocks, spool, bid))
    ensures (forall e | e in LeafEntries(blocks, spool, bid) :: RoleOk(blocks, spool, e) && e.sub < bid) ==>
      SubShape(blocks, spool, bid)
  {
    hide LeafShape, SLOk, TreeOk, Visits, LeafVisits, SubShape, IsLeafBlock, LeafEntries, RoleOk, DistinctBids;
    var es := LeafEntries(blocks, spool, bid);
    VisitsOf(blocks, spool, bid);
    LeafOrIndex(blocks, spool, bid);
    if forall e | e in es :: RoleOk(blocks, spool, e) && e.sub < bid {
      RolesShape(blocks, spool, es, bid);
    }
    SubTwice(blocks, spool, es, bid, i, j);
    FreshSplit({}, [bid], LeafVisits(blocks, spool, es, bid));
  }

  lemma SubTwice(blocks: Catalogue, spool: Spool, es: seq<SLEntry>, bid: nat, i: nat, j: nat)
    requires i < j < |es| && 0 < es[i].sub == es[j].sub < bid
    ensures forall seen :: !Fresh(seen, LeafVisits(blocks, spool, es, bid))
  {
    hide LeafVisits, DistinctBids;
    LeafVisitsAppend(blocks, spool, es[..j], es[j..], bid);
    assert es[..j] + es[j..] == es;
    VisitsSub(blocks, spool, es[..j], i, bid);
    VisitsSub(blocks, spool, es[j..], 0, bid);
    var a, b := LeafVisits(blocks, spool, es[..j], bid), LeafVisits(blocks, spool, es[j..], bid);
    assert es[i].sub in BidSet(a) && es[i].sub in BidSet(b);
    forall seen
      ensures !Fresh(seen, a + b)
    {
      FreshSplit(seen, a, b);
    }
  }

  lemma RolesShape(blocks: Catalogue, spool: Spool, es: seq<SLEntry>, bound: nat)
    requires forall e | e in es :: RoleOk(blocks, spool, e) && e.sub < bound
    ensures LeafShape(blocks, spool, es, bound)
  {
    hide TreeOk, SubShape, Visits;
  }

  lemma {:induction false} VisitsSub(blocks: Catalogue, spool: Spool, es: seq<SLEntry>, i: nat, bound: nat)
    requires i < |es| && 0 < es[i].sub < bound
    ensures es[i].sub in LeafVisits(blocks, spool, es, bound)
  {
    var last := |es| - 1;
    LeafVisitsLast(blocks, spool, es, bound);
    if i < last {
      VisitsSub(blocks, spool, es[..last], i, bound);
    } else {
      assert SubVisits(blocks, spool, es[i].sub, bound)[0] == es[i].sub;
    }
  }
}
