/** NDB.Encode: reclaim, write both trees, free the superseded pages (ndb.go). */
module CatalogEncoder {
  import opened Common
  import opened Geometry
  import opened Blocks
  import opened Allocation
  import opened Catalog
  import opened Survival
  import opened NodeDatabase
  import opened BTree
  import opened PagePlan
  import opened TreeEncoder
  import opened PackageReader

  // ---------- sorted listings ----------

  function InsertAt(es: seq<Entry>, e: Entry): seq<Entry> {
    if es == [] || Key(es[|es| - 1]) < Key(e) then es + [e]
    else InsertAt(es[..|es| - 1], e) + [es[|es| - 1]]
  }

  lemma SortedSnoc(es: seq<Entry>, e: Entry)
    requires Sorted(es, false) && forall x | x in es :: Key(x) < Key(e)
    ensures Sorted(es + [e], false)
  {
    hide Key;
    var r := es + [e];
    forall i, j | 0 <= i < j < |r|
      ensures View(false, Key(r[i])) < View(false, Key(r[j]))
    {
      assert r[i] == es[i] && es[i] in es;
      if j < |es| {
        assert r[j] == es[j];
      }
    }
  }

  lemma SortedInit(es: seq<Entry>)
    requires es != [] && Sorted(es, false)
    ensures Sorted(es[..|es| - 1], false) && forall x | x in es[..|es| - 1] :: Key(x) < Key(es[|es| - 1])
  {
    hide Key;
    assert forall i | 0 <= i < |es| - 1 :: View(false, Key(es[i])) < View(false, Key(es[|es| - 1]));
  }

  lemma {:induction false} InsertSorted(es: seq<Entry>, e: Entry)
    requires Sorted(es, false) && forall x | x in es :: Key(x) != Key(e)
    ensures Sorted(InsertAt(es, e), false)
    ensures |InsertAt(es, e)| == |es| + 1 && forall x :: x in InsertAt(es, e) <==> x in es || x == e
  {
    hide Sorted, Key;
    if es == [] {
      SortedSnoc(es, e);
    } else {
      var last := es[|es| - 1];
      var init := es[..|es| - 1];
      SortedInit(es);
      assert es == init + [last];
      if Key(last) < Key(e) {
        SortedSnoc(es, e);
      } else {
        InsertSorted(init, e);
        SortedSnoc(InsertAt(init, e), last);
      }
    }
  }

  ghost predicate ListsNodes(es: seq<Entry>, nodes: map<nat, NBTEntry>) {
    && (forall e | e in es :: e.N? && e.n.nid in nodes && nodes[e.n.nid] == e.n)
    && (forall k | k in nodes :: nodes[k].nid == k && N(nodes[k]) in es)
  }

  ghost predicate ListsBlocks(es: seq<Entry>, blocks: map<nat, BBTEntry>) {
    && (forall e | e in es :: e.B? && e.b.bid in blocks && blocks[e.b.bid] == e.b)
    && (forall k | k in blocks :: blocks[k].bid == k && B(blocks[k]) in es)
  }

  method SortedNodes(nodes: map<nat, NBTEntry>) returns (es: seq<Entry>)
    requires forall k | k in nodes :: nodes[k].nid == k
    ensures Sorted(es, false) && ListsNodes(es, nodes) && |es| == |nodes|
  {
    es := [];
    var todo := nodes.Keys;
    while todo != {}
      invariant todo <= nodes.Keys && Sorted(es, false) && |es| + |todo| == |nodes|
      invariant forall e | e in es :: e.N? && e.n.nid in nodes && nodes[e.n.nid] == e.n && e.n.nid !in todo
      invariant forall k | k in nodes && k !in todo :: N(nodes[k]) in es
      decreases |todo|
    {
      hide Sorted, InsertAt;
      var k :| k in todo;
      InsertSorted(es, N(nodes[k]));
      es := InsertAt(es, N(nodes[k]));
      todo := todo - {k};
    }
  }

  /** ownedBlocks: every block somebody references, in BID order. */
  method OwnedBlocks(n: NDB) returns (es: seq<Entry>)
    requires forall k | k in n.blocks :: n.blocks[k].bid == k
    requires Orphans(n.C()) == {}
    ensures Sorted(es, false) && ListsBlocks(es, n.blocks) && |es| == |n.blocks|
  {
    es := [];
    var todo := n.blocks.Keys;
    while todo != {}
      invariant todo <= n.blocks.Keys && Sorted(es, false) && |es| + |todo| == |n.blocks|
      invariant forall e | e in es :: e.B? && e.b.bid in n.blocks && n.blocks[e.b.bid] == e.b && e.b.bid !in todo
      invariant forall k | k in n.blocks && k !in todo :: B(n.blocks[k]) in es
      decreases |todo|
    {
      hide Sorted, InsertAt, LiveRefs;
      var k :| k in todo;
      var refs := n.CountRefs(n.blocks[k].bid);
      NotOrphan(n.C(), k);
      if refs != 0 {
        InsertSorted(es, B(n.blocks[k]));
        es := InsertAt(es, B(n.blocks[k]));
      }
      todo := todo - {k};
    }
  }

  lemma NotOrphan(c: Cat, bid: nat)
    requires Orphans(c) == {} && bid in c.blocks
    ensures LiveRefs(c, bid) > 0
  {
    hide LiveRefs;
    assert bid !in Orphans(c);
  }

  // ---------- freeing tree pages ----------

  lemma PageExtent(w: World, pages: set<nat>, p: nat)
    requires Holds(w, {}, {}, pages) && p in pages
    ensures InRegion(|w.rs|, p, PAGE_SIZE) && Slots(p, PAGE_SIZE) <= Used(w.rs) && Slots(p, PAGE_SIZE) !! Meta(|w.rs|)
    ensures Meta(|w.rs|) <= Used(w.rs)
  {
    hide Own, Edges, LiveRefs, Used, Meta, Slots;
    SpacePageFree(w.rs, w.rs, w.c.blocks, pages, p);
  }

  lemma HoldsPageFree(w: World, w': World, pages: set<nat>, p: nat)
    requires Holds(w, {}, {}, pages) && p in pages && w'.c == w.c && w'.next == w.next && |w'.rs| == |w.rs|
    requires Used(w'.rs) == Used(w.rs) - Slots(p, PAGE_SIZE) && Meta(|w'.rs|) <= Used(w'.rs)
    requires w'.spool == Cleared(w.spool, p, PAGE_SIZE)
    ensures Holds(w', {}, {}, pages - {p}) && SamePayloads(w.c.blocks, w.spool, w'.spool)
  {
    hide Own, Space, Edges, LiveRefs, Used, Meta, Slots, SamePayloads, BlockSlots, PageSlots, Cleared;
    FreedPayloads(w, w', pages, p);
    assert Edges(w'.c.blocks, w'.spool) == Edges(w.c.blocks, w.spool) by {
      SelfExtents(w.c.blocks);
      EdgesSame(w.c.blocks, w.c.blocks, w.spool, w'.spool);
    }
    SpacePageFree(w.rs, w'.rs, w.c.blocks, pages, p);
  }

  lemma FreedPayloads(w: World, w': World, pages: set<nat>, p: nat)
    requires Space(w.rs, w.c.blocks, pages) && p in pages && w'.spool == Cleared(w.spool, p, PAGE_SIZE)
    ensures SamePayloads(w.c.blocks, w.spool, w'.spool)
  {
    hide Used, Meta;
    forall b | b in w.c.blocks
      ensures !(p <= w.c.blocks[b].ib < p + PAGE_SIZE)
    {
      assert Slots(w.c.blocks[b].ib, Size(w.c.blocks[b])) <= BlockSlots(w.c.blocks);
      assert Slots(p, PAGE_SIZE) <= PageSlots(pages);
      DisjointExtents(w.c.blocks[b].ib, Size(w.c.blocks[b]), p, PAGE_SIZE);
    }
  }

  /** Freeing tree pages never fails, and takes back exactly their space. */
  method FreePages(n: NDB, list: seq<nat>, ghost rest: set<nat>) returns (r: Result<()>)
    requires Holds(n.W(), {}, {}, PageSet(list) + rest) && Distinct(list) && PageSet(list) !! rest
    modifies n.store`regions, n.store`spool
    ensures r.Ok? && Holds(n.W(), {}, {}, rest) && SamePayloads(n.blocks, old(n.store.spool), n.store.spool)
    ensures |n.store.regions| == |old(n.store.regions)|
  {
    hide Holds, Used, Meta, Slots, Cleared, SamePayloads, InRegion;
    SamePayloadsSelf(n.blocks, n.store.spool);
    assert list[0..] == list;
    for i := 0 to |list|
      invariant Holds(n.W(), {}, {}, PageSet(list[i..]) + rest) && |n.store.regions| == |old(n.store.regions)|
      invariant SamePayloads(n.blocks, old(n.store.spool), n.store.spool)
    {
      assert list[i..] == [list[i]] + list[i + 1..];
      assert PageSet(list[i..]) == {list[i]} + PageSet(list[i + 1..]);
      assert list[i] !in PageSet(list[i + 1..]);
      assert list[i] in PageSet(list);
      ghost var before := n.W();
      PageExtent(before, PageSet(list[i..]) + rest, list[i]);
      r := n.store.Free(list[i], PAGE_SIZE);
      HoldsPageFree(before, n.W(), PageSet(list[i..]) + rest, list[i]);
      SamePayloadsTwice(n.blocks, old(n.store.spool), before.spool, n.store.spool);
      assert (PageSet(list[i..]) + rest) - {list[i]} == PageSet(list[i + 1..]) + rest;
    }
    assert list[|list|..] == [];
    assert PageSet(list[|list|..]) + rest == rest;
    return Ok(());
  }

  // ---------- Encode ----------

  /** An encoded catalog: the new pages and the two root references. */
  datatype Trees = Trees(img: Image, nbt: BREF, bbt: BREF)

  /** A finished tree below `root`: every page present, entries in key order. */
  ghost predicate Tree(img: Image, ptype: PType, root: BREF, s: Shape) {
    && In(img, ptype, s) && s.ref == root && Sorted(Flat(s), false)
    && (Flat(s) == [] ==> s.level == 0) && (Flat(s) != [] ==> Full(s))
  }

  /** The two trees list exactly the two maps of the catalog. */
  ghost predicate Mirrors(t: Trees, c: Cat, ns: Shape, bs: Shape) {
    && Tree(t.img, NBT, t.nbt, ns) && Tree(t.img, BBT, t.bbt, bs)
    && ListsNodes(Flat(ns), c.nodes) && ListsBlocks(Flat(bs), c.blocks)
  }

  /** Encoding drops orphans and changes nothing else that a reader of nodes and blocks can see. */
  ghost predicate Reclaimed(w: World, w': World) {
    && w'.c.nodes == w.c.nodes && w'.next == w.next && SameExtents(w.c.blocks, w'.c.blocks)
    && SamePayloads(w'.c.blocks, w.spool, w'.spool)
    && Orphans(w'.c) == {}
  }

  lemma ReclaimedFrom(w: World, w': World, w'': World)
    requires Shrunk(w, w') && Orphans(w'.c) == {} && w''.c == w'.c && w''.next == w'.next
    requires SamePayloads(w'.c.blocks, w'.spool, w''.spool)
    ensures Reclaimed(w, w'')
  {
    hide LiveRefs, Orphans;
  }

  lemma ListsOk(c: Cat, E: set<Edge>, next: nat, es: seq<Entry>, bs: seq<Entry>)
    requires Own(c, E, {}, next) && ListsNodes(es, c.nodes) && ListsBlocks(bs, c.blocks)
    ensures !BadEntry(NBT, es)
    ensures BadEntry(BBT, bs) <==> exists b | b in c.blocks :: c.blocks[b].refs == 0
  {
    hide LiveRefs, Sorted;
    if b :| b in c.blocks && c.blocks[b].refs == 0 {
      var i :| 0 <= i < |bs| && bs[i] == B(c.blocks[b]);
      assert !EntryOk(BBT, bs[i]);
    }
    assert forall i | 0 <= i < |es| :: es[i] in es;
    assert forall i | 0 <= i < |bs| :: bs[i] in bs;
  }

  lemma WorldOwn(w: World, pages: set<nat>)
    requires Holds(w, {}, {}, pages)
    ensures Own(w.c, Edges(w.c.blocks, w.spool), {}, w.next)
    ensures forall k | k in w.c.nodes :: w.c.nodes[k].nid == k
    ensures forall k | k in w.c.blocks :: w.c.blocks[k].bid == k
  {
    assert Edges(w.c.blocks, w.spool) + {} == Edges(w.c.blocks, w.spool);
    hide Space, Edges, LiveRefs, Used, Meta;
  }

  lemma AccountedJoin(a: seq<BREF>, b: seq<BREF>, pages: seq<nat>, all: seq<nat>)
    requires Accounted(a, pages, []) && Accounted(b, all, pages) && Distinct(all)
    ensures Accounted(a + b, all, [])
  {
    assert pages[0..] == pages && all[0..] == all && all == pages + all[|pages|..];
    assert PageSet(all) == PageSet(pages) + PageSet(all[|pages|..]);
    forall i, j | 0 <= i < |pages| && 0 <= j < |all| - |pages|
      ensures pages[i] != all[|pages|..][j]
    {
      assert all[i] != all[|pages| + j];
    }
    DistinctSplit(a, b);
    hide DistinctIBs, IBs;
  }

  /** A tree written first is still there after the second one. */
  lemma TreeKept(img: Image, img': Image, ptype: PType, root: BREF, s: Shape)
    requires In(img, ptype, s) && s.ref == root && Extends(img, img')
    ensures In(img', ptype, s)
  {
    RefsIn(img, ptype, s);
    InKept(img, img', ptype, s);
  }

  lemma TreeFrom(img: Image, ptype: PType, s: Shape, es: seq<Entry>)
    requires In(img, ptype, s) && Flat(s) == es && Sorted(es, false) && (es != [] ==> Full(s)) &&
      (es == [] ==> s.level == 0)
    ensures Tree(img, ptype, s.ref, s)
  {
    hide In, Flat, Sorted, Full;
  }

  /** The rollback closure: every page taken so far is free again. */
  method Rollback(em: Emitter)
    requires em.Inv()
    modifies em.n.store`regions, em.n.store`spool
    ensures em.n.Valid() && SamePayloads(em.n.blocks, old(em.n.store.spool), em.n.store.spool) &&
      em.low <= em.n.store.bidNextP
  {
    hide Holds, SamePayloads, PagesIssued;
    assert PageSet(em.n.livePages) + PageSet(em.newPages) == PageSet(em.newPages) + PageSet(em.n.livePages);
    var r := FreePages(em.n, em.newPages, PageSet(em.n.livePages));
  }

  /** Both trees, NBT first; on failure every page is given back. */
  method EncodeTrees(em: Emitter, nodeList: seq<Entry>, blockList: seq<Entry>)
    returns (r: Result<Trees>, ghost ns: Shape, ghost bs: Shape)
    requires em.Inv() && em.Steady() && em.newPages == [] && Sorted(nodeList, false) && Sorted(blockList, false)
    modifies em, em.n.store`regions, em.n.store`spool, em.n.store`lastAllocAMap, em.n.store`bidNextP
    ensures SamePayloads(em.n.blocks, old(em.n.store.spool), em.n.store.spool)
    ensures em.low <= em.n.store.bidNextP
    ensures r.Err? ==> em.n.Valid()
    ensures r.Err? <==> BadEntry(NBT, nodeList) || BadEntry(BBT, blockList)
                        || Clash(em.start, em.low, TreePages(NBT, |nodeList|) + TreePages(BBT, |blockList|))
    ensures r.Ok? ==> em.Steady() && |em.newPages| == TreePages(NBT, |nodeList|) + TreePages(BBT, |blockList|)
    ensures r.Ok? ==> em.Inv() && r.value.img == em.img && Accounted(Refs(ns) + Refs(bs), em.newPages, [])
    ensures r.Ok? ==> Tree(em.img, NBT, r.value.nbt, ns) && Flat(ns) == nodeList
    ensures r.Ok? ==> Tree(em.img, BBT, r.value.bbt, bs) && Flat(bs) == blockList
  {
    hide Holds, Refs, Accounted, In, Flat, Full, Sorted, PagesIssued, SamePayloads, BadEntry, ClashAt, Extends, Tree;
    bs := Shape(BREF(0, 0), 0, [], []);
    ghost var spool0 := em.n.store.spool;
    var nbt, bbt;
    nbt, ns := EncodeTree(em, NBT, nodeList);
    ghost var img1, pages1, spool1 := em.img, em.newPages, em.n.store.spool;
    if nbt.Err? {
      Rollback(em);
      SamePayloadsTwice(em.n.blocks, spool0, spool1, em.n.store.spool);
      return Err(nbt.error), ns, bs;
    }
    bbt, bs := EncodeTree(em, BBT, blockList);
    ghost var spool2 := em.n.store.spool;
    SamePayloadsTwice(em.n.blocks, spool0, spool1, spool2);
    if bbt.Err? {
      Rollback(em);
      SamePayloadsTwice(em.n.blocks, spool0, spool2, em.n.store.spool);
      return Err(bbt.error), ns, bs;
    }
    TreeKept(img1, em.img, NBT, nbt.value, ns);
    TreeFrom(em.img, NBT, ns, nodeList);
    TreeFrom(em.img, BBT, bs, blockList);
    AccountedJoin(Refs(ns), Refs(bs), pages1, em.newPages);
    return Ok(Trees(em.img, nbt.value, bbt.value)), ns, bs;
  }

  lemma MirrorsFrom(t: Trees, c: Cat, ns: Shape, bs: Shape)
    requires Tree(t.img, NBT, t.nbt, ns) && Tree(t.img, BBT, t.bbt, bs)
    requires ListsNodes(Flat(ns), c.nodes) && ListsBlocks(Flat(bs), c.blocks)
    ensures Mirrors(t, c, ns, bs)
  {
  }

  /** Pages the two trees of a catalog take. */
  ghost function CatalogPages(c: Cat): nat {
    TreePages(NBT, |c.nodes|) + TreePages(BBT, |c.blocks|)
  }

  /** Writes both trees on new pages, then frees the superseded ones; on failure the pages are given back. It fails
      exactly when a block's stored count is zero, or when the k-th page it would take has the k-th page identifier
      for its offset, or there is no such identifier. `start` is the state it writes from: the one before the call,
      unless that had orphans. */
  method Encode(n: NDB) returns (r: Result<Trees>, ghost ns: Shape, ghost bs: Shape, ghost start: World)
    requires n.Valid() && n.store.bidNextP > 0
    modifies n`blocks, n`dataTreeRefs, n`subnodeRefs, n`opaqueRefs, n`livePages
    modifies n.store`regions, n.store`spool, n.store`lastAllocAMap, n.store`bidNextP, n.store`nbtRoot, n.store`bbtRoot
    ensures n.Valid() && Reclaimed(old(n.W()), n.W()) && n.store.bidNextP >= old(n.store.bidNextP)
    ensures r.Err? ==>
      n.livePages == old(n.livePages) && n.store.nbtRoot == old(n.store.nbtRoot) &&
      n.store.bbtRoot == old(n.store.bbtRoot)
    ensures Shrunk(old(n.W()), start) && start.c == n.C() && (old(Orphans(n.C())) == {} ==> start == old(n.W()))
    ensures Survivors(old(n.C()), old(Edges(n.blocks, n.store.spool)), n.nodes, false, n.blocks)
    ensures r.Err? <==> (exists b | b in n.blocks :: n.blocks[b].refs == 0)
                        || Clash(start.rs, old(n.store.bidNextP), CatalogPages(n.C()))
    ensures r.Ok? ==> |n.livePages| == CatalogPages(n.C()) && n.store.bidNextP == old(n.store.bidNextP) + |n.livePages|
    ensures r.Ok? ==> |n.store.regions| == |After(start.rs, |n.livePages|)|
                      && forall k | 0 <= k < |n.livePages| :: n.livePages[k] == NthPage(start.rs, k)
    ensures r.Ok? ==>
      Mirrors(r.value, n.C(), ns, bs) && n.store.nbtRoot == r.value.nbt && n.store.bbtRoot == r.value.bbt
    ensures r.Ok? ==> Accounted(Refs(ns) + Refs(bs), n.livePages, []) && PagesIssued(r.value.img, n.store.bidNextP)
  {
    hide Holds, Own, Edges, Orphans, Refs, Accounted, Flat, Sorted, ListsNodes, ListsBlocks, PagesIssued, SamePayloads,
         Shrunk;
    hide BadEntry, Clash, Reclaimed, Tree, Mirrors, Survivors;
    var reclaimed := n.ReclaimOrphans();
    var checked := n.CheckRefCounts();
    ghost var w1, live := n.W(), PageSet(n.livePages);
    start := w1;
    WorldOwn(w1, live);
    var nodeList := SortedNodes(n.nodes);
    var blockList := OwnedBlocks(n);
    ListsOk(w1.c, Edges(w1.c.blocks, w1.spool), w1.next, nodeList, blockList);
    var em := new Emitter(n);
    r, ns, bs := EncodeTrees(em, nodeList, blockList);
    if r.Err? {
      ReclaimedFrom(old(n.W()), w1, n.W());
      return r, ns, bs, start;
    }
    MirrorsFrom(r.value, n.C(), ns, bs);
    ghost var spool2 := n.store.spool;
    PlannedPages(em);
    var freed := FreePages(n, n.livePages, PageSet(em.newPages));
    SamePayloadsTwice(n.blocks, w1.spool, spool2, n.store.spool);
    n.livePages := em.newPages;
    n.store.nbtRoot, n.store.bbtRoot := r.value.nbt, r.value.bbt;
    ReclaimedFrom(old(n.W()), w1, n.W());
  }

  lemma PlannedPages(em: Emitter)
    requires em.Steady()
    ensures em.n.store.regions == After(em.start, |em.newPages|) && em.n.store.bidNextP == em.low + |em.newPages|
    ensures forall k | 0 <= k < |em.newPages| :: em.newPages[k] == NthPage(em.start, k)
  {
    hide After, ClashAt, NthPage;
  }

  // ---------- the trees refine the maps ----------

  lemma NodeFound(es: seq<Entry>, nodes: map<nat, NBTEntry>, nid: nat, r: Result<Entry>)
    requires ListsNodes(es, nodes) && Found(es, nid, false, r)
    ensures r.Ok? <==> nid in nodes
    ensures r.Ok? ==> r.value == N(nodes[nid])
  {
    if nid in nodes {
      assert View(false, Key(N(nodes[nid]))) == nid;
    }
  }

  lemma BlockFound(es: seq<Entry>, blocks: map<nat, BBTEntry>, bid: nat, r: Result<Entry>)
    requires ListsBlocks(es, blocks) && Found(es, bid, false, r)
    ensures r.Ok? <==> bid in blocks
    ensures r.Ok? ==> r.value == B(blocks[bid])
  {
    if bid in blocks {
      assert View(false, Key(B(blocks[bid]))) == bid;
    }
  }

  lemma StripFound(es: seq<Entry>, blocks: map<nat, BBTEntry>, bid: nat, r: Result<Entry>)
    requires ListsBlocks(es, blocks) && Found(es, Strip(bid), true, r)
    ensures r.Ok? <==> exists b | b in blocks :: Strip(b) == Strip(bid)
    ensures r.Ok? ==>
      r.value.B? && r.value.b.bid in blocks && r.value.b == blocks[r.value.b.bid] && Strip(r.value.b.bid) == Strip(bid)
  {
    if b :| b in blocks && Strip(b) == Strip(bid) {
      assert View(true, Key(B(blocks[b]))) == Strip(bid);
    }
  }

  lemma StrippedApart(a: nat, b: nat, blocks: map<nat, BBTEntry>)
    requires a < b && a in blocks && b in blocks && StripDistinct(blocks) && !HasReserved(a) && !HasReserved(b)
    ensures Strip(a) < Strip(b)
  {
    StripOrders(a, b);
  }

  /** Stored block BIDs keep their order when the internal bit is cleared, unless two collide. */
  lemma SortedStrip(es: seq<Entry>, blocks: map<nat, BBTEntry>)
    requires Sorted(es, false) && ListsBlocks(es, blocks) && StripDistinct(blocks)
    requires forall b | b in blocks :: !HasReserved(b)
    ensures Sorted(es, true)
  {
    forall i, j | 0 <= i < j < |es|
      ensures View(true, Key(es[i])) < View(true, Key(es[j]))
    {
      var a, b := es[i], es[j];
      assert a in es && b in es && View(false, Key(a)) < View(false, Key(b));
      assert a.b.bid < b.b.bid && !HasReserved(a.b.bid) && !HasReserved(b.b.bid);
      StrippedApart(a.b.bid, b.b.bid, blocks);
    }
  }

  /** TreeImage.LookupNode finds exactly the nodes of the catalog. */
  method LookupNode(t: Trees, nid: nat, ghost c: Cat, ghost ns: Shape, ghost bs: Shape) returns (r: Result<NBTEntry>)
    requires Mirrors(t, c, ns, bs)
    ensures r.Ok? <==> nid in c.nodes
    ensures r.Ok? ==> r.value == c.nodes[nid]
  {
    hide In, Full, Sorted, Found, ListsNodes, ListsBlocks;
    var e := Lookup(t.img, NBT, t.nbt, nid, ns);
    NodeFound(Flat(ns), c.nodes, nid, e);
    return if e.Ok? then Ok(e.value.n) else Err(InvariantBroken);
  }

  method LookupBlock(t: Trees, bid: nat, ghost c: Cat, ghost ns: Shape, ghost bs: Shape) returns (r: Result<BBTEntry>)
    requires Mirrors(t, c, ns, bs)
    ensures r.Ok? <==> bid in c.blocks
    ensures r.Ok? ==> r.value == c.blocks[bid]
  {
    hide In, Full, Sorted, Found, ListsNodes, ListsBlocks;
    var e := Lookup(t.img, BBT, t.bbt, bid, bs);
    BlockFound(Flat(bs), c.blocks, bid, e);
    return if e.Ok? then Ok(e.value.b) else Err(InvariantBroken);
  }

  /** The package reader agrees on nodes. */
  method ReadNode(t: Trees, nid: nat, ghost c: Cat, ghost ns: Shape, ghost bs: Shape) returns (r: Result<NBTEntry>)
    requires Mirrors(t, c, ns, bs)
    ensures r.Ok? <==> nid in c.nodes
    ensures r.Ok? ==> r.value == c.nodes[nid]
  {
    hide In, Full, Sorted, Found, ListsNodes, ListsBlocks;
    var e := ReaderSearch(t.img, NBT, t.nbt, nid, false, ns);
    NodeFound(Flat(ns), c.nodes, nid, e);
    return if e.Ok? then Ok(e.value.n) else Err(InvariantBroken);
  }

  /** And on blocks, although it compares BIDs with the internal bit cleared. */
  method ReadBlock(t: Trees, bid: nat, ghost c: Cat, ghost ns: Shape, ghost bs: Shape) returns (r: Result<BBTEntry>)
    requires Mirrors(t, c, ns, bs) && StripDistinct(c.blocks) && forall b | b in c.blocks :: !HasReserved(b)
    ensures r.Ok? <==> exists b | b in c.blocks :: Strip(b) == Strip(bid)
    ensures bid in c.blocks ==> r == Ok(c.blocks[bid])
  {
    SortedStrip(Flat(bs), c.blocks);
    hide In, Full, Sorted, Found;
    var e := ReaderSearch(t.img, BBT, t.bbt, Strip(bid), true, bs);
    StripFound(Flat(bs), c.blocks, bid, e);
    return if e.Ok? then Ok(e.value.b) else Err(InvariantBroken);
  }
}
