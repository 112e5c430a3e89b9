/** Encode: writing the catalog as two B-trees on freshly allocated pages (ndb.go). */
module TreeEncoder {
  import opened Common
  import opened Geometry
  import opened Blocks
  import opened Allocation
  import opened Catalog
  import opened NodeDatabase
  import opened BTree
  import opened PagePlan

  // ---------- forests of finished pages ----------

  /** Full trees of one level, listing `es` from left to right. */
  ghost predicate Grove(img: Image, ptype: PType, level: nat, ss: seq<Shape>, es: seq<Entry>) {
    && InAll(img, ptype, ss) && FlatAll(ss) == es
    && forall i | 0 <= i < |ss| :: Full(ss[i]) && ss[i].level == level && ss[i].ref.bid != 0
  }

  function KidList(ss: seq<Shape>): seq<BTEntry> {
    seq(|ss|, i requires 0 <= i < |ss| => BTEntry(FirstKey(ss[i]), ss[i].ref))
  }

  ghost predicate DistinctIBs(refs: seq<BREF>) {
    forall i, j | 0 <= i < j < |refs| :: refs[i].ib != refs[j].ib
  }

  lemma GroveKept(img: Image, img': Image, ptype: PType, level: nat, ss: seq<Shape>, es: seq<Entry>, ib: nat, p: Page)
    requires Grove(img, ptype, level, ss, es) && ib !in img && img' == img[ib := p]
    ensures Grove(img', ptype, level, ss, es)
  {
    RefsAllIn(img, ptype, ss);
    InAllKept(img, img', ptype, ss);
  }

  lemma InAllSnoc(img: Image, ptype: PType, ss: seq<Shape>, s: Shape)
    requires InAll(img, ptype, ss) && In(img, ptype, s)
    ensures InAll(img, ptype, ss + [s])
  {
    hide In;
  }

  lemma LeafShapeIn(img: Image, ptype: PType, ref: BREF, es: seq<Entry>)
    requires ref.ib in img && img[ref.ib] == Page(ref.bid, ptype, 0, es, []) && PageOk(img[ref.ib])
    ensures In(img, ptype, Shape(ref, 0, es, []))
  {
  }

  lemma GroveLeaf(img: Image, img': Image, ptype: PType, ss: seq<Shape>, es: seq<Entry>, ref: BREF, chunk: seq<Entry>)
    requires Grove(img, ptype, 0, ss, es) && ref.ib !in img && ref.bid != 0 && chunk != []
    requires img' == img[ref.ib := Page(ref.bid, ptype, 0, chunk, [])] && PageOk(img'[ref.ib])
    ensures Grove(img', ptype, 0, ss + [Shape(ref, 0, chunk, [])], es + chunk)
  {
    var s := Shape(ref, 0, chunk, []);
    GroveKept(img, img', ptype, 0, ss, es, ref.ib, Page(ref.bid, ptype, 0, chunk, []));
    LeafShapeIn(img', ptype, ref, chunk);
    FlatAllAppend(ss, [s]);
    FlatAllOne(s);
    assert Full(s) && Flat(s) == chunk;
    hide FlatAll, Full, In, PageOk;
    InAllSnoc(img', ptype, ss, s);
  }

  lemma NodeShapeIn(img: Image, ptype: PType, ref: BREF, level: nat, group: seq<Shape>)
    requires ref.ib in img && img[ref.ib] == Page(ref.bid, ptype, level + 1, [], KidList(group)) && PageOk(img[ref.ib])
    requires InAll(img, ptype, group)
    ensures In(img, ptype, Shape(ref, level + 1, [], group))
  {
    hide PageOk, FirstKey;
  }

  lemma GroveNode(img: Image, img': Image, ptype: PType, level: nat, next: seq<Shape>, es: seq<Entry>,
                  group: seq<Shape>, ref: BREF)
    requires Grove(img, ptype, level + 1, next, es) && Grove(img, ptype, level, group, FlatAll(group))
    requires ref.ib !in img && ref.bid != 0 && group != []
    requires img' == img[ref.ib := Page(ref.bid, ptype, level + 1, [], KidList(group))] && PageOk(img'[ref.ib])
    ensures Grove(img', ptype, level + 1, next + [Shape(ref, level + 1, [], group)], es + FlatAll(group))
  {
    var p := Page(ref.bid, ptype, level + 1, [], KidList(group));
    var s := Shape(ref, level + 1, [], group);
    GroveKept(img, img', ptype, level + 1, next, es, ref.ib, p);
    GroveKept(img, img', ptype, level, group, FlatAll(group), ref.ib, p);
    NodeShapeIn(img', ptype, ref, level, group);
    FlatAllAppend(next, [s]);
    FlatAllOne(s);
    assert Full(s) && Flat(s) == FlatAll(group);
    hide FlatAll, Full, In, PageOk, KidList;
    InAllSnoc(img', ptype, next, s);
  }

  lemma GroveGroup(img: Image, ptype: PType, level: nat, ss: seq<Shape>, es: seq<Entry>, lo: nat, hi: nat)
    requires Grove(img, ptype, level, ss, es) && lo <= hi <= |ss|
    ensures Grove(img, ptype, level, ss[lo..hi], FlatAll(ss[lo..hi]))
    ensures FlatAll(ss[..hi]) == FlatAll(ss[..lo]) + FlatAll(ss[lo..hi])
    ensures RefsAll(ss[lo..]) == RefsAll(ss[lo..hi]) + RefsAll(ss[hi..])
    ensures KidList(ss)[lo..hi] == KidList(ss[lo..hi])
  {
    hide In, Full, FlatAll, RefsAll, FirstKey;
    assert ss[..hi] == ss[..lo] + ss[lo..hi];
    FlatAllAppend(ss[..lo], ss[lo..hi]);
    assert ss[lo..] == ss[lo..hi] + ss[hi..];
    FlatAllAppend(ss[lo..hi], ss[hi..]);
    assert forall i | 0 <= i < hi - lo :: ss[lo..hi][i] == ss[lo + i];
  }

  /** The pages of intermediate levels pass the encoder's checks because first keys rise. */
  lemma NodePageOk(ptype: PType, bid: nat, level: nat, ss: seq<Shape>, lo: nat, hi: nat, img: Image, es: seq<Entry>)
    requires Grove(img, ptype, level, ss, es) && Sorted(es, false) && lo < hi <= |ss| && hi - lo <= MAX_NONLEAF
    ensures PageOk(Page(bid, ptype, level + 1, [], KidList(ss[lo..hi])))
  {
    hide FlatAll, In, Flat, FirstKey;
    forall i | lo < i < hi
      ensures FirstKey(ss[i - 1]) < FirstKey(ss[i])
    {
      FirstKeysRise(ss, i - 1, i, false);
    }
    var kids := KidList(ss[lo..hi]);
    assert forall i | 0 <= i < hi - lo :: kids[i] == BTEntry(FirstKey(ss[lo + i]), ss[lo + i].ref);
  }

  lemma LeafPageOk(ptype: PType, bid: nat, es: seq<Entry>, lo: nat, hi: nat)
    requires Sorted(es, false) && lo <= hi <= |es| && hi - lo <= MaxLeaf(ptype)
    ensures PageOk(Page(bid, ptype, 0, es[lo..hi], [])) <==> forall i | lo <= i < hi :: EntryOk(ptype, es[i])
  {
    hide EntryOk, Key;
    assert forall i | 0 <= i < hi - lo :: es[lo..hi][i] == es[lo + i];
    assert forall i | lo <= i < hi :: es[i] == es[lo..hi][i - lo];
    forall i | 0 < i < hi - lo
      ensures Key(es[lo..hi][i - 1]) < Key(es[lo..hi][i])
    {
      assert View(false, Key(es[lo + i - 1])) < View(false, Key(es[lo + i]));
    }
  }

  lemma DistinctSplit(a: seq<BREF>, b: seq<BREF>)
    ensures IBs(a + b) == IBs(a) + IBs(b)
    ensures DistinctIBs(a + b) <==> DistinctIBs(a) && DistinctIBs(b) && IBs(a) !! IBs(b)
  {
    var c := a + b;
    assert forall i | 0 <= i < |a| :: c[i] == a[i];
    assert forall i | 0 <= i < |b| :: c[|a| + i] == b[i];
    assert forall r | r in c :: r in a || r in b;
    if DistinctIBs(c) {
      forall i, j | 0 <= i < |a| && 0 <= j < |b|
        ensures a[i].ib != b[j].ib
      {
        assert c[i].ib != c[|a| + j].ib;
      }
      forall i, j | 0 <= i < j < |b|
        ensures b[i].ib != b[j].ib
      {
        assert c[|a| + i].ib != c[|a| + j].ib;
      }
    }
    if DistinctIBs(a) && DistinctIBs(b) && IBs(a) !! IBs(b) {
      forall i, j | 0 <= i < j < |c|
        ensures c[i].ib != c[j].ib
      {
        if i < |a| <= j {
          assert c[i].ib in IBs(a) && c[j].ib in IBs(b);
        }
      }
    }
  }

  lemma DistinctInsert(a: seq<BREF>, r: BREF, b: seq<BREF>)
    requires DistinctIBs(a + b) && r.ib !in IBs(a + b)
    ensures DistinctIBs(a + [r] + b) && IBs(a + [r] + b) == IBs(a + b) + {r.ib}
  {
    assert DistinctIBs([r]) && IBs([r]) == {r.ib};
    hide DistinctIBs, IBs;
    DistinctSplit(a, b);
    DistinctSplit(a, [r]);
    DistinctSplit(a + [r], b);
  }

  // ---------- writing one page ----------

  predicate MetadataPage(ib: nat) {
    || ib == DLIST_OFFSET
    || AMapIndexForOffset(ib).None?
    || exists j | 0 <= j < |RegionMapPages(AMapIndexForOffset(ib).value)| ::
         RegionMapPages(AMapIndexForOffset(ib).value)[j].offset == ib
  }

  /** An allocated page never sits on a map page. */
  lemma PageNotMetadata(count: nat, ib: nat)
    requires InRegion(count, ib, PAGE_SIZE) && Slots(ib, PAGE_SIZE) !! Meta(count)
    ensures !MetadataPage(ib)
  {
    var i := AMapIndexForOffset(ib).value;
    var pages := RegionMapPages(i);
    forall j | 0 <= j < |pages|
      ensures pages[j].offset != ib
    {
      var p := pages[j].offset;
      var g := SlotNumber(p);
      assert p - FIRST_AMAP == BYTES_PER_SLOT * (SLOTS_PER_AMAP * i + SLOTS_PER_PAGE * j);
      assert g / SLOTS_PER_AMAP == i && g % SLOTS_PER_AMAP < MetaCount(i);
      assert g in Meta(count);
      assert p == ib ==> Covers(ib, PAGE_SIZE, g);
    }
  }

  /** Allocating a tree page touches no block and no payload. */
  lemma HoldsPage(w: World, w': World, pages: set<nat>, p: nat)
    requires Holds(w, {}, {}, pages) && w'.c == w.c && w'.next == w.next
    requires Allocated(w.rs, w'.rs, p, PAGE_SIZE) && Meta(|w'.rs|) <= Used(w'.rs)
    requires KeptOutside(w.spool, w'.spool, w.rs, p, PAGE_SIZE)
    ensures p !in pages && Holds(w', {}, {}, pages + {p}) && SamePayloads(w.c.blocks, w.spool, w'.spool)
    ensures InRegion(|w'.rs|, p, PAGE_SIZE) && Slots(p, PAGE_SIZE) !! Meta(|w'.rs|)
  {
    hide Own, Edges, LiveRefs, Used, Meta, Slots, KeptOutside, SamePayloads, BlockSlots, PageSlots, Space, Allocated;
    assert SamePayloads(w.c.blocks, w.spool, w'.spool) by {
      PagePayloads(w, w', pages, p);
    }
    assert Edges(w'.c.blocks, w'.spool) == Edges(w.c.blocks, w.spool) by {
      SelfExtents(w.c.blocks);
      EdgesSame(w.c.blocks, w.c.blocks, w.spool, w'.spool);
    }
    AllocatedParts(w.rs, w'.rs, p, PAGE_SIZE);
    SpacePage(w.rs, w'.rs, w.c.blocks, pages, p);
  }

  lemma PagePayloads(w: World, w': World, pages: set<nat>, p: nat)
    requires Space(w.rs, w.c.blocks, pages) && Allocated(w.rs, w'.rs, p, PAGE_SIZE)
    requires KeptOutside(w.spool, w'.spool, w.rs, p, PAGE_SIZE)
    ensures SamePayloads(w.c.blocks, w.spool, w'.spool)
  {
    hide Used, Meta, Slots, KeptOutside, SamePayloads, BlockSlots;
    forall b | b in w.c.blocks
      ensures Slots(w.c.blocks[b].ib, Size(w.c.blocks[b])) !! Slots(p, PAGE_SIZE)
    {
      BlockExtentUsed(w.rs, w.c.blocks, pages, b);
    }
    ClearedElsewhere(w.rs, w.c.blocks, pages, w.spool, w'.spool, p, PAGE_SIZE);
  }

  /** Page BIDs come from one counter: distinct, below it, and none equals its own offset. */
  ghost predicate PagesIssued(img: Image, next: nat) {
    && (forall ib | ib in img ::
        0 < img[ib].bid < next && img[ib].bid != ib && ib % PAGE_SIZE == 0 && !MetadataPage(ib))
    && forall ib, ib' | ib in img && ib' in img && ib != ib' :: img[ib].bid != img[ib'].bid
  }

  lemma NoPages(next: nat)
    ensures PagesIssued(map[], next)
  {
    hide MetadataPage;
  }

  /** After `pages`: all pages and identifiers as planned, and none met. */
  ghost predicate OnPlan(start: seq<Bitmap>, low: nat, rs: seq<Bitmap>, next: nat, pages: seq<nat>) {
    && next == low + |pages| && rs == After(start, |pages|)
    && forall k: nat | k < |pages| :: pages[k] == NthPage(start, k) && !ClashAt(start, low, k)
  }

  lemma PlanStarts(rs: seq<Bitmap>, next: nat)
    ensures OnPlan(rs, next, rs, next, [])
  {
  }

  /** One more page: planned, and no clash unless it is refused. */
  lemma PlanStep(start: seq<Bitmap>, low: nat, rs: seq<Bitmap>, next: nat, pages: seq<nat>, ib: nat)
    requires OnPlan(start, low, rs, next, pages) && ib == FirstPage(rs)
    ensures ClashAt(start, low, |pages|) <==> next + 1 >= U64 || ib == next
    ensures !ClashAt(start, low, |pages|) ==> OnPlan(start, low, PageTaken(rs), next + 1, pages + [ib])
  {
    hide FirstPage, PageTaken;
  }

  /** The state Encode's page allocator closes over: the image and the pages taken so far. */
  class Emitter {
    const n: NDB
    ghost const low: nat
    ghost const start: seq<Bitmap>
    var img: Image
    var newPages: seq<nat>

    ghost predicate Inv()
      reads this, n, n.store
    {
      && Holds(n.W(), {}, {}, PageSet(n.livePages) + PageSet(newPages))
      && n.nextBlock == n.store.bidNextB && n.store.bidNextP >= low > 0
      && Distinct(n.livePages) && Distinct(newPages) && PageSet(n.livePages) !! PageSet(newPages)
      && img.Keys <= PageSet(newPages) && PagesIssued(img, n.store.bidNextP)
    }

    /** So far every page and identifier was the planned one, and none met. */
    ghost predicate Steady()
      reads this, n, n.store
    {
      OnPlan(start, low, n.store.regions, n.store.bidNextP, newPages)
    }

    constructor (n: NDB)
      requires n.Valid() && n.store.bidNextP > 0
      ensures Inv() && Steady() && this.n == n && low == n.store.bidNextP && start == n.store.regions
      ensures img == map[] && newPages == []
    {
      this.n, low, start, img, newPages := n, n.store.bidNextP, n.store.regions, map[], [];
      new;
      PlanStarts(n.store.regions, n.store.bidNextP);
      hide Holds, PagesIssued, OnPlan;
      NoPages(n.store.bidNextP);
      assert PageSet(n.livePages) + PageSet([]) == PageSet(n.livePages);
    }

    /** The alloc closure: fails exactly when the page counter is exhausted or meets the page's own offset. */
    method Alloc(ptype: PType, level: nat, leaves: seq<Entry>, kids: seq<BTEntry>) returns (r: Result<BREF>)
      requires Inv() && Steady()
      modifies this, n.store`regions, n.store`spool, n.store`lastAllocAMap, n.store`bidNextP
      ensures Inv() && SamePayloads(n.blocks, old(n.store.spool), n.store.spool)
      ensures |newPages| == |old(newPages)| + 1 && old(newPages) < newPages
      ensures r.Err? <==> old(n.store.bidNextP) + 1 >= U64 || newPages[|newPages| - 1] == old(n.store.bidNextP)
      ensures (r.Err? <==> ClashAt(start, low, |old(newPages)|)) && (r.Ok? ==> Steady())
      ensures Extends(old(img), img) && (r.Err? ==> img == old(img))
      ensures r.Ok? ==> r.value.ib !in old(newPages) && newPages == old(newPages) + [r.value.ib] && r.value.bid > 0
      ensures r.Ok? ==> img == old(img)[r.value.ib := Page(r.value.bid, ptype, level, leaves, kids)]
    {
      hide Own, Space, Edges, LiveRefs, Used, Meta, Slots, KeptOutside, Allocated, LowestAt, Base, Marked, Markable,
           Holds;
      hide SamePayloads, MetadataPage, FirstPage, PageTaken, OnPlan, ClashAt;
      ghost var pages := PageSet(n.livePages) + PageSet(newPages);
      StoreValid(n.W(), pages);
      var page := n.store.AllocatePage();
      var ib := page.value;
      PlannedPage(old(n.store.regions), ib);
      PlanStep(start, low, old(n.store.regions), n.store.bidNextP, newPages, ib);
      HoldsPage(old(n.W()), n.W(), pages, ib);
      PageNotMetadata(|n.store.regions|, ib);
      newPages := newPages + [ib];
      assert PageSet(newPages) == PageSet(old(newPages)) + {ib};
      assert pages + {ib} == PageSet(n.livePages) + PageSet(newPages);
      var bid := n.store.TakePageBID();
      if bid.Err? {
        return Err(bid.error);
      }
      if bid.value == ib {
        return Err(InvariantBroken);
      }
      if ib % PAGE_SIZE != 0 {
        return Err(InvariantBroken);
      }
      if MetadataPage(ib) {
        return Err(InvariantBroken);
      }
      img := img[ib := Page(bid.value, ptype, level, leaves, kids)];
      return Ok(BREF(bid.value, ib));
    }
  }

  lemma StoreValid(w: World, pages: set<nat>)
    requires Holds(w, {}, {}, pages)
    ensures Meta(|w.rs|) <= Used(w.rs)
  {
    hide Own, Space, Edges, LiveRefs, Used, Meta;
  }

  // ---------- one tree ----------

  /** Everything allocated since `base` is a page of the finished trees, each once. */
  ghost predicate Accounted(refs: seq<BREF>, newPages: seq<nat>, base: seq<nat>) {
    DistinctIBs(refs) && base <= newPages && IBs(refs) == PageSet(newPages[|base|..])
  }

  lemma AccountedStep(a: seq<BREF>, r: BREF, b: seq<BREF>, newPages: seq<nat>, base: seq<nat>)
    requires Accounted(a + b, newPages, base) && r.ib !in newPages
    ensures Accounted(a + [r] + b, newPages + [r.ib], base)
  {
    assert (newPages + [r.ib])[|base|..] == newPages[|base|..] + [r.ib];
    assert PageSet(newPages[|base|..] + [r.ib]) == PageSet(newPages[|base|..]) + {r.ib};
    assert forall x | x in newPages[|base|..] :: x in newPages;
    DistinctInsert(a, r, b);
  }

  function Pow2(k: nat): (p: nat)
    ensures p > 0
  {
    if k == 0 then 1 else 2 * Pow2(k - 1)
  }

  lemma {:induction false} Pow2Grows(a: nat, b: nat)
    requires a <= b
    ensures Pow2(a) <= Pow2(b)
    decreases b - a
  {
    if a < b {
      Pow2Grows(a, b - 1);
    }
  }

  /** Each level at least halves the number of pages, so 64-bit counts never reach level 64. */
  lemma LevelBound(count: nat, count': nat, level: nat, n: nat)
    requires 2 * count' <= count && count * Pow2(level) <= n
    ensures count' * Pow2(level + 1) <= n
  {
    var p := Pow2(level);
    assert count' * Pow2(level + 1) == 2 * count' * p;
    assert 2 * count' * p <= count * p;
  }

  /** Some entry cannot be encoded. */
  ghost predicate BadEntry(ptype: PType, es: seq<Entry>) {
    exists i | 0 <= i < |es| :: !EntryOk(ptype, es[i])
  }

  /** One of the `count` pages after the first `from` clashes. */
  ghost predicate ClashFrom(em: Emitter, from: nat, count: nat) {
    exists k: nat :: from <= k < from + count && ClashAt(em.start, em.low, k)
  }

  lemma NoClashSoFar(em: Emitter, from: nat, count: nat)
    requires em.Steady() && from + count <= |em.newPages|
    ensures !ClashFrom(em, from, count)
  {
    hide ClashAt, After;
  }

  lemma ExtendsSelf(img: Image)
    ensures Extends(img, img)
  {
  }

  lemma ExtendsTwice(a: Image, b: Image, c: Image)
    requires Extends(a, b) && Extends(b, c)
    ensures Extends(a, c)
  {
  }

  lemma NoGroups(ptype: PType)
    ensures Groups(0, MaxLeaf(ptype)) == 0 && MaxLeaf(ptype) > 0
  {
  }

  /** One more group of leaves. */
  lemma GroupsStep(ptype: PType, i: nat, n: nat, k: nat)
    requires i < n && i == MaxLeaf(ptype) * k
    ensures var m := MaxLeaf(ptype); var end := if i + m > n then n else i + m;
      && m > 0 && Groups(end, m) == k + 1 <= Groups(n, m) && (end == n || end == m * (k + 1))
  {
  }

  lemma LeafAdded(img: Image, img': Image, ptype: PType, ss: seq<Shape>, es: seq<Entry>, lo: nat, hi: nat, ref: BREF,
                  pages: seq<nat>, base: seq<nat>)
    requires lo < hi <= |es| && Grove(img, ptype, 0, ss, es[..lo]) && Accounted(RefsAll(ss), pages, base)
    requires img.Keys <= PageSet(pages) && ref.ib !in pages && ref.bid != 0
    requires img' == img[ref.ib := Page(ref.bid, ptype, 0, es[lo..hi], [])] && PageOk(img'[ref.ib])
    ensures var ss' := ss + [Shape(ref, 0, es[lo..hi], [])];
      && Grove(img', ptype, 0, ss', es[..hi]) && Accounted(RefsAll(ss'), pages + [ref.ib], base)
      && KidList(ss') == KidList(ss) + [BTEntry(Key(es[lo]), ref)]
  {
    hide Grove, RefsAll, FlatAll, Accounted, PageOk;
    var s := Shape(ref, 0, es[lo..hi], []);
    FreshPage(img, pages, ref.ib);
    GroveLeaf(img, img', ptype, ss, es[..lo], ref, es[lo..hi]);
    assert es[..lo] + es[lo..hi] == es[..hi];
    LeafRefs(ss, s);
    assert RefsAll(ss) + [] == RefsAll(ss) && RefsAll(ss) + [ref] + [] == RefsAll(ss) + [ref];
    AccountedStep(RefsAll(ss), ref, [], pages, base);
    KidListSnoc(ss, s);
  }

  /** The leaf pages of a non-empty sorted list. */
  method EncodeLeaves(em: Emitter, ptype: PType, es: seq<Entry>) returns (r: Result<seq<BTEntry>>, ghost ss: seq<Shape>)
    requires em.Inv() && em.Steady() && es != [] && Sorted(es, false)
    modifies em, em.n.store`regions, em.n.store`spool, em.n.store`lastAllocAMap, em.n.store`bidNextP
    ensures em.Inv() && SamePayloads(em.n.blocks, old(em.n.store.spool), em.n.store.spool)
    ensures old(em.newPages) <= em.newPages && Extends(old(em.img), em.img)
    ensures r.Err? <==> BadEntry(ptype, es) || ClashFrom(em, |old(em.newPages)|, Groups(|es|, MaxLeaf(ptype)))
    ensures r.Ok? ==> em.Steady() && |ss| == Groups(|es|, MaxLeaf(ptype)) && |em.newPages| == |old(em.newPages)| + |ss|
    ensures r.Ok? ==> ss != [] && r.value == KidList(ss) && Grove(em.img, ptype, 0, ss, es) && |ss| <= |es|
    ensures r.Ok? ==> Accounted(RefsAll(ss), em.newPages, old(em.newPages))
  {
    hide Grove, RefsAll, Accounted, Sorted, EntryOk, PageOk, Holds, SamePayloads, PagesIssued, ClashAt, OnPlan,
         Extends, FlatAll, FirstKey, Groups, MaxLeaf;
    ExtendsSelf(em.img);
    NoGroups(ptype);
    var childRefs: seq<BTEntry> := [];
    ss := [];
    var i := 0;
    NoGrove(em.img, ptype, es, em.newPages);
    SamePayloadsSelf(em.n.blocks, em.n.store.spool);
    while i < |es|
      invariant i <= |es| && em.Inv() && childRefs == KidList(ss) && (ss == [] ==> i == 0)
      invariant em.Steady() && |em.newPages| == |old(em.newPages)| + |ss| && (i == |es| || i == MaxLeaf(ptype) * |ss|)
      invariant |ss| == Groups(i, MaxLeaf(ptype)) && forall j | 0 <= j < i :: EntryOk(ptype, es[j])
      invariant |ss| <= i && Grove(em.img, ptype, 0, ss, es[..i]) &&
        Accounted(RefsAll(ss), em.newPages, old(em.newPages))
      invariant old(em.newPages) <= em.newPages && Extends(old(em.img), em.img)
      invariant SamePayloads(em.n.blocks, old(em.n.store.spool), em.n.store.spool)
      decreases |es| - i
    {
      GroupsStep(ptype, i, |es|, |ss|);
      var end := if i + MaxLeaf(ptype) > |es| then |es| else i + MaxLeaf(ptype);
      var chunk := es[i..end];
      LeafPageOk(ptype, 0, es, i, end);
      if !PageOk(Page(0, ptype, 0, chunk, [])) {
        return Err(InvalidArg), ss;
      }
      ghost var img0, spool0, pages0 := em.img, em.n.store.spool, em.newPages;
      var ref := em.Alloc(ptype, 0, chunk, []);
      ExtendsTwice(old(em.img), img0, em.img);
      SamePayloadsTwice(em.n.blocks, old(em.n.store.spool), spool0, em.n.store.spool);
      if ref.Err? {
        return Err(ref.error), ss;
      }
      LeafPageOk(ptype, ref.value.bid, es, i, end);
      LeafAdded(img0, em.img, ptype, ss, es, i, end, ref.value, pages0, old(em.newPages));
      childRefs := childRefs + [BTEntry(Key(chunk[0]), ref.value)];
      ss := ss + [Shape(ref.value, 0, chunk, [])];
      i := end;
    }
    assert es[..i] == es;
    NoClashSoFar(em, |old(em.newPages)|, |ss|);
    return Ok(childRefs), ss;
  }

  ghost predicate Extends(img: Image, img': Image) {
    forall ib | ib in img :: ib in img' && img'[ib] == img[ib]
  }

  lemma NoGrove(img: Image, ptype: PType, es: seq<Entry>, newPages: seq<nat>)
    ensures Grove(img, ptype, 0, [], es[..0]) && Accounted(RefsAll([]), newPages, newPages)
  {
    FlatAllNone();
    assert newPages[|newPages|..] == [] && PageSet([]) == {};
  }

  lemma SamePayloadsSelf(blocks: map<nat, BBTEntry>, spool: map<nat, Stored>)
    ensures SamePayloads(blocks, spool, spool)
  {
  }

  lemma SamePayloadsTwice(blocks: map<nat, BBTEntry>, a: map<nat, Stored>, b: map<nat, Stored>, c: map<nat, Stored>)
    requires SamePayloads(blocks, a, b) && SamePayloads(blocks, b, c)
    ensures SamePayloads(blocks, a, c)
  {
  }

  lemma LeafRefs(ss: seq<Shape>, s: Shape)
    requires s.level == 0
    ensures RefsAll(ss + [s]) == RefsAll(ss) + [s.ref]
  {
    FlatAllAppend(ss, [s]);
    FlatAllOne(s);
    hide RefsAll, FlatAll;
    assert [s.ref] + [] == [s.ref];
  }

  lemma KidListSnoc(ss: seq<Shape>, s: Shape)
    ensures KidList(ss + [s]) == KidList(ss) + [BTEntry(FirstKey(s), s.ref)]
  {
    hide FirstKey;
  }

  /** The non-leaf entry a level takes over is its first child's first key. */
  lemma GroupRefs(next: seq<Shape>, ref: BREF, level: nat, group: seq<Shape>, rest: seq<BREF>)
    ensures RefsAll(next + [Shape(ref, level + 1, [], group)]) + rest == RefsAll(next) + [ref] + (RefsAll(group) + rest)
    ensures KidList(next + [Shape(ref, level + 1, [], group)]) ==
      KidList(next) + [BTEntry(if group == [] then 0 else FirstKey(group[0]), ref)]
  {
    var s := Shape(ref, level + 1, [], group);
    FlatAllAppend(next, [s]);
    FlatAllOne(s);
    KidListSnoc(next, s);
    assert Refs(s) == [ref] + RefsAll(group);
    hide RefsAll, FlatAll, Refs, FirstKey, KidList;
  }

  lemma NoGroup(img: Image, ptype: PType, level: nat, ss: seq<Shape>)
    ensures Grove(img, ptype, level, [], FlatAll(ss[..0]))
    ensures RefsAll([]) + RefsAll(ss[0..]) == RefsAll(ss)
  {
    FlatAllNone();
    assert ss[..0] == [] && ss[0..] == ss;
  }

  lemma EndGroups(ss: seq<Shape>)
    ensures FlatAll(ss[..|ss|]) == FlatAll(ss) && RefsAll(ss[|ss|..]) == []
  {
    FlatAllNone();
    assert ss[..|ss|] == ss && ss[|ss|..] == [];
  }

  /** One level up: groups of at most twenty pages get a parent each. */
  method EncodeLevel(em: Emitter, ptype: PType, level: nat, childRefs: seq<BTEntry>,
                     ghost ss: seq<Shape>, ghost es: seq<Entry>, ghost base: seq<nat>)
    returns (r: Result<seq<BTEntry>>, ghost next: seq<Shape>)
    requires em.Inv() && em.Steady() && |childRefs| > 1 && childRefs == KidList(ss) && Sorted(es, false)
    requires Grove(em.img, ptype, level, ss, es) && Accounted(RefsAll(ss), em.newPages, base)
    modifies em, em.n.store`regions, em.n.store`spool, em.n.store`lastAllocAMap, em.n.store`bidNextP
    ensures em.Inv() && SamePayloads(em.n.blocks, old(em.n.store.spool), em.n.store.spool)
    ensures old(em.newPages) <= em.newPages && Extends(old(em.img), em.img)
    ensures r.Err? <==> ClashFrom(em, |old(em.newPages)|, Groups(|childRefs|, MAX_NONLEAF))
    ensures r.Ok? ==>
      em.Steady() && |next| == Groups(|childRefs|, MAX_NONLEAF) && |em.newPages| == |old(em.newPages)| + |next|
    ensures r.Ok? ==> next != [] && r.value == KidList(next) && 2 * |next| <= |childRefs|
    ensures r.Ok? ==> Grove(em.img, ptype, level + 1, next, es) && Accounted(RefsAll(next), em.newPages, base)
  {
    hide Grove, RefsAll, FlatAll, Accounted, Sorted, PageOk, Holds, SamePayloads, PagesIssued, FirstKey, ClashAt,
         OnPlan, Extends;
    ExtendsSelf(em.img);
    var out: seq<BTEntry> := [];
    next := [];
    var i := 0;
    NoGroup(em.img, ptype, level + 1, ss);
    SamePayloadsSelf(em.n.blocks, em.n.store.spool);
    while i < |childRefs|
      invariant i <= |childRefs| && em.Inv() && out == KidList(next) && (next == [] <==> i == 0)
      invariant em.Steady() && |em.newPages| == |old(em.newPages)| + |next| && |next| == Groups(i, MAX_NONLEAF)
      invariant MAX_NONLEAF * |next| == i || (i == |childRefs| && MAX_NONLEAF * |next| < i + MAX_NONLEAF)
      invariant Grove(em.img, ptype, level, ss, es) && Grove(em.img, ptype, level + 1, next, FlatAll(ss[..i]))
      invariant Accounted(RefsAll(next) + RefsAll(ss[i..]), em.newPages, base)
      invariant old(em.newPages) <= em.newPages && Extends(old(em.img), em.img)
      invariant SamePayloads(em.n.blocks, old(em.n.store.spool), em.n.store.spool)
      decreases |childRefs| - i
    {
      var end := if i + MAX_NONLEAF > |childRefs| then |childRefs| else i + MAX_NONLEAF;
      ghost var group := ss[i..end];
      var chunk := childRefs[i..end];
      GroveGroup(em.img, ptype, level, ss, es, i, end);
      NodePageOk(ptype, 0, level, ss, i, end, em.img, es);
      if !PageOk(Page(0, ptype, level + 1, [], chunk)) {
        return Err(InvalidArg), next;
      }
      ghost var img0, spool0, pages0 := em.img, em.n.store.spool, em.newPages;
      var ref := em.Alloc(ptype, level + 1, [], chunk);
      ExtendsTwice(old(em.img), img0, em.img);
      SamePayloadsTwice(em.n.blocks, old(em.n.store.spool), spool0, em.n.store.spool);
      if ref.Err? {
        return Err(ref.error), next;
      }
      NodePageOk(ptype, ref.value.bid, level, ss, i, end, img0, es);
      FreshPage(img0, pages0, ref.value.ib);
      GroveNode(img0, em.img, ptype, level, next, FlatAll(ss[..i]), group, ref.value);
      GroveKept(img0, em.img, ptype, level, ss, es, ref.value.ib, em.img[ref.value.ib]);
      GroupRefs(next, ref.value, level, group, RefsAll(ss[end..]));
      AccountedStep(RefsAll(next), ref.value, RefsAll(ss[i..]), pages0, base);
      assert chunk[0] == KidList(ss)[i] && group[0] == ss[i];
      out := out + [BTEntry(chunk[0].key, ref.value)];
      next := next + [Shape(ref.value, level + 1, [], group)];
      i := end;
    }
    EndGroups(ss);
    GroveFlat(em.img, ptype, level, ss, es);
    assert RefsAll(next) + [] == RefsAll(next);
    NoClashSoFar(em, |old(em.newPages)|, |next|);
    return Ok(out), next;
  }

  lemma FreshPage(img: Image, newPages: seq<nat>, ib: nat)
    requires img.Keys <= PageSet(newPages) && ib !in newPages
    ensures ib !in img
  {
  }

  lemma GroveFlat(img: Image, ptype: PType, level: nat, ss: seq<Shape>, es: seq<Entry>)
    requires Grove(img, ptype, level, ss, es)
    ensures FlatAll(ss) == es
  {
  }

  lemma OneTree(img: Image, ptype: PType, level: nat, ss: seq<Shape>, es: seq<Entry>)
    requires Grove(img, ptype, level, ss, es) && |ss| == 1
    ensures In(img, ptype, ss[0]) && Flat(ss[0]) == es && Full(ss[0]) && ss[0].level == level
    ensures RefsAll(ss) == Refs(ss[0]) && KidList(ss)[0].ref == ss[0].ref
  {
    FlatAllOne(ss[0]);
    assert ss == [ss[0]];
    hide FlatAll, RefsAll, Flat, Refs, In, Full, FirstKey;
  }

  /** The levels above the leaves, until one page is left. */
  method EncodeLevels(em: Emitter, ptype: PType, leaves: seq<BTEntry>, ghost ss0: seq<Shape>, ghost es: seq<Entry>,
                      ghost base: seq<nat>)
    returns (r: Result<BREF>, ghost s: Shape)
    requires em.Inv() && em.Steady() && ss0 != [] && leaves == KidList(ss0) && |leaves| <= |es| && Sorted(es, false)
    requires Grove(em.img, ptype, 0, ss0, es) && Accounted(RefsAll(ss0), em.newPages, base)
    modifies em, em.n.store`regions, em.n.store`spool, em.n.store`lastAllocAMap, em.n.store`bidNextP
    ensures em.Inv() && SamePayloads(em.n.blocks, old(em.n.store.spool), em.n.store.spool)
    ensures old(em.newPages) <= em.newPages && Extends(old(em.img), em.img)
    ensures r.Err? <==> ClashFrom(em, |old(em.newPages)|, PagesAbove(|leaves|))
    ensures r.Ok? ==> em.Steady() && |em.newPages| == |old(em.newPages)| + PagesAbove(|leaves|)
    ensures r.Ok? ==> s.ref == r.value && In(em.img, ptype, s) && Flat(s) == es && Full(s)
    ensures r.Ok? ==> Accounted(Refs(s), em.newPages, base) && (|es| < U64 ==> s.level < 64)
  {
    hide Grove, RefsAll, FlatAll, Flat, Refs, Full, Accounted, Sorted, Holds, SamePayloads, PagesIssued, FirstKey, In,
         ClashAt, OnPlan, Extends, FlatAll, FirstKey, Groups, MaxLeaf;
    ExtendsSelf(em.img);
    NoGroups(ptype);
    var childRefs := leaves;
    ghost var ss := ss0;
    var level := 0;
    s := ss0[0];
    SamePayloadsSelf(em.n.blocks, em.n.store.spool);
    assert Pow2(0) == 1;
    while |childRefs| > 1
      invariant em.Inv() && SamePayloads(em.n.blocks, old(em.n.store.spool), em.n.store.spool)
      invariant old(em.newPages) <= em.newPages && Extends(old(em.img), em.img)
      invariant em.Steady() && |em.newPages| + PagesAbove(|childRefs|) == |old(em.newPages)| + PagesAbove(|leaves|)
      invariant ss != [] && childRefs == KidList(ss) && |childRefs| * Pow2(level) <= |es|
      invariant Grove(em.img, ptype, level, ss, es) && Accounted(RefsAll(ss), em.newPages, base)
      decreases |childRefs|
    {
      ghost var spool0, img0 := em.n.store.spool, em.img;
      var next;
      ghost var above;
      next, above := EncodeLevel(em, ptype, level, childRefs, ss, es, base);
      ExtendsTwice(old(em.img), img0, em.img);
      SamePayloadsTwice(em.n.blocks, old(em.n.store.spool), spool0, em.n.store.spool);
      if next.Err? {
        return Err(next.error), s;
      }
      LevelBound(|childRefs|, |next.value|, level, |es|);
      ss := above;
      childRefs := next.value;
      level := level + 1;
    }
    OneTree(em.img, ptype, level, ss, es);
    s := ss[0];
    if level >= 64 {
      Pow2Grows(64, level);
      Pow2Word();
    }
    NoClashSoFar(em, |old(em.newPages)|, PagesAbove(|leaves|));
    return Ok(childRefs[0].ref), s;
  }

  /** encodeTree: a tree over exactly the given entries, on pages used once each; at most 64 levels for 64-bit
      counts. */
  method EncodeTree(em: Emitter, ptype: PType, es: seq<Entry>) returns (r: Result<BREF>, ghost s: Shape)
    requires em.Inv() && em.Steady() && Sorted(es, false)
    modifies em, em.n.store`regions, em.n.store`spool, em.n.store`lastAllocAMap, em.n.store`bidNextP
    ensures em.Inv() && SamePayloads(em.n.blocks, old(em.n.store.spool), em.n.store.spool)
    ensures old(em.newPages) <= em.newPages && Extends(old(em.img), em.img)
    ensures r.Err? <==> BadEntry(ptype, es) || ClashFrom(em, |old(em.newPages)|, TreePages(ptype, |es|))
    ensures r.Ok? ==> em.Steady() && |em.newPages| == |old(em.newPages)| + TreePages(ptype, |es|)
    ensures r.Ok? ==> s.ref == r.value && In(em.img, ptype, s) && Flat(s) == es && (es != [] ==> Full(s))
    ensures r.Ok? ==> Accounted(Refs(s), em.newPages, old(em.newPages))
    ensures r.Ok? ==> (|es| < U64 ==> s.level < 64) && (es == [] ==> s.level == 0)
  {
    hide Grove, RefsAll, FlatAll, Flat, Refs, Full, Accounted, Sorted, EntryOk, PageOk, Holds, SamePayloads,
         PagesIssued, FirstKey, In, ClashAt, OnPlan, Extends, PagesAbove;
    s := Shape(BREF(0, 0), 0, [], []);
    SamePayloadsSelf(em.n.blocks, em.n.store.spool);
    if |es| == 0 {
      LeafPageOk(ptype, 0, es, 0, 0);
      if !PageOk(Page(0, ptype, 0, [], [])) {
        return Err(InvalidArg), s;
      }
      ghost var pages0 := em.newPages;
      r := em.Alloc(ptype, 0, [], []);
      if r.Ok? {
        LeafPageOk(ptype, r.value.bid, es, 0, 0);
        s := Shape(r.value, 0, [], []);
        EmptyTree(em.img, ptype, r.value, pages0);
      }
      return;
    }
    ghost var base := em.newPages;
    ghost var ss: seq<Shape>;
    var leaves;
    leaves, ss := EncodeLeaves(em, ptype, es);
    if leaves.Err? {
      return Err(leaves.error), s;
    }
    ghost var spool0, img0 := em.n.store.spool, em.img;
    r, s := EncodeLevels(em, ptype, leaves.value, ss, es, base);
    ExtendsTwice(old(em.img), img0, em.img);
    SamePayloadsTwice(em.n.blocks, old(em.n.store.spool), spool0, em.n.store.spool);
    if r.Ok? {
      NoClashSoFar(em, |base|, TreePages(ptype, |es|));
    }
  }

  lemma {:induction false} Pow2Add(a: nat, b: nat)
    ensures Pow2(a + b) == Pow2(a) * Pow2(b)
  {
    if a > 0 {
      Pow2Add(a - 1, b);
    }
  }

  lemma Pow2Word()
    ensures Pow2(64) == U64
  {
    assert Pow2(4) == 2 * Pow2(3) == 4 * Pow2(2) == 16;
    Pow2Add(4, 4);
    Pow2Add(8, 8);
    Pow2Add(16, 16);
    Pow2Add(32, 32);
  }

  lemma EmptyTree(img: Image, ptype: PType, ref: BREF, pages0: seq<nat>)
    requires ref.ib in img && img[ref.ib] == Page(ref.bid, ptype, 0, [], []) && PageOk(img[ref.ib])
    ensures var s := Shape(ref, 0, [], []);
      In(img, ptype, s) && Flat(s) == [] && Accounted(Refs(s), pages0 + [ref.ib], pages0)
  {
    assert (pages0 + [ref.ib])[|pages0|..] == [ref.ib];
    assert Refs(Shape(ref, 0, [], [])) == [ref];
    assert IBs([ref]) == {ref.ib} == PageSet([ref.ib]);
  }
}
