/** The allocation maps and the spool of block payloads (store.go). */
module Allocation {
  import opened Common
  import opened Geometry
  import opened Blocks

  function EmptyBits(): seq<bool> {
    seq(SLOTS_PER_AMAP, _ => false)
  }

  type Bitmap = bm: seq<bool> | |bm| == SLOTS_PER_AMAP witness EmptyBits()

  function SetRange(bm: seq<bool>, start: nat, n: nat, v: bool): (r: seq<bool>)
    ensures |r| == |bm|
  {
    seq(|bm|, k requires 0 <= k < |bm| => if start <= k < start + n then v else bm[k])
  }

  function CountFree(bm: seq<bool>): nat {
    if bm == [] then 0 else CountFree(bm[..|bm| - 1]) + if bm[|bm| - 1] then 0 else 1
  }

  /** Free slots over all regions. */
  function TotalFree(rs: seq<Bitmap>): nat {
    if rs == [] then 0 else TotalFree(rs[..|rs| - 1]) + CountFree(rs[|rs| - 1])
  }

  predicate AllAre(bm: seq<bool>, start: nat, n: nat, v: bool) {
    start + n <= |bm| && forall k :: start <= k < start + n ==> bm[k] == v
  }

  /** Slot `slot` of region `i` starts a window of `n` free slots that stays inside the region. */
  predicate Window(rs: seq<Bitmap>, i: nat, slot: nat, n: nat) {
    i < |rs| && AllAre(rs[i], slot, n, false)
  }

  ghost predicate Before(i: nat, slot: nat, j: nat, slot': nat) {
    i < j || (i == j && slot < slot')
  }

  /** (i, slot) is the lowest window of `n` slots whose start is a multiple of `align` slots. */
  ghost predicate Lowest(rs: seq<Bitmap>, i: nat, slot: nat, n: nat, align: nat)
    requires align > 0
  {
    && Window(rs, i, slot, n) && slot % align == 0
    && forall j: nat, s: nat | s % align == 0 && Before(j, s, i, slot) :: !Window(rs, j, s, n)
  }

  ghost predicate NoWindow(rs: seq<Bitmap>, n: nat, align: nat)
    requires align > 0
  {
    forall j: nat, s: nat | s % align == 0 :: !Window(rs, j, s, n)
  }

  predicate SlotSet(rs: seq<Bitmap>, g: nat) {
    g / SLOTS_PER_AMAP < |rs| && rs[g / SLOTS_PER_AMAP][g % SLOTS_PER_AMAP]
  }

  /** The allocated slots. */
  ghost function Used(rs: seq<Bitmap>): (s: set<nat>) {
    set g: nat | g < SLOTS_PER_AMAP * |rs| && SlotSet(rs, g)
  }

  ghost function SetSlots(bm: seq<bool>): set<nat> {
    set k: nat | k < |bm| && bm[k]
  }

  lemma {:induction false} CountFreeIs(bm: seq<bool>)
    ensures CountFree(bm) + |SetSlots(bm)| == |bm|
  {
    if bm == [] {
      assert SetSlots(bm) == {};
    } else {
      var last := |bm| - 1;
      CountFreeIs(bm[..last]);
      assert SetSlots(bm) == if bm[last] then SetSlots(bm[..last]) + {last} else SetSlots(bm[..last]);
    }
  }

  ghost predicate InMoved(s: set<nat>, d: nat, g: nat) {
    g >= d && g - d in s
  }

  ghost function MovedBy(s: set<nat>, d: nat, n: nat): set<nat> {
    set g: nat | g < d + n && InMoved(s, d, g)
  }

  lemma {:induction false} MovedSize(s: set<nat>, d: nat, n: nat)
    requires forall x | x in s :: x < n
    ensures |MovedBy(s, d, n)| == |s|
  {
    if s == {} {
      assert MovedBy(s, d, n) == {};
    } else {
      var x :| x in s;
      MovedSize(s - {x}, d, n);
      assert MovedBy(s, d, n) == MovedBy(s - {x}, d, n) + {x + d};
    }
  }

  /** Every slot is free or allocated: the free ones counted region by region are all that are not in `Used`. */
  lemma {:induction false} FreeAndUsed(rs: seq<Bitmap>)
    ensures TotalFree(rs) + |Used(rs)| == SLOTS_PER_AMAP * |rs|
  {
    if rs == [] {
      assert Used(rs) == {};
    } else {
      var last := |rs| - 1;
      var d := SLOTS_PER_AMAP * last;
      FreeAndUsed(rs[..last]);
      CountFreeIs(rs[last]);
      var here := MovedBy(SetSlots(rs[last]), d, SLOTS_PER_AMAP);
      MovedSize(SetSlots(rs[last]), d, SLOTS_PER_AMAP);
      hide CountFree;
      forall g: nat
        ensures g in Used(rs) <==> g in Used(rs[..last]) || g in here
      {
      }
      hide SetSlots;
      assert Used(rs) == Used(rs[..last]) + here && Used(rs[..last]) !! here;
    }
  }

  predicate IsMeta(count: nat, g: nat) {
    g / SLOTS_PER_AMAP < count && g % SLOTS_PER_AMAP < MetaCount(g / SLOTS_PER_AMAP)
  }

  /** The slots of the map pages of the first `count` regions. */
  ghost function Meta(count: nat): set<nat> {
    set g: nat | g < SLOTS_PER_AMAP * count && IsMeta(count, g)
  }

  function FreshRegion(index: nat): Bitmap {
    SetRange(EmptyBits(), 0, MetaCount(index), true)
  }

  /** Whether mark accepts [ib, ib+size) as a range to allocate (or to free). */
  predicate Markable(rs: seq<Bitmap>, ib: nat, size: nat, alloc: bool) {
    && Aligned(ib, size)
    && (ib - FIRST_AMAP) / AMAP_COVERAGE < |rs|
    && ib + size <= AMapRegionEnd((ib - FIRST_AMAP) / AMAP_COVERAGE)
    && AllAre(rs[(ib - FIRST_AMAP) / AMAP_COVERAGE],
              (ib - FIRST_AMAP) % AMAP_COVERAGE / BYTES_PER_SLOT, size / BYTES_PER_SLOT, !alloc)
  }

  function Marked(rs: seq<Bitmap>, ib: nat, size: nat, alloc: bool): seq<Bitmap>
    requires Markable(rs, ib, size, alloc)
  {
    var i := (ib - FIRST_AMAP) / AMAP_COVERAGE;
    rs[i := SetRange(rs[i], (ib - FIRST_AMAP) % AMAP_COVERAGE / BYTES_PER_SLOT, size / BYTES_PER_SLOT, alloc)]
  }

  /** Marking allocates exactly the extent's slots, all free before; freeing undoes it. */
  lemma MarkedUsed(rs: seq<Bitmap>, ib: nat, size: nat, alloc: bool)
    requires Markable(rs, ib, size, alloc)
    ensures alloc ==> Used(Marked(rs, ib, size, true)) == Used(rs) + Slots(ib, size) && Used(rs) !! Slots(ib, size)
    ensures !alloc ==> Used(Marked(rs, ib, size, false)) == Used(rs) - Slots(ib, size) && Slots(ib, size) <= Used(rs)
  {
    var i := (ib - FIRST_AMAP) / AMAP_COVERAGE;
    var start, n := (ib - FIRST_AMAP) % AMAP_COVERAGE / BYTES_PER_SLOT, size / BYTES_PER_SLOT;
    assert SlotNumber(ib) == SLOTS_PER_AMAP * i + start;
    forall g: nat
      ensures g in Slots(ib, size) <==> g / SLOTS_PER_AMAP == i && start <= g % SLOTS_PER_AMAP < start + n
    {
    }
    hide Slots, SlotNumber;
  }

  /** Used slots are exactly the allocated extent again when the extent is already fully allocated. */
  lemma UsedSubset(rs: seq<Bitmap>, ib: nat, size: nat)
    requires Aligned(ib, size) && (ib - FIRST_AMAP) / AMAP_COVERAGE < |rs|
    requires ib + size <= AMapRegionEnd((ib - FIRST_AMAP) / AMAP_COVERAGE)
    ensures Slots(ib, size) <= Used(rs) <==> Markable(rs, ib, size, false)
    ensures Slots(ib, size) !! Used(rs) <==> Markable(rs, ib, size, true)
  {
    var i := (ib - FIRST_AMAP) / AMAP_COVERAGE;
    var start := (ib - FIRST_AMAP) % AMAP_COVERAGE / BYTES_PER_SLOT;
    assert SlotNumber(ib) == SLOTS_PER_AMAP * i + start;
    var n := size / BYTES_PER_SLOT;
    forall k: nat | start <= k < start + n
      ensures SLOTS_PER_AMAP * i + k in Slots(ib, size)
      ensures rs[i][k] <==> SLOTS_PER_AMAP * i + k in Used(rs)
    {
    }
    forall g | g in Slots(ib, size)
      ensures start <= g - SLOTS_PER_AMAP * i < start + n
      ensures g in Used(rs) <==> rs[i][g - SLOTS_PER_AMAP * i]
    {
    }
  }

  lemma {:induction false} CountSetRange(bm: seq<bool>, start: nat, n: nat, v: bool)
    requires AllAre(bm, start, n, !v)
    ensures v ==> CountFree(SetRange(bm, start, n, v)) + n == CountFree(bm)
    ensures !v ==> CountFree(SetRange(bm, start, n, v)) == CountFree(bm) + n
  {
    if bm != [] {
      var last := |bm| - 1;
      var m := if n > 0 && start + n == |bm| then n - 1 else n;
      if n == 0 {
        assert SetRange(bm, start, n, v) == bm;
      } else {
        CountSetRange(bm[..last], start, m, v);
        assert SetRange(bm, start, n, v)[..last] == SetRange(bm[..last], start, m, v);
      }
    }
  }

  lemma {:induction false} TotalFreeUpdate(rs: seq<Bitmap>, i: nat, bm: Bitmap)
    requires i < |rs|
    ensures TotalFree(rs[i := bm]) + CountFree(rs[i]) == TotalFree(rs) + CountFree(bm)
  {
    var last := |rs| - 1;
    if i == last {
      assert rs[i := bm][..last] == rs[..last];
    } else {
      TotalFreeUpdate(rs[..last], i, bm);
      assert rs[i := bm][..last] == rs[..last][i := bm];
    }
  }

  /** Allocating takes exactly the extent's slots from the free count; freeing gives them back. */
  lemma MarkedFree(rs: seq<Bitmap>, ib: nat, size: nat, alloc: bool)
    requires Markable(rs, ib, size, alloc)
    ensures alloc ==> BYTES_PER_SLOT * TotalFree(Marked(rs, ib, size, alloc)) + size == BYTES_PER_SLOT * TotalFree(rs)
    ensures !alloc ==> BYTES_PER_SLOT * TotalFree(Marked(rs, ib, size, alloc)) == BYTES_PER_SLOT * TotalFree(rs) + size
  {
    var i := (ib - FIRST_AMAP) / AMAP_COVERAGE;
    var start := (ib - FIRST_AMAP) % AMAP_COVERAGE / BYTES_PER_SLOT;
    CountSetRange(rs[i], start, size / BYTES_PER_SLOT, alloc);
    TotalFreeUpdate(rs, i, Marked(rs, ib, size, alloc)[i]);
  }

  /** Growing marks the new region's map pages and nothing else. */
  lemma GrownUsed(rs: seq<Bitmap>)
    ensures Used(rs + [FreshRegion(|rs|)]) == Used(rs) + (Meta(|rs| + 1) - Meta(|rs|))
    ensures Meta(|rs|) <= Used(rs) ==> Meta(|rs| + 1) <= Used(rs + [FreshRegion(|rs|)])
  {
    var rs' := rs + [FreshRegion(|rs|)];
    forall g: nat
      ensures g < SLOTS_PER_AMAP * |rs| ==> SlotSet(rs', g) == SlotSet(rs, g) && IsMeta(|rs| + 1, g) == IsMeta(|rs|, g)
      ensures SLOTS_PER_AMAP * |rs| <= g < SLOTS_PER_AMAP * (|rs| + 1) ==> SlotSet(rs', g) == IsMeta(|rs| + 1, g)
    {
    }
  }

  /** The bitmap of a region whose first `pages` map pages are marked. */
  function PartialRegion(pages: nat): Bitmap {
    SetRange(EmptyBits(), 0, SLOTS_PER_PAGE * pages, true)
  }

  lemma MarkMapPage(rs: seq<Bitmap>, j: nat)
    requires j < 4
    ensures var ib := AMapOffset(|rs|) + j * PAGE_SIZE;
      && Markable(rs + [PartialRegion(j)], ib, PAGE_SIZE, true)
      && Marked(rs + [PartialRegion(j)], ib, PAGE_SIZE, true) == rs + [PartialRegion(j + 1)]
  {
    var ib := AMapOffset(|rs|) + j * PAGE_SIZE;
    assert (ib - FIRST_AMAP) / AMAP_COVERAGE == |rs|;
    assert (ib - FIRST_AMAP) % AMAP_COVERAGE / BYTES_PER_SLOT == SLOTS_PER_PAGE * j;
    assert SetRange(PartialRegion(j), SLOTS_PER_PAGE * j, SLOTS_PER_PAGE, true) == PartialRegion(j + 1);
  }

  /** An extent inside one region of a store with `count` regions. */
  predicate InRegion(count: nat, ib: nat, size: nat) {
    && Aligned(ib, size) && size > 0
    && (ib - FIRST_AMAP) / AMAP_COVERAGE < count
    && ib + size <= AMapRegionEnd((ib - FIRST_AMAP) / AMAP_COVERAGE)
  }

  /** What a successful allocation did: maybe new regions, and one extent that was free. */
  ghost predicate Allocated(rs: seq<Bitmap>, rs': seq<Bitmap>, ib: nat, size: nat) {
    && |rs| <= |rs'| && InRegion(|rs'|, ib, size)
    && Slots(ib, size) !! Used(rs) + Meta(|rs'|)
    && Used(rs') == Used(rs) + Meta(|rs'|) + Slots(ib, size)
  }

  /** The maps Allocate works on: one more region exactly when no window of `n` slots is free. */
  ghost function Base(rs: seq<Bitmap>, n: nat, align: nat): seq<Bitmap>
    requires align > 0
  {
    if NoWindow(rs, n, align) then rs + [FreshRegion(|rs|)] else rs
  }

  ghost predicate LowestAt(rs: seq<Bitmap>, ib: nat, n: nat, align: nat)
    requires align > 0
  {
    && Aligned(ib, 0)
    && Lowest(rs, (ib - FIRST_AMAP) / AMAP_COVERAGE, (ib - FIRST_AMAP) % AMAP_COVERAGE / BYTES_PER_SLOT, n, align)
  }

  /** A fresh region always has room: its map pages take at most 32 of its 3968 slots. */
  lemma FreshHasRoom(rs: seq<Bitmap>, n: nat, align: nat)
    requires n <= MAX_ALLOC / BYTES_PER_SLOT && (align == 1 || align == SLOTS_PER_PAGE)
    ensures !NoWindow(rs + [FreshRegion(|rs|)], n, align)
  {
    assert Window(rs + [FreshRegion(|rs|)], |rs|, MetaCount(|rs|), n);
  }

  /** Taking the lowest window of the base maps is an allocation, and accounts for every free byte. */
  lemma AllocatedFromBase(rs: seq<Bitmap>, ib: nat, n: nat, align: nat)
    requires 0 < n && align > 0 && Meta(|rs|) <= Used(rs)
    requires LowestAt(Base(rs, n, align), ib, n, align)
    ensures var base := Base(rs, n, align); var size := n * BYTES_PER_SLOT;
      && Markable(base, ib, size, true)
      && Allocated(rs, Marked(base, ib, size, true), ib, size)
      && Meta(|base|) <= Used(Marked(base, ib, size, true))
      && BYTES_PER_SLOT * TotalFree(Marked(base, ib, size, true)) + size
         == BYTES_PER_SLOT * TotalFree(rs) +
            if NoWindow(rs, n, align) then BYTES_PER_SLOT * CountFree(FreshRegion(|rs|)) else 0
  {
    var base := Base(rs, n, align);
    var size := n * BYTES_PER_SLOT;
    assert Markable(base, ib, size, true);
    MarkedUsed(base, ib, size, true);
    MarkedFree(base, ib, size, true);
    GrownUsed(rs);
    if NoWindow(rs, n, align) {
      assert base[..|rs|] == rs;
      MetaGrows(|rs|);
    }
  }

  lemma MetaGrows(count: nat)
    ensures Meta(count) <= Meta(count + 1)
  {
    forall g: nat | g < SLOTS_PER_AMAP * count && IsMeta(count, g)
      ensures IsMeta(count + 1, g)
    {
    }
  }

  /** Some page of the maps overlaps [ib, ib+size). */
  ghost predicate OverlapsMeta(count: nat, ib: nat, size: nat) {
    exists i, j | 0 <= i < count && 0 <= j < |RegionMapPages(i)| ::
      RegionMapPages(i)[j].offset < ib + size && RegionMapPages(i)[j].offset + PAGE_SIZE > ib
  }

  lemma OverlapsMetaSlots(count: nat, ib: nat, size: nat)
    requires InRegion(count, ib, size)
    ensures OverlapsMeta(count, ib, size) <==> !(Slots(ib, size) !! Meta(count))
  {
    if !(Slots(ib, size) !! Meta(count)) {
      var g :| g in Slots(ib, size) && g in Meta(count);
      var i, j := g / SLOTS_PER_AMAP, g % SLOTS_PER_AMAP / SLOTS_PER_PAGE;
      assert RegionMapPages(i)[j].offset == AMapOffset(i) + j * PAGE_SIZE;
    }
    forall i, j | 0 <= i < count && 0 <= j < |RegionMapPages(i)|
      && RegionMapPages(i)[j].offset < ib + size && RegionMapPages(i)[j].offset + PAGE_SIZE > ib
      ensures !(Slots(ib, size) !! Meta(count))
    {
      var p := RegionMapPages(i)[j].offset;
      var g := SlotNumber(if p < ib then ib else p);
      var q := SLOTS_PER_AMAP * i + SLOTS_PER_PAGE * j;
      assert p - FIRST_AMAP == BYTES_PER_SLOT * q;
      assert SlotNumber(p) == q && q <= g < q + SLOTS_PER_PAGE;
      assert Covers(ib, size, g) by {
        assert ib - FIRST_AMAP == BYTES_PER_SLOT * SlotNumber(ib);
      }
      assert g / SLOTS_PER_AMAP == i && g % SLOTS_PER_AMAP < MetaCount(i);
      assert g in Slots(ib, size) && g in Meta(count);
    }
  }

  function Cleared(spool: map<nat, Stored>, ib: nat, size: nat): map<nat, Stored> {
    map k | k in spool && !(ib <= k < ib + size) :: spool[k]
  }

  /** Stored payloads of extents that were allocated and lie outside [ib, ib+size) are untouched. */
  ghost predicate KeptOutside(spool: map<nat, Stored>, spool': map<nat, Stored>, rs: seq<Bitmap>, ib: nat, size: nat) {
    && spool'.Keys <= spool.Keys
    && forall k | k in spool && !(ib <= k < ib + size) && k < AMapOffset(|rs|) :: k in spool' && spool'[k] == spool[k]
  }

  method FindContiguous(bm: Bitmap, slots: nat) returns (start: nat, ok: bool)
    requires slots > 0
    ensures ok ==> AllAre(bm, start, slots, false) && forall s: nat | s < start :: !AllAre(bm, s, slots, false)
    ensures !ok ==> forall s: nat :: !AllAre(bm, s, slots, false)
  {
    var run := 0;
    start := 0;
    for i := 0 to |bm|
      invariant run < slots && run <= i
      invariant run > 0 ==> start == i - run
      invariant AllAre(bm, i - run, run, false)
      invariant run < i ==> bm[i - run - 1]
      invariant forall s: nat | s < i - run :: !AllAre(bm, s, slots, false)
    {
      if !bm[i] {
        if run == 0 {
          start := i;
        }
        run := run + 1;
        if run >= slots {
          return start, true;
        }
      } else {
        forall s: nat | s <= i
          ensures !AllAre(bm, s, slots, false)
        {
          if i - run <= s && s + slots <= |bm| {
            assert s <= i < s + slots;
          }
        }
        run := 0;
      }
    }
    return 0, false;
  }

  /** The inner loops of firstFitAligned: skip past the first allocated slot of a window that does not fit. */
  method FindAligned(bm: Bitmap, i: nat, slots: nat, align: nat) returns (start: nat, ok: bool)
    requires slots > 0 && align == PAGE_SIZE
    ensures ok ==> start % SLOTS_PER_PAGE == 0 && AllAre(bm, start, slots, false)
    ensures forall s: nat | s % SLOTS_PER_PAGE == 0 && AllAre(bm, s, slots, false) :: ok && start <= s
  {
    hide SlotOffset;
    var slot := 0;
    while slot + slots <= SLOTS_PER_AMAP
      invariant forall s: nat | s % SLOTS_PER_PAGE == 0 && AllAre(bm, s, slots, false) :: slot <= s
      decreases SLOTS_PER_AMAP - slot
    {
      AlignedOffset(i, slot);
      if SlotOffset(i, slot) % align != 0 {
        slot := slot + 1;
        continue;
      }
      var fit, k := true, 0;
      while fit && k < slots
        invariant k <= slots
        invariant fit ==> AllAre(bm, slot, k, false)
        invariant !fit ==> k < slots && bm[slot + k]
        decreases fit, slots - k
      {
        if bm[slot + k] {
          fit := false;
        } else {
          k := k + 1;
        }
      }
      if fit {
        return slot, true;
      }
      slot := slot + k + 1;
    }
    return 0, false;
  }

  /** Regions start on a page boundary, so page-aligned offsets are the multiples of eight slots. */
  lemma AlignedOffset(i: nat, slot: nat)
    ensures SlotOffset(i, slot) % PAGE_SIZE == 0 <==> slot % SLOTS_PER_PAGE == 0
  {
    assert SlotOffset(i, slot) == PAGE_SIZE * (34 + 496 * i) + slot * BYTES_PER_SLOT;
  }

  class Store {
    var regions: seq<Bitmap>
    var spool: map<nat, Stored>
    var lastAllocAMap: nat
    var bidNextP: nat
    var bidNextB: nat
    var nbtRoot: BREF
    var bbtRoot: BREF

    ghost predicate Valid()
      reads this
    {
      Meta(|regions|) <= Used(regions)
    }

    /** NewStore: the first page BID goes to the DList, then one region. */
    constructor ()
      ensures Valid() && regions == [FreshRegion(0)] && spool == map[]
      ensures bidNextP == FIRST_ALLOC_BID + 1 && bidNextB == FIRST_ALLOC_BID
    {
      regions := [];
      spool := map[];
      lastAllocAMap := 0;
      bidNextP := FIRST_ALLOC_BID + 1;
      bidNextB := FIRST_ALLOC_BID;
      nbtRoot, bbtRoot := BREF(0, 0), BREF(0, 0);
      new;
      Grow();
    }

    method Mark(ib: nat, size: nat, alloc: bool) returns (r: Result<()>)
      modifies `regions, `spool
      ensures r.Ok? <==> Markable(old(regions), ib, size, alloc)
      ensures r.Ok? ==> regions == Marked(old(regions), ib, size, alloc) && spool == Cleared(old(spool), ib, size)
      ensures r.Err? ==> regions == old(regions) && spool == old(spool)
    {
      if ib < FIRST_AMAP || (ib - FIRST_AMAP) / AMAP_COVERAGE >= |regions| {
        return Err(InvariantBroken);
      }
      var idx := (ib - FIRST_AMAP) / AMAP_COVERAGE;
      if ib + size > AMapRegionEnd(idx) {
        return Err(InvariantBroken);
      }
      if ib % BYTES_PER_SLOT != 0 || size % BYTES_PER_SLOT != 0 {
        return Err(InvalidArg);
      }
      var start := (ib - FIRST_AMAP) % AMAP_COVERAGE / BYTES_PER_SLOT;
      var n := size / BYTES_PER_SLOT;
      for i := 0 to n
        invariant AllAre(regions[idx], start, i, !alloc)
      {
        if regions[idx][start + i] == alloc {
          return Err(InvariantBroken);
        }
      }
      spool := Cleared(spool, ib, size);
      ghost var bm := regions[idx];
      assert SetRange(bm, start, 0, alloc) == bm;
      assert regions == regions[idx := bm];
      for i := 0 to n
        invariant regions == old(regions)[idx := SetRange(bm, start, i, alloc)]
        invariant spool == Cleared(old(spool), ib, size)
      {
        assert SetRange(bm, start, i + 1, alloc) == SetRange(bm, start, i, alloc)[start + i := alloc];
        regions := regions[idx := regions[idx][start + i := alloc]];
      }
      return Ok(());
    }

    method Grow()
      modifies `regions, `spool
      ensures regions == old(regions) + [FreshRegion(|old(regions)|)]
      ensures forall k | k in old(spool) && k < AMapOffset(|old(regions)|) :: k in spool && spool[k] == old(spool)[k]
      ensures spool.Keys <= old(spool.Keys)
      ensures old(Valid()) ==> Valid()
    {
      var idx := |regions|;
      regions := regions + [EmptyBits()];
      var pages := RegionMapPages(idx);
      assert PartialRegion(0) == EmptyBits();
      for j := 0 to |pages|
        invariant regions == old(regions) + [PartialRegion(j)]
        invariant forall k | k in old(spool) && k < AMapOffset(idx) :: k in spool && spool[k] == old(spool)[k]
        invariant spool.Keys <= old(spool.Keys)
      {
        MarkMapPage(old(regions), j);
        var r := Mark(pages[j].offset, PAGE_SIZE, true);
      }
      GrownUsed(old(regions));
    }

    method FirstFit(slots: nat) returns (ib: nat, ok: bool)
      requires slots > 0
      ensures ok ==>
        LowestAt(regions, ib, slots, 1) &&
        ib + slots * BYTES_PER_SLOT <= AMapRegionEnd((ib - FIRST_AMAP) / AMAP_COVERAGE)
      ensures !ok <==> NoWindow(regions, slots, 1)
    {
      for i := 0 to |regions|
        invariant forall j: nat, s: nat | j < i :: !Window(regions, j, s, slots)
      {
        var start, found := FindContiguous(regions[i], slots);
        if found {
          ib := SlotOffset(i, start);
          assert Lowest(regions, i, start, slots, 1);
          return ib, true;
        }
      }
      return 0, false;
    }

    method FirstFitAligned(slots: nat, align: nat) returns (ib: nat, ok: bool)
      requires slots > 0 && align == PAGE_SIZE
      ensures ok ==> LowestAt(regions, ib, slots, SLOTS_PER_PAGE) && ib % PAGE_SIZE == 0
      ensures !ok <==> NoWindow(regions, slots, SLOTS_PER_PAGE)
    {
      for i := 0 to |regions|
        invariant forall j: nat, s: nat | s % SLOTS_PER_PAGE == 0 && j < i :: !Window(regions, j, s, slots)
      {
        var start, found := FindAligned(regions[i], i, slots, align);
        if found {
          ib := SlotOffset(i, start);
          AlignedOffset(i, start);
          assert Lowest(regions, i, start, slots, SLOTS_PER_PAGE);
          return ib, true;
        }
      }
      return 0, false;
    }

    /** The lowest free window of an existing region, or of the one region grown when there is none. */
    method Allocate(size: nat) returns (r: Result<nat>)
      requires Valid()
      modifies `regions, `spool, `lastAllocAMap
      ensures r.Ok? <==> 0 < size <= MAX_ALLOC && size % BYTES_PER_SLOT == 0
      ensures r.Err? ==> regions == old(regions) && spool == old(spool) && lastAllocAMap == old(lastAllocAMap)
      ensures r.Ok? ==> var base := Base(old(regions), size / BYTES_PER_SLOT, 1);
        && LowestAt(base, r.value, size / BYTES_PER_SLOT, 1)
        && Markable(base, r.value, size, true) && regions == Marked(base, r.value, size, true)
      ensures r.Ok? ==> Valid() && Allocated(old(regions), regions, r.value, size)
      ensures r.Ok? ==> lastAllocAMap == (r.value - FIRST_AMAP) / AMAP_COVERAGE
      ensures r.Ok? ==> KeptOutside(old(spool), spool, old(regions), r.value, size)
      ensures r.Ok? ==> forall k | k in spool :: !(r.value <= k < r.value + size)
    {
      if size > MAX_ALLOC {
        return Err(LimitExceeded);
      }
      var slots := SlotsForSize(size);
      if slots.Err? {
        return Err(slots.error);
      }
      var ib, ok := FirstFit(slots.value);
      if !ok {
        Grow();
        FreshHasRoom(old(regions), slots.value, 1);
        ib, ok := FirstFit(slots.value);
      }
      AllocatedFromBase(old(regions), ib, slots.value, 1);
      var marked := Mark(ib, size, true);
      lastAllocAMap := (ib - FIRST_AMAP) / AMAP_COVERAGE;
      return Ok(ib);
    }

    method AllocatePage() returns (r: Result<nat>)
      requires Valid()
      modifies `regions, `spool, `lastAllocAMap
      ensures r.Ok? && r.value % PAGE_SIZE == 0
      ensures var base := Base(old(regions), SLOTS_PER_PAGE, SLOTS_PER_PAGE);
        && LowestAt(base, r.value, SLOTS_PER_PAGE, SLOTS_PER_PAGE)
        && Markable(base, r.value, PAGE_SIZE, true) && regions == Marked(base, r.value, PAGE_SIZE, true)
      ensures Valid() && Allocated(old(regions), regions, r.value, PAGE_SIZE)
      ensures KeptOutside(old(spool), spool, old(regions), r.value, PAGE_SIZE)
    {
      var ib, ok := FirstFitAligned(SLOTS_PER_PAGE, PAGE_SIZE);
      if !ok {
        Grow();
        FreshHasRoom(old(regions), SLOTS_PER_PAGE, SLOTS_PER_PAGE);
        ib, ok := FirstFitAligned(SLOTS_PER_PAGE, PAGE_SIZE);
      }
      AllocatedFromBase(old(regions), ib, SLOTS_PER_PAGE, SLOTS_PER_PAGE);
      var marked := Mark(ib, PAGE_SIZE, true);
      lastAllocAMap := (ib - FIRST_AMAP) / AMAP_COVERAGE;
      return Ok(ib);
    }

    method CoversMetadata(ib: nat, size: nat) returns (b: bool)
      ensures b <==> OverlapsMeta(|regions|, ib, size)
    {
      for i := 0 to |regions|
        invariant !OverlapsMeta(i, ib, size)
      {
        var pages := RegionMapPages(i);
        for j := 0 to |pages|
          invariant forall k | 0 <= k < j :: !(pages[k].offset < ib + size && pages[k].offset + PAGE_SIZE > ib)
        {
          if pages[j].offset < ib + size && pages[j].offset + PAGE_SIZE > ib {
            return true;
          }
        }
      }
      return false;
    }

    method AllocatedRange(ib: nat, size: nat) returns (b: bool)
      ensures b <==> Markable(regions, ib, size, false)
    {
      if ib < FIRST_AMAP || (ib - FIRST_AMAP) / AMAP_COVERAGE >= |regions| {
        return false;
      }
      var idx := (ib - FIRST_AMAP) / AMAP_COVERAGE;
      if ib + size > AMapRegionEnd(idx) || ib % BYTES_PER_SLOT != 0 || size % BYTES_PER_SLOT != 0 {
        return false;
      }
      var start := (ib - FIRST_AMAP) % AMAP_COVERAGE / BYTES_PER_SLOT;
      for i := 0 to size / BYTES_PER_SLOT
        invariant AllAre(regions[idx], start, i, true)
      {
        if !regions[idx][start + i] {
          return false;
        }
      }
      return true;
    }

    method Reserve(ib: nat, size: nat) returns (r: Result<()>)
      requires Valid()
      modifies `regions, `spool
      ensures r.Ok? <==>
        size <= MAX_ALLOC && InRegion(|old(regions)|, ib, size) && Slots(ib, size) !! Used(old(regions))
      ensures r.Err? ==> regions == old(regions) && spool == old(spool)
      ensures r.Ok? ==> Valid() && Allocated(old(regions), regions, ib, size) && |regions| == |old(regions)|
      ensures r.Ok? ==> spool == Cleared(old(spool), ib, size)
    {
      if size > MAX_ALLOC {
        return Err(LimitExceeded);
      }
      if ib % BYTES_PER_SLOT != 0 || size == 0 || size % BYTES_PER_SLOT != 0 {
        return Err(InvalidArg);
      }
      if ib < FIRST_AMAP || (ib - FIRST_AMAP) / AMAP_COVERAGE >= |regions| {
        return Err(InvalidArg);
      }
      if ib + size > AMapRegionEnd((ib - FIRST_AMAP) / AMAP_COVERAGE) {
        return Err(InvalidArg);
      }
      UsedSubset(regions, ib, size);
      if Markable(regions, ib, size, true) {
        MarkedUsed(regions, ib, size, true);
      }
      r := Mark(ib, size, true);
    }

    method Free(ib: nat, size: nat) returns (r: Result<()>)
      requires Valid()
      modifies `regions, `spool
      ensures r.Ok? <==> && InRegion(|old(regions)|, ib, size) && Slots(ib, size) <= Used(old(regions))
                         && Slots(ib, size) !! Meta(|old(regions)|)
      ensures r.Err? ==> regions == old(regions) && spool == old(spool)
      ensures r.Ok? ==> Valid() && |regions| == |old(regions)| && Used(regions) == Used(old(regions)) - Slots(ib, size)
      ensures r.Ok? ==> spool == Cleared(old(spool), ib, size)
    {
      if ib % BYTES_PER_SLOT != 0 {
        return Err(InvalidArg);
      }
      var slots := SlotsForSize(size);
      if slots.Err? {
        return Err(slots.error);
      }
      var meta := CoversMetadata(ib, size);
      if InRegion(|regions|, ib, size) {
        OverlapsMetaSlots(|regions|, ib, size);
        UsedSubset(regions, ib, size);
      }
      if meta {
        return Err(InvalidArg);
      }
      if Markable(regions, ib, size, false) {
        MarkedUsed(regions, ib, size, false);
      }
      r := Mark(ib, size, false);
    }

    /** End of the last region. */
    function FileEOF(): (eof: nat)
      reads this
      ensures eof == FIRST_AMAP + AMAP_COVERAGE * |regions|
    {
      if |regions| == 0 then FIRST_AMAP else AMapRegionEnd(|regions| - 1)
    }

    method WriteExtent(ib: nat, size: nat, payload: Stored) returns (r: Result<()>)
      modifies `spool
      ensures r.Ok? <==> ib + size <= FileEOF()
      ensures spool == if r.Ok? then old(spool)[ib := payload] else old(spool)
    {
      if ib + size > FileEOF() {
        return Err(InvariantBroken);
      }
      spool := spool[ib := payload];
      return Ok(());
    }

    method TakePageBID() returns (r: Result<nat>)
      modifies `bidNextP
      ensures r.Ok? <==> old(bidNextP) != 0 && old(bidNextP) + 1 < U64
      ensures r.Ok? ==> r.value == old(bidNextP) && bidNextP == old(bidNextP) + 1
      ensures r.Err? ==> bidNextP == old(bidNextP)
    {
      var t := TakeMonotonic(bidNextP, 1);
      if t.Err? {
        return Err(t.error);
      }
      bidNextP := t.value.1;
      return Ok(t.value.0);
    }

    /** noteBlockBID: the counter never falls and ends beyond `bid`. */
    method NoteBlockBID(bid: nat) returns (r: Result<()>)
      modifies `bidNextB
      ensures r.Ok? <==> bid != 0 && !HasReserved(bid)
      ensures r.Ok? ==> bidNextB == if Strip(bid) + 4 > old(bidNextB) then Strip(bid) + 4 else old(bidNextB)
      ensures r.Err? ==> bidNextB == old(bidNextB)
    {
      if bid == 0 || HasReserved(bid) {
        return Err(InvalidArg);
      }
      var next := Strip(bid) + 4;
      if next > bidNextB {
        bidNextB := next;
      }
      return Ok(());
    }
  }
}
