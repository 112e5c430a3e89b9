/** Where the allocation maps live and how offsets become 64-byte slots (geometry.go). */
module Geometry {
  import opened Common

  const BYTES_PER_SLOT: nat := 64
  const PAGE_SIZE: nat := 512
  const SLOTS_PER_PAGE: nat := 8
  const SLOTS_PER_AMAP: nat := 3968
  const AMAP_COVERAGE: nat := 253952
  const FIRST_AMAP: nat := 0x4400
  const AMAPS_PER_PMAP: nat := 8
  const FMAP_HEADER_AMAPS: nat := 128
  const FMAP_PAGE_AMAPS: nat := 496
  const FPMAP_HEADER_PMAPS: nat := 1024
  const FPMAP_PAGE_PMAPS: nat := 3968
  const MAX_ALLOC: nat := 8192
  const BLOCK_TRAILER: nat := 16
  const MAX_DATA_CB: nat := 8176
  const DLIST_OFFSET: nat := 0x4200

  datatype PageType = AMap | PMap | FMap | FPMap

  datatype MapPage = MapPage(ptype: PageType, offset: nat)

  function AMapOffset(index: nat): nat {
    FIRST_AMAP + index * AMAP_COVERAGE
  }

  function AMapIndexForOffset(ib: nat): Option<nat> {
    if ib < FIRST_AMAP then None else Some((ib - FIRST_AMAP) / AMAP_COVERAGE)
  }

  function AMapRegionEnd(index: nat): nat {
    AMapOffset(index) + AMAP_COVERAGE
  }

  function SlotOffset(index: nat, slot: nat): nat {
    AMapOffset(index) + slot * BYTES_PER_SLOT
  }

  predicate FMapPageIndex(index: nat) {
    index >= FMAP_HEADER_AMAPS && (index - FMAP_HEADER_AMAPS) % FMAP_PAGE_AMAPS == 0
  }

  predicate FPMapPageIndex(index: nat) {
    && index % AMAPS_PER_PMAP == 0
    && index / AMAPS_PER_PMAP >= FPMAP_HEADER_PMAPS
    && (index / AMAPS_PER_PMAP - FPMAP_HEADER_PMAPS) % FPMAP_PAGE_PMAPS == 0
  }

  /** The metadata pages at the start of region `index`: never a gap, never more than four. */
  function RegionMapPages(index: nat): (pages: seq<MapPage>)
    ensures 1 <= |pages| <= 4
    ensures forall j :: 0 <= j < |pages| ==> pages[j].offset == AMapOffset(index) + j * PAGE_SIZE
  {
    var off := AMapOffset(index);
    var p0 := [MapPage(AMap, off)];
    var s0 := PAGE_SIZE;
    var p1 := if index % AMAPS_PER_PMAP == 0 then p0 + [MapPage(PMap, off + s0)] else p0;
    var s1 := if index % AMAPS_PER_PMAP == 0 then s0 + PAGE_SIZE else s0;
    var p2 := if FMapPageIndex(index) then p1 + [MapPage(FMap, off + s1)] else p1;
    var s2 := if FMapPageIndex(index) then s1 + PAGE_SIZE else s1;
    if FPMapPageIndex(index) then p2 + [MapPage(FPMap, off + s2)] else p2
  }

  predicate HasPage(pages: seq<MapPage>, t: PageType) {
    exists j :: 0 <= j < |pages| && pages[j].ptype == t
  }

  function Rank(t: PageType): nat {
    match t case AMap => 0 case PMap => 1 case FMap => 2 case FPMap => 3
  }

  /** Which pages stand in a region: an AMap always, a PMap in every eighth region, an FMap from region 128 on in
      every 496th, an FPMap in the region of every 3968th PMap from PMap 1024 on; each at most once, in this order. */
  lemma MapPagesAre(index: nat)
    ensures var pages := RegionMapPages(index);
      && HasPage(pages, AMap)
      && (HasPage(pages, PMap) <==> exists k: nat :: index == 8 * k)
      && (HasPage(pages, FMap) <==> exists k: nat :: index == 128 + 496 * k)
      && (HasPage(pages, FPMap) <==> exists k: nat :: index == 8 * (1024 + 3968 * k))
      && forall i, j | 0 <= i < j < |pages| :: Rank(pages[i].ptype) < Rank(pages[j].ptype)
  {
    var pages := RegionMapPages(index);
    assert pages[0].ptype == AMap;
    if index % 8 == 0 {
      assert pages[1].ptype == PMap && index == 8 * (index / 8);
      if FPMapPageIndex(index) {
        assert pages[|pages| - 1].ptype == FPMap && index == 8 * (1024 + 3968 * ((index / 8 - 1024) / 3968));
      }
    }
    if FMapPageIndex(index) {
      assert pages[if index % 8 == 0 then 2 else 1].ptype == FMap && index == 128 + 496 * ((index - 128) / 496);
    }
  }

  /** Slots of region `index` that hold its metadata pages. */
  function MetaCount(index: nat): (n: nat)
    ensures 8 <= n <= 32
  {
    SLOTS_PER_PAGE * |RegionMapPages(index)|
  }

  /** On-disk size of a block with `cb` payload bytes. */
  function BlockDiskSize(cb: nat): (size: nat)
    ensures size % BYTES_PER_SLOT == 0 && cb + BLOCK_TRAILER <= size < cb + BLOCK_TRAILER + BYTES_PER_SLOT
  {
    (cb + BLOCK_TRAILER + 63) / 64 * 64
  }

  function SlotsForSize(size: nat): (r: Result<nat>)
    ensures r.Ok? <==> 0 < size <= AMAP_COVERAGE && size % BYTES_PER_SLOT == 0
    ensures r.Ok? ==> r.value * BYTES_PER_SLOT == size && 1 <= r.value <= SLOTS_PER_AMAP
  {
    if size == 0 then Err(InvalidArg)
    else if size % BYTES_PER_SLOT != 0 then Err(InvalidArg)
    else if size / BYTES_PER_SLOT > SLOTS_PER_AMAP then Err(LimitExceeded)
    else Ok(size / BYTES_PER_SLOT)
  }

  /** Slot numbers count 64-byte slots from the first AMap, across all regions. */
  function SlotNumber(ib: nat): nat
    requires ib >= FIRST_AMAP
  {
    (ib - FIRST_AMAP) / BYTES_PER_SLOT
  }

  predicate Covers(ib: nat, size: nat, g: nat)
    requires ib >= FIRST_AMAP
  {
    SlotNumber(ib) <= g < SlotNumber(ib) + size / BYTES_PER_SLOT
  }

  /** The slots of the extent [ib, ib+size). */
  ghost function Slots(ib: nat, size: nat): (s: set<nat>)
    requires ib >= FIRST_AMAP
  {
    set g: nat | g < SlotNumber(ib) + size / BYTES_PER_SLOT && Covers(ib, size, g)
  }

  predicate Aligned(ib: nat, size: nat) {
    ib >= FIRST_AMAP && (ib - FIRST_AMAP) % BYTES_PER_SLOT == 0 && size % BYTES_PER_SLOT == 0
  }

  /** Aligned extents share no slot exactly when their byte ranges do not meet. */
  lemma DisjointExtents(ib1: nat, size1: nat, ib2: nat, size2: nat)
    requires Aligned(ib1, size1) && Aligned(ib2, size2) && size1 > 0 && size2 > 0
    ensures Slots(ib1, size1) !! Slots(ib2, size2) <==> ib1 + size1 <= ib2 || ib2 + size2 <= ib1
  {
    if ib2 <= ib1 < ib2 + size2 {
      assert SlotNumber(ib1) in Slots(ib1, size1) * Slots(ib2, size2);
    } else if ib1 <= ib2 < ib1 + size1 {
      assert SlotNumber(ib2) in Slots(ib1, size1) * Slots(ib2, size2);
    }
  }
}
