/** What one commit writes behind the header, and that live payloads are carried over (tx.go, store.go). */
module CommitBody {
  import opened Common
  import opened Geometry
  import opened Blocks
  import opened Allocation
  import opened Catalog
  import opened UndoJournal
  import opened CrashSafety

  const DLIST_OFFSET: nat := 0x4200

  /** Byte `i` belongs to a slot no allocation uses. */
  predicate FreeByte(rs: seq<Bitmap>, i: nat) {
    i >= FIRST_AMAP && SlotNumber(i) < SLOTS_PER_AMAP * |rs| && !SlotSet(rs, SlotNumber(i))
  }

  predicate Hits(w: BodyWrite, i: nat) {
    w.off <= i < w.off + |w.raw|
  }

  /** The byte the last write over `i` leaves there. */
  function LastByte(writes: seq<BodyWrite>, i: nat): Option<byte> {
    if writes == [] then None
    else
      var w := writes[|writes| - 1];
      if Hits(w, i) then Some(w.raw[i - w.off]) else LastByte(writes[..|writes| - 1], i)
  }

  lemma {:induction false} LaidByte(f: File, writes: seq<BodyWrite>, i: nat)
    ensures At(Laid(f, writes), i) == if LastByte(writes, i).Some? then LastByte(writes, i).value else At(f, i)
  {
    if writes != [] {
      LaidByte(f, writes[..|writes| - 1], i);
    }
  }

  // ---------- zeroing free slots ----------

  /** The runs up to slot `slot` of region `r` zero exactly the free slots before it. */
  ghost predicate ZeroedTo(rs: seq<Bitmap>, runs: seq<BodyWrite>, r: nat, slot: nat) {
    forall f: File, i: nat :: At(Laid(f, runs), i) ==
      if FreeByte(rs, i) && SlotNumber(i) < SLOTS_PER_AMAP * r + slot then 0 else At(f, i)
  }

  /** One run of free slots. */
  lemma RunZeroes(rs: seq<Bitmap>, runs: seq<BodyWrite>, r: nat, start: nat, end: nat, off: nat)
    requires r < |rs| && start < end <= SLOTS_PER_AMAP && ZeroedTo(rs, runs, r, start) &&
      AllAre(rs[r], start, end - start, false)
    requires off == FIRST_AMAP + (SLOTS_PER_AMAP * r + start) * BYTES_PER_SLOT
    ensures ZeroedTo(rs, runs + [BodyWrite(off, Zeros((end - start) * BYTES_PER_SLOT))], r, end)
  {
    var w := BodyWrite(off, Zeros((end - start) * BYTES_PER_SLOT));
    forall f: File, i: nat
      ensures At(Laid(f, runs + [w]), i) ==
        if FreeByte(rs, i) && SlotNumber(i) < SLOTS_PER_AMAP * r + end then 0 else At(f, i)
    {
      LaidSnoc(f, runs, w);
      RunCovers(rs, r, start, end, i);
      hide Laid, FreeByte;
    }
  }

  lemma RunCovers(rs: seq<Bitmap>, r: nat, start: nat, end: nat, i: nat)
    requires r < |rs| && start < end <= SLOTS_PER_AMAP && AllAre(rs[r], start, end - start, false)
    ensures var off := FIRST_AMAP + (SLOTS_PER_AMAP * r + start) * BYTES_PER_SLOT;
      off <= i < off + (end - start) * BYTES_PER_SLOT <==>
      i >= FIRST_AMAP && SLOTS_PER_AMAP * r + start <= SlotNumber(i) < SLOTS_PER_AMAP * r + end
    ensures i >= FIRST_AMAP && SLOTS_PER_AMAP * r + start <= SlotNumber(i) < SLOTS_PER_AMAP * r + end ==>
      FreeByte(rs, i)
  {
    if i >= FIRST_AMAP && SLOTS_PER_AMAP * r + start <= SlotNumber(i) < SLOTS_PER_AMAP * r + end {
      assert SlotNumber(i) / SLOTS_PER_AMAP == r &&
        SlotNumber(i) % SLOTS_PER_AMAP == SlotNumber(i) - SLOTS_PER_AMAP * r;
    }
  }

  lemma SetSkips(rs: seq<Bitmap>, runs: seq<BodyWrite>, r: nat, slot: nat)
    requires r < |rs| && slot < SLOTS_PER_AMAP && rs[r][slot] && ZeroedTo(rs, runs, r, slot)
    ensures ZeroedTo(rs, runs, r, slot + 1)
  {
    assert SlotSet(rs, SLOTS_PER_AMAP * r + slot);
    hide Laid, SlotSet;
  }

  /** zeroFreeSlotsAt: each maximal run of free slots in one write. */
  method ZeroFreeSlots(rs: seq<Bitmap>) returns (runs: seq<BodyWrite>)
    ensures ZeroedTo(rs, runs, |rs|, 0)
  {
    runs := [];
    for r := 0 to |rs|
      invariant ZeroedTo(rs, runs, r, 0)
    {
      hide ZeroedTo;
      var slot := 0;
      while slot < SLOTS_PER_AMAP
        invariant 0 <= slot <= SLOTS_PER_AMAP && ZeroedTo(rs, runs, r, slot)
      {
        if rs[r][slot] {
          SetSkips(rs, runs, r, slot);
          slot := slot + 1;
          continue;
        }
        var start := slot;
        while slot < SLOTS_PER_AMAP && !rs[r][slot]
          invariant start <= slot <= SLOTS_PER_AMAP && AllAre(rs[r], start, slot - start, false)
        {
          slot := slot + 1;
        }
        var off := FIRST_AMAP + (SLOTS_PER_AMAP * r + start) * BYTES_PER_SLOT;
        RunZeroes(rs, runs, r, start, slot, off);
        runs := runs + [BodyWrite(off, Zeros((slot - start) * BYTES_PER_SLOT))];
      }
      NextRegion(rs, runs, r);
    }
  }

  lemma NextRegion(rs: seq<Bitmap>, runs: seq<BodyWrite>, r: nat)
    requires ZeroedTo(rs, runs, r, SLOTS_PER_AMAP)
    ensures ZeroedTo(rs, runs, r + 1, 0)
  {
    hide Laid, FreeByte;
  }

  // ---------- the whole body ----------

  /** copyReaderAtFrom: stops at the source's end. */
  function Copied(src: Option<File>, eof: nat): seq<BodyWrite> {
    if src.None? then [] else Chunks(src.value, HEADER_SIZE, if |src.value| < eof then |src.value| else eof)
  }

  /** Byte `i` of a commit: a tree page's, else a map page's, else the density list's, else zero in a free slot, else
      the payload source's, else what the destination held. */
  function CommitByte(f: File, src: Option<File>, eof: nat, rs: seq<Bitmap>, dlist: seq<byte>, maps: seq<BodyWrite>,
                      pages: seq<BodyWrite>, i: nat): byte {
    if LastByte(pages, i).Some? then LastByte(pages, i).value
    else if LastByte(maps, i).Some? then LastByte(maps, i).value
    else if DLIST_OFFSET <= i < DLIST_OFFSET + |dlist| then dlist[i - DLIST_OFFSET]
    else if FreeByte(rs, i) then 0
    else if src.Some? && HEADER_SIZE <= i < |src.value| && i < eof then src.value[i]
    else At(f, i)
  }

  ghost predicate CommitImage(body: File, f: File, src: Option<File>, eof: nat, rs: seq<Bitmap>, dlist: seq<byte>,
                              maps: seq<BodyWrite>, pages: seq<BodyWrite>) {
    |body| == eof && forall i | 0 <= i < eof :: body[i] == CommitByte(f, src, eof, rs, dlist, maps, pages, i)
  }

  lemma CopiedByte(f: File, src: Option<File>, eof: nat, i: nat)
    ensures At(Laid(f, Copied(src, eof)), i) ==
      if src.Some? && HEADER_SIZE <= i < |src.value| && i < eof then src.value[i] else At(f, i)
  {
    if src.Some? {
      ChunksProduce(f, src.value, HEADER_SIZE, if |src.value| < eof then |src.value| else eof, i);
    }
    hide Chunks;
  }

  lemma BodyIs(f: File, src: Option<File>, eof: nat, rs: seq<Bitmap>, runs: seq<BodyWrite>, dlist: seq<byte>,
               maps: seq<BodyWrite>, pages: seq<BodyWrite>)
    requires ZeroedTo(rs, runs, |rs|, 0)
    ensures CommitImage(BodyOf(f, Copied(src, eof) + runs + [BodyWrite(DLIST_OFFSET, dlist)] + maps, eof, pages), f,
                        src, eof, rs, dlist, maps, pages)
  {
    hide Copied, Laid, ZeroedTo;
    var first := Copied(src, eof) + runs + [BodyWrite(DLIST_OFFSET, dlist)] + maps;
    forall i | 0 <= i < eof
      ensures At(Laid(Laid(f, first), pages), i) == CommitByte(f, src, eof, rs, dlist, maps, pages, i)
    {
      FirstByte(f, src, eof, rs, runs, dlist, maps, i);
      LaidByte(Laid(f, first), pages, i);
      hide FreeByte, LastByte;
    }
  }

  /** A byte after writeBody. */
  lemma FirstByte(f: File, src: Option<File>, eof: nat, rs: seq<Bitmap>, runs: seq<BodyWrite>, dlist: seq<byte>,
                  maps: seq<BodyWrite>, i: nat)
    requires ZeroedTo(rs, runs, |rs|, 0)
    ensures At(Laid(f, Copied(src, eof) + runs + [BodyWrite(DLIST_OFFSET, dlist)] + maps), i) == CommitByte(f, src,
        eof, rs, dlist, maps, [], i)
  {
    hide Copied, Laid, ZeroedTo, FreeByte, LastByte;
    var copy, d := Copied(src, eof), BodyWrite(DLIST_OFFSET, dlist);
    LaidInTurn(f, copy, runs, d, maps);
    var f1 := Laid(f, copy);
    CopiedByte(f, src, eof, i);
    RunByte(f1, rs, runs, i);
    var f3 := Put(Laid(f1, runs), DLIST_OFFSET, dlist);
    LaidByte(f3, maps, i);
    NoHit([], i);
  }

  lemma RunByte(f: File, rs: seq<Bitmap>, runs: seq<BodyWrite>, i: nat)
    requires ZeroedTo(rs, runs, |rs|, 0)
    ensures At(Laid(f, runs), i) == if FreeByte(rs, i) then 0 else At(f, i)
  {
    hide Laid, SlotSet;
  }

  lemma LaidInTurn(f: File, a: seq<BodyWrite>, b: seq<BodyWrite>, w: BodyWrite, c: seq<BodyWrite>)
    ensures Laid(f, a + b + [w] + c) == Laid(Put(Laid(Laid(f, a), b), w.off, w.raw), c)
  {
    hide Laid;
    LaidAppend(f, a, b);
    LaidSnoc(f, a + b, w);
    LaidAppend(f, a + b + [w], c);
  }

  /** writeCommit: every step of the two-phase write is safe, and what it publishes is the commit image. */
  method WriteCommit(dev: Device, root: nat, src: Option<File>, eof: nat, rs: seq<Bitmap>, dlist: seq<byte>,
                     maps: seq<BodyWrite>, pages: seq<BodyWrite>, ghost before: Image)
    returns (ok: bool, ghost body: File)
    requires Settled(dev, before) && dev.crashes == [] && Within(pages, eof)
    modifies dev
    ensures CommitImage(body, before.body, src, eof, rs, dlist, maps, pages)
    ensures AllSafe(dev.crashes, before, Header(true, root), body, dev.cuts)
    ensures ok ==> Complete(dev.durable, Header(true, root), body, dev.cuts)
    ensures !dev.faulty ==> ok
  {
    hide Laid, AllSafe, Complete, Within, BodyOf, Copied, ZeroedTo, CommitImage;
    var runs := ZeroFreeSlots(rs);
    var first := Copied(src, eof) + runs + [BodyWrite(DLIST_OFFSET, dlist)] + maps;
    BodyIs(before.body, src, eof, rs, runs, dlist, maps, pages);
    body := BodyOf(before.body, first, eof, pages);
    ok := WriteTwoPhase(dev, root, first, eof, pages, before);
  }

  // ---------- live payloads ----------

  /** The map pages of the regions and the tree pages, each one page long and in its own place. */
  ghost predicate InPlace(count: nat, maps: seq<BodyWrite>, pages: seq<BodyWrite>, pageSet: set<nat>) {
    && (forall k | 0 <= k < |maps| :: IsMapPage(count, maps[k]))
    && forall k | 0 <= k < |pages| :: pages[k].off in pageSet && |pages[k].raw| == PAGE_SIZE
  }

  ghost predicate IsMapPage(count: nat, w: BodyWrite) {
    |w.raw| == PAGE_SIZE && exists r: nat, j: nat | r < count && j < |RegionMapPages(r)| ::
      w.off == RegionMapPages(r)[j].offset
  }

  lemma MapPageMeta(count: nat, w: BodyWrite, i: nat)
    requires IsMapPage(count, w) && Hits(w, i)
    ensures i >= FIRST_AMAP && SlotNumber(i) in Meta(count)
  {
    var r: nat, j: nat :| r < count && j < |RegionMapPages(r)| && w.off == RegionMapPages(r)[j].offset;
    assert w.off == AMapOffset(r) + j * PAGE_SIZE;
    hide RegionMapPages;
    var g := SlotNumber(i);
    assert SLOTS_PER_AMAP * r + SLOTS_PER_PAGE * j <= g < SLOTS_PER_AMAP * r + SLOTS_PER_PAGE * j + SLOTS_PER_PAGE;
    assert g / SLOTS_PER_AMAP == r && g % SLOTS_PER_AMAP < MetaCount(r);
  }

  lemma {:induction false} NoHit(writes: seq<BodyWrite>, i: nat)
    requires forall k | 0 <= k < |writes| :: !Hits(writes[k], i)
    ensures LastByte(writes, i) == None
  {
    if writes != [] {
      NoHit(writes[..|writes| - 1], i);
    }
  }

  /** By the exact partition of the space, a commit carries every live payload over unchanged. */
  lemma PayloadsCarried(body: File, f: File, src: File, eof: nat, rs: seq<Bitmap>, dlist: seq<byte>,
                        maps: seq<BodyWrite>, pages: seq<BodyWrite>,
                        blocks: map<nat, BBTEntry>, pageSet: set<nat>, b: nat, i: nat)
    requires CommitImage(body, f, Some(src), eof, rs, dlist, maps, pages) && InPlace(|rs|, maps, pages, pageSet)
    requires Space(rs, blocks, pageSet) && |dlist| == PAGE_SIZE
    requires b in blocks && blocks[b].ib <= i < blocks[b].ib + Size(blocks[b]) && i < eof && i < |src|
    ensures body[i] == src[i]
  {
    PayloadSlot(rs, blocks, pageSet, b, i);
    forall k | 0 <= k < |maps|
      ensures !Hits(maps[k], i)
    {
      if Hits(maps[k], i) {
        MapPageMeta(|rs|, maps[k], i);
      }
    }
    hide Space;
    NoHit(maps, i);
    NoHit(pages, i);
    hide FreeByte, LastByte;
    assert body[i] == CommitByte(f, Some(src), eof, rs, dlist, maps, pages, i);
  }

  lemma SlotOfByte(ib: nat, size: nat, i: nat)
    requires Aligned(ib, size) && ib <= i < ib + size
    ensures SlotNumber(i) in Slots(ib, size)
  {
    var k := (ib - FIRST_AMAP) / BYTES_PER_SLOT;
    var n := size / BYTES_PER_SLOT;
    assert ib == FIRST_AMAP + BYTES_PER_SLOT * k && size == BYTES_PER_SLOT * n;
  }

  lemma PayloadSlot(rs: seq<Bitmap>, blocks: map<nat, BBTEntry>, pageSet: set<nat>, b: nat, i: nat)
    requires Space(rs, blocks, pageSet) && b in blocks && blocks[b].ib <= i < blocks[b].ib + Size(blocks[b])
    ensures i >= FIRST_AMAP && !FreeByte(rs, i) && SlotNumber(i) !in Meta(|rs|)
    ensures forall p | p in pageSet :: !(p <= i < p + PAGE_SIZE)
  {
    var g := SlotNumber(i);
    SlotOfByte(blocks[b].ib, Size(blocks[b]), i);
    assert g in BlockSlots(blocks) && g in Used(rs) && g !in PageSlots(pageSet);
    forall p | p in pageSet
      ensures !(p <= i < p + PAGE_SIZE)
    {
      assert InRegion(|rs|, p, PAGE_SIZE);
      assert Slots(p, PAGE_SIZE) <= PageSlots(pageSet);
      if p <= i < p + PAGE_SIZE {
        SlotOfByte(p, PAGE_SIZE, i);
      }
    }
  }
}
