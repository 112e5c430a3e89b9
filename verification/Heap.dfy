/** Heap-on-Node: allocation, page encoding and the reader's inspection, byte for byte (heap.go, heap_read.go). */
module HeapOnNode {
  import opened Common
  import opened Geometry

  const MAX_ALLOCATION: nat := 3580
  const MAX_PER_PAGE: nat := 2047
  const MAX_PAGE_INDEX: nat := 0xFFFF
  const HEAP_SIG: byte := 0xEC
  const LTP_TYPE: nat := 0x1F

  type Bytes = seq<byte>

  /** The allocations of one page, in order. */
  type Allocs = seq<Bytes>

  predicate BitmapPage(i: nat) {
    i >= 8 && (i - 8) % 128 == 0
  }

  function HeaderSize(i: nat): (n: nat)
    ensures 2 <= n <= 66
  {
    if i == 0 then 12 else if BitmapPage(i) then 66 else 2
  }

  function FillSize(i: nat): nat {
    if i == 0 then 4 else if BitmapPage(i) then 64 else 0
  }

  // ---------- identifiers ----------

  function MakeHID(block: nat, alloc0: nat): nat {
    block * 65536 + (alloc0 + 1) * 32
  }

  function HIDBlock(hid: nat): nat {
    hid / 65536
  }

  function HIDIndex(hid: nat): nat {
    hid / 32 % 2048
  }

  predicate IsHID(hnid: nat) {
    hnid % 32 == 0
  }

  /** A HID names its page and allocation, is never zero, and no two allocations share one. */
  lemma HIDParts(block: nat, alloc0: nat)
    requires alloc0 < MAX_PER_PAGE
    ensures HIDBlock(MakeHID(block, alloc0)) == block && HIDIndex(MakeHID(block, alloc0)) == alloc0 + 1
    ensures MakeHID(block, alloc0) != 0 && IsHID(MakeHID(block, alloc0))
  {
  }

  function SubNID(n: nat): nat {
    LTP_TYPE + 32 * n
  }

  // ---------- pages ----------

  function Flat(allocs: Allocs): Bytes {
    if allocs == [] then [] else Flat(allocs[..|allocs| - 1]) + allocs[|allocs| - 1]
  }

  /** Encoded size of page `i`. */
  function PageSize(i: nat, allocs: Allocs): nat {
    HeaderSize(i) + |Flat(allocs)| + 4 + 2 * (|allocs| + 1)
  }

  ghost predicate PageFits(i: nat, allocs: Allocs) {
    && |allocs| <= MAX_PER_PAGE && PageSize(i, allocs) <= MAX_DATA_CB
    && forall k | 0 <= k < |allocs| :: |allocs[k]| <= MAX_ALLOCATION
  }

  lemma FlatSnoc(allocs: Allocs, a: Bytes)
    ensures Flat(allocs + [a]) == Flat(allocs) + a
  {
    assert (allocs + [a])[..|allocs|] == allocs;
  }

  lemma {:induction false} FlatPrefix(allocs: Allocs, k: nat)
    requires k <= |allocs|
    ensures |Flat(allocs[..k])| <= |Flat(allocs)| && Flat(allocs[..k]) == Flat(allocs)[..|Flat(allocs[..k])|]
    decreases |allocs| - k
  {
    if k < |allocs| {
      FlatPrefix(allocs, k + 1);
      assert allocs[..k + 1][..k] == allocs[..k];
    } else {
      assert allocs[..k] == allocs;
    }
  }

  /** Subnode identifiers rise, so they are distinct, and none can be taken for a HID. */
  ghost predicate SubsIssued(subs: seq<(nat, Bytes)>, next: nat) {
    && (forall i | 0 <= i < |subs| :: subs[i].0 < SubNID(next) && !IsHID(subs[i].0))
    && forall i, j | 0 <= i < j < |subs| :: subs[i].0 < subs[j].0
  }

  class Heap {
    const sig: byte
    var root: nat
    var pages: seq<Allocs>
    var subs: seq<(nat, Bytes)>
    var nextSub: nat

    ghost predicate Valid()
      reads this
    {
      && |pages| <= MAX_PAGE_INDEX + 1
      && (forall i | 0 <= i < |pages| :: PageFits(i, pages[i]))
      && SubsIssued(subs, nextSub)
    }

    constructor (sig: byte)
      ensures Valid() && pages == [] && subs == [] && this.sig == sig && root == 0
    {
      this.sig, root, pages, subs, nextSub := sig, 0, [], [], 1;
    }

    /** Whether one more allocation of `size` bytes fits page `i`: exactly when the encoded page still fits a block. */
    method Fits(i: nat, size: nat) returns (b: bool)
      requires i < |pages|
      ensures b <==> |pages[i]| < MAX_PER_PAGE && PageSize(i, pages[i]) + size + 2 <= MAX_DATA_CB
    {
      if |pages[i]| >= MAX_PER_PAGE {
        return false;
      }
      var used := MeasurePage(i, pages[i]);
      return used + size + 2 <= MAX_DATA_CB;
    }

    /** Appends to the last page, where it fits. */
    method Place(data: Bytes) returns (hid: nat)
      requires Valid() && pages != [] && |data| <= MAX_ALLOCATION
      requires var i := |pages| - 1; |pages[i]| < MAX_PER_PAGE && PageSize(i, pages[i]) + |data| + 2 <= MAX_DATA_CB
      modifies `pages
      ensures Valid() && IsHID(hid) && 0 < hid < 0x1_0000_0000
      ensures pages == old(pages)[|old(pages)| - 1 := old(pages)[|old(pages)| - 1] + [data]]
      ensures hid == MakeHID(|pages| - 1, |pages[|pages| - 1]| - 1)
    {
      hide Flat, BitmapPage;
      var i := |pages| - 1;
      hid := MakeHID(i, |pages[i]|);
      HIDParts(i, |pages[i]|);
      FlatSnoc(pages[i], data);
      pages := pages[i := pages[i] + [data]];
    }

    /** The page an allocation of at most 3580 bytes goes to: the last one or a fresh one. */
    method Room(size: nat) returns (r: Result<()>)
      requires Valid() && size <= MAX_ALLOCATION
      modifies `pages
      ensures Valid()
      ensures r.Ok? ==>
        pages != [] && |pages[|pages| - 1]| < MAX_PER_PAGE &&
        PageSize(|pages| - 1, pages[|pages| - 1]) + size + 2 <= MAX_DATA_CB
      ensures r.Ok? ==> pages == old(pages) || pages == old(pages) + [[]]
      ensures r.Err? ==> pages == old(pages) && |pages| == MAX_PAGE_INDEX + 1 && r == Err(LimitExceeded)
    {
      hide BitmapPage, HeaderSize;
      assert Flat([]) == [];
      if |pages| == 0 {
        pages := pages + [[]];
      }
      var i := |pages| - 1;
      var fits := Fits(i, size);
      if !fits {
        if |pages[i]| == 0 && size + HeaderSize(i) + 6 > MAX_DATA_CB {
          return Err(InvalidArg);
        }
        if i >= MAX_PAGE_INDEX {
          return Err(LimitExceeded);
        }
        pages := pages + [[]];
        fits := Fits(i + 1, size);
        if !fits {
          return Err(InvalidArg);
        }
      }
      return Ok(());
    }

    /** Small values become a HID of the last page or of a new one; large ones an LTP subnode. The only failure is
        the 16-bit page index. Earlier allocations keep their place. */
    method Allocate(data: Bytes) returns (r: Result<nat>)
      requires Valid()
      modifies `pages, `subs, `nextSub
      ensures Valid()
      ensures |data| > MAX_ALLOCATION ==>
        r == Ok(SubNID(old(nextSub))) && subs == old(subs) + [(r.value, data)] && pages == old(pages)
      ensures |data| <= MAX_ALLOCATION ==> subs == old(subs) && nextSub == old(nextSub)
      ensures |data| <= MAX_ALLOCATION && r.Ok? ==>
        IsHID(r.value) && 0 < r.value < 0x1_0000_0000 && Named(pages, r.value) == Some(data) &&
          Named(old(pages), r.value) == None
      ensures |data| <= MAX_ALLOCATION && r.Ok? ==> Extends(old(pages), pages)
      ensures r.Err? ==> pages == old(pages) && |pages| == MAX_PAGE_INDEX + 1 && r == Err(LimitExceeded)
    {
      hide BitmapPage, HeaderSize, Flat, PageFits, PageSize, Extends, Named;
      if |data| > MAX_ALLOCATION {
        var nid := SubNID(nextSub);
        subs := subs + [(nid, data)];
        nextSub := nextSub + 1;
        return Ok(nid);
      }
      ghost var before := pages;
      var room := Room(|data|);
      if room.Err? {
        return Err(room.error);
      }
      if |pages| - 1 > MAX_PAGE_INDEX {
        return Err(LimitExceeded);
      }
      if |pages[|pages| - 1]| >= MAX_PER_PAGE {
        return Err(LimitExceeded);
      }
      ghost var mid := pages;
      var hid := Place(data);
      Placed(before, mid, pages, data);
      return Ok(hid);
    }
  }

  /** What a HID names in the pages built so far. */
  function Named(pages: seq<Allocs>, hid: nat): Option<Bytes> {
    var block, idx := HIDBlock(hid), HIDIndex(hid);
    if IsHID(hid) && block < |pages| && 0 < idx <= |pages[block]| then Some(pages[block][idx - 1]) else None
  }

  /** Every HID keeps naming what it named. */
  ghost predicate Extends(pages: seq<Allocs>, pages': seq<Allocs>) {
    forall hid | Named(pages, hid).Some? :: Named(pages', hid) == Named(pages, hid)
  }

  lemma Placed(before: seq<Allocs>, mid: seq<Allocs>, after: seq<Allocs>, data: Bytes)
    requires (mid == before || mid == before + [[]]) && mid != [] && |mid[|mid| - 1]| < MAX_PER_PAGE
    requires after == mid[|mid| - 1 := mid[|mid| - 1] + [data]]
    ensures Extends(before, after)
    ensures var hid := MakeHID(|after| - 1, |after[|after| - 1]| - 1);
      Named(after, hid) == Some(data) && Named(before, hid) == None
  {
    HIDParts(|mid| - 1, |mid[|mid| - 1]|);
  }

  // ---------- encoding ----------

  function LE16(v: nat): (r: Bytes)
    ensures |r| == 2
  {
    [v % 256, v / 256 % 256]
  }

  function LE32(v: nat): (r: Bytes)
    ensures |r| == 4
  {
    LE16(v % 65536) + LE16(v / 65536)
  }

  function Word(data: Bytes, off: nat): nat
    requires off + 2 <= |data|
  {
    var lo: int, hi: int := data[off], data[off + 1];
    lo + 256 * hi
  }

  function LE16s(vs: seq<nat>): (r: Bytes)
    ensures |r| == 2 * |vs|
  {
    if vs == [] then [] else LE16s(vs[..|vs| - 1]) + LE16(vs[|vs| - 1])
  }

  /** Where each allocation of page `i` starts, and where the last one ends. */
  function Starts(i: nat, allocs: Allocs): seq<nat> {
    seq(|allocs| + 1, k requires 0 <= k <= |allocs| => HeaderSize(i) + |Flat(allocs[..k])|)
  }

  /** What the HN header of page `i` says besides the map offset. */
  function Tail(i: nat, sig: byte, root: nat, fill: Bytes): (r: Bytes)
    requires |fill| == FillSize(i)
    ensures |r| == HeaderSize(i) - 2
  {
    if i == 0 then [HEAP_SIG, sig] + LE32(root) + fill else fill
  }

  function PageBytes(i: nat, sig: byte, root: nat, allocs: Allocs, fill: Bytes): (r: Bytes)
    requires |fill| == FillSize(i)
    ensures |r| == PageSize(i, allocs)
  {
    LE16(HeaderSize(i) + |Flat(allocs)|) + Tail(i, sig, root,
                                                fill) + Flat(allocs) + LE16(|allocs|) + LE16(0) + LE16s(Starts(i,
                                                    allocs))
  }

  /** Writes `data` at `off`, where everything up to `off` is already in place. */
  method Append(buf: array<byte>, off: nat, data: Bytes) returns (next: nat)
    requires off + |data| <= buf.Length
    modifies buf
    ensures next == off + |data| && buf[..next] == old(buf[..off]) + data
  {
    for k := 0 to |data|
      invariant buf[..off + k] == old(buf[..off]) + data[..k]
    {
      buf[off + k] := data[k];
      assert data[..k + 1] == data[..k] + [data[k]];
    }
    assert data[..|data|] == data;
    next := off + |data|;
  }

  /** The allocations, noting where each starts. */
  method WriteAllocs(buf: array<byte>, at: nat, i: nat, allocs: Allocs) returns (off: nat, rg: seq<nat>)
    requires at == HeaderSize(i) && at + |Flat(allocs)| <= buf.Length
    modifies buf
    ensures off == at + |Flat(allocs)| && buf[..off] == old(buf[..at]) + Flat(allocs)
    ensures rg == Starts(i, allocs) && |rg| == |allocs| + 1
  {
    hide HeaderSize;
    off, rg := at, [];
    for k := 0 to |allocs|
      invariant off == at + |Flat(allocs[..k])| <= at + |Flat(allocs)| &&
        buf[..off] == old(buf[..at]) + Flat(allocs[..k])
      invariant rg == Starts(i, allocs)[..k]
    {
      FlatPrefix(allocs, k + 1);
      assert allocs[..k + 1] == allocs[..k] + [allocs[k]];
      FlatSnoc(allocs[..k], allocs[k]);
      hide Flat;
      rg := rg + [off];
      off := Append(buf, off, allocs[k]);
    }
    assert allocs[..|allocs|] == allocs;
    rg := rg + [off];
    assert rg == Starts(i, allocs);
  }

  method WriteWords(buf: array<byte>, at: nat, vs: seq<nat>) returns (off: nat)
    requires at + 2 * |vs| <= buf.Length
    modifies buf
    ensures off == at + 2 * |vs| && buf[..off] == old(buf[..at]) + LE16s(vs)
  {
    hide LE16s;
    off := at;
    NoWords();
    assert vs[..0] == [];
    for k := 0 to |vs|
      invariant off == at + 2 * k && buf[..off] == old(buf[..at]) + LE16s(vs[..k])
    {
      WordsSnoc(vs, k);
      off := Append(buf, off, LE16(vs[k]));
    }
    assert vs[..|vs|] == vs;
  }

  method MeasurePage(i: nat, allocs: Allocs) returns (size: nat)
    ensures size == PageSize(i, allocs)
  {
    size := HeaderSize(i) + 4 + 2 * (|allocs| + 1);
    for k := 0 to |allocs|
      invariant size == HeaderSize(i) + 4 + 2 * (|allocs| + 1) + |Flat(allocs[..k])|
    {
      assert allocs[..k + 1] == allocs[..k] + [allocs[k]];
      FlatSnoc(allocs[..k], allocs[k]);
      size := size + |allocs[k]|;
    }
    assert allocs[..|allocs|] == allocs;
  }

  /** encodeHNPage: the fill levels go into the header of pages that carry them. */
  method EncodePage(i: nat, sig: byte, root: nat, allocs: Allocs, fill: Bytes) returns (r: Result<Bytes>)
    requires |fill| == FillSize(i)
    ensures r ==
      if PageSize(i, allocs) <= MAX_DATA_CB then Ok(PageBytes(i, sig, root, allocs, fill)) else Err(LimitExceeded)
  {
    hide LE16s, BitmapPage, HeaderSize, LE32, LE16, Tail, FillSize, Flat, Starts;
    var size := MeasurePage(i, allocs);
    if size > MAX_DATA_CB {
      return Err(LimitExceeded);
    }
    var buf := new byte[size](_ => 0);
    var off := Append(buf, 0, LE16(size - 4 - 2 * (|allocs| + 1)));
    assert buf[..off] == LE16(HeaderSize(i) + |Flat(allocs)|);
    off := Append(buf, off, Tail(i, sig, root, fill));
    var rg;
    off, rg := WriteAllocs(buf, off, i, allocs);
    off := Append(buf, off, LE16(|allocs|));
    off := Append(buf, off, LE16(0));
    off := WriteWords(buf, off, rg);
    assert buf[..off] == buf[..];
    return Ok(buf[..]);
  }

  lemma NoWords()
    ensures LE16s([]) == []
  {
  }

  lemma WordsSnoc(vs: seq<nat>, k: nat)
    requires k < |vs|
    ensures LE16s(vs[..k + 1]) == LE16s(vs[..k]) + LE16(vs[k])
  {
    assert vs[..k + 1][..k] == vs[..k];
    hide LE16;
  }

  // ---------- inspection ----------

  /** A decoded page: where its map is, what its header says, and the allocation offsets. */
  datatype View = View(ib: nat, sig: byte, root: nat, fill: Bytes, offsets: seq<nat>, raw: Bytes)

  predicate Rising(vs: seq<nat>) {
    forall k | 0 <= k < |vs| - 1 :: vs[k] <= vs[k + 1]
  }

  function Words(data: Bytes, at: nat, n: nat): (r: seq<nat>)
    requires at + 2 * n <= |data|
    ensures |r| == n && forall k | 0 <= k < n :: r[k] == Word(data, at + 2 * k)
  {
    seq(n, k requires 0 <= k < n => Word(data, at + 2 * k))
  }

  function Parsed(i: nat, data: Bytes): Result<View> {
    if |data| < HeaderSize(i) then Err(InvariantBroken)
    else if i == 0 && data[2] != HEAP_SIG then Err(InvariantBroken)
    else if Word(data, 0) + 4 > |data| then Err(InvariantBroken)
    else if |data| - Word(data, 0) < 4 + 2 * (Word(data, Word(data, 0)) + 1) then Err(InvariantBroken)
    else
      var ib := Word(data, 0);
      var n := Word(data, ib);
      var offsets := Words(data, ib + 4, n + 1);
      if offsets[n] != ib || !Rising(offsets) then Err(InvariantBroken)
      else Ok(View(ib, if i == 0 then data[3] else 0, if i == 0 then Word(data, 4) + 65536 * Word(data, 6) else 0,
                   data[HeaderSize(i) - FillSize(i)..HeaderSize(i)], offsets, data))
  }

  method ReadOffsets(data: Bytes, ib: nat, n: nat) returns (offsets: seq<nat>)
    requires ib + 4 + 2 * (n + 1) <= |data|
    ensures offsets == Words(data, ib + 4, n + 1)
  {
    hide Word;
    offsets := [];
    for k := 0 to n + 1
      invariant offsets == Words(data, ib + 4, n + 1)[..k]
    {
      offsets := offsets + [Word(data, ib + 4 + 2 * k)];
    }
  }

  method CheckRising(vs: seq<nat>) returns (b: bool)
    requires |vs| > 0
    ensures b <==> Rising(vs)
  {
    for k := 1 to |vs|
      invariant forall m | 0 <= m < k - 1 :: vs[m] <= vs[m + 1]
    {
      if vs[k] < vs[k - 1] {
        assert vs[k - 1] > vs[k - 1 + 1];
        return false;
      }
    }
    return true;
  }

  /** InspectHNPage. */
  method InspectPage(i: nat, data: Bytes) returns (r: Result<View>)
    ensures r == Parsed(i, data)
  {
    hide Word, Words, Rising, BitmapPage;
    if |data| < HeaderSize(i) {
      return Err(InvariantBroken);
    }
    if i == 0 && data[2] != HEAP_SIG {
      return Err(InvariantBroken);
    }
    var ib := Word(data, 0);
    if ib + 4 > |data| {
      return Err(InvariantBroken);
    }
    var n := Word(data, ib);
    if |data| - ib < 4 + 2 * (n + 1) {
      return Err(InvariantBroken);
    }
    var offsets := ReadOffsets(data, ib, n);
    if offsets[n] != ib {
      return Err(InvariantBroken);
    }
    var rising := CheckRising(offsets);
    if !rising {
      return Err(InvariantBroken);
    }
    var sig, root := if i == 0 then data[3] else 0, if i == 0 then Word(data, 4) + 65536 * Word(data, 6) else 0;
    return Ok(View(ib, sig, root, data[HeaderSize(i) - FillSize(i)..HeaderSize(i)], offsets, data));
  }

  lemma WordAt(pre: Bytes, v: nat, post: Bytes)
    requires v < 65536
    ensures Word(pre + LE16(v) + post, |pre|) == v
  {
    var d := pre + LE16(v) + post;
    assert d[|pre|] == LE16(v)[0] && d[|pre| + 1] == LE16(v)[1];
  }

  lemma {:induction false} LE16sSplit(vs: seq<nat>, k: nat)
    requires k < |vs|
    ensures exists post: Bytes :: LE16s(vs) == LE16s(vs[..k]) + LE16(vs[k]) + post
    decreases |vs| - k
  {
    if k == |vs| - 1 {
      assert vs[..k + 1] == vs;
      WordsSnoc(vs, k);
      assert LE16s(vs) == LE16s(vs[..k]) + LE16(vs[k]) + [];
    } else {
      LE16sSplit(vs, k + 1);
      var post: Bytes :| LE16s(vs) == LE16s(vs[..k + 1]) + LE16(vs[k + 1]) + post;
      WordsSnoc(vs, k);
      assert LE16s(vs) == LE16s(vs[..k]) + LE16(vs[k]) + (LE16(vs[k + 1]) + post);
    }
  }

  lemma Regroup(a: Bytes, b: Bytes, c: Bytes, d: Bytes)
    ensures a + (b + c + d) == (a + b) + c + d
  {
  }

  lemma WordsAt(pre: Bytes, vs: seq<nat>, k: nat)
    requires k < |vs| && vs[k] < 65536
    ensures Word(pre + LE16s(vs), |pre| + 2 * k) == vs[k]
  {
    hide LE16, LE16s, Word;
    LE16sSplit(vs, k);
    var post: Bytes :| LE16s(vs) == LE16s(vs[..k]) + LE16(vs[k]) + post;
    Regroup(pre, LE16s(vs[..k]), LE16(vs[k]), post);
    WordAt(pre + LE16s(vs[..k]), vs[k], post);
  }

  lemma StartsRise(i: nat, allocs: Allocs)
    requires PageSize(i, allocs) <= MAX_DATA_CB
    ensures var vs := Starts(i, allocs);
      && Rising(vs) && vs[|allocs|] == HeaderSize(i) + |Flat(allocs)|
      && forall k | 0 <= k < |vs| :: vs[k] < 65536
  {
    forall k | 0 <= k <= |allocs|
      ensures |Flat(allocs[..k])| <= |Flat(allocs)|
      ensures k < |allocs| ==> |Flat(allocs[..k])| <= |Flat(allocs[..k + 1])|
    {
      FlatPrefix(allocs, k);
      if k < |allocs| {
        assert allocs[..k + 1] == allocs[..k] + [allocs[k]];
        FlatSnoc(allocs[..k], allocs[k]);
      }
    }
    assert allocs[..|allocs|] == allocs;
  }

  function ViewOf(i: nat, sig: byte, root: nat, allocs: Allocs, fill: Bytes): View
    requires |fill| == FillSize(i)
  {
    View(HeaderSize(i) + |Flat(allocs)|, if i == 0 then sig else 0, if i == 0 then root else 0, fill,
         Starts(i, allocs), PageBytes(i, sig, root, allocs, fill))
  }

  lemma HeaderParsed(i: nat, sig: byte, root: nat, ib: nat, fill: Bytes, rest: Bytes)
    requires |fill| == FillSize(i) && ib < 65536 && root < 0x1_0000_0000
    ensures var d := LE16(ib) + Tail(i, sig, root, fill) + rest;
      && Word(d, 0) == ib && d[HeaderSize(i) - FillSize(i)..HeaderSize(i)] == fill
      && (i == 0 ==> d[2] == HEAP_SIG && d[3] == sig && Word(d, 4) + 65536 * Word(d, 6) == root)
  {
    hide BitmapPage;
    var d := LE16(ib) + Tail(i, sig, root, fill) + rest;
    assert d == [] + LE16(ib) + (Tail(i, sig, root, fill) + rest);
    WordAt([], ib, Tail(i, sig, root, fill) + rest);
    if i == 0 {
      var pre := LE16(ib) + [HEAP_SIG, sig];
      assert d == pre + LE16(root % 65536) + (LE16(root / 65536) + fill + rest);
      WordAt(pre, root % 65536, LE16(root / 65536) + fill + rest);
      assert d == (pre + LE16(root % 65536)) + LE16(root / 65536) + (fill + rest);
      WordAt(pre + LE16(root % 65536), root / 65536, fill + rest);
      assert root == root % 65536 + 65536 * (root / 65536);
    }
  }

  /** Every page that fits is accepted by the inspector, which finds exactly its offsets. */
  lemma ParsedEncoded(i: nat, sig: byte, root: nat, allocs: Allocs, fill: Bytes)
    requires |fill| == FillSize(i) && PageFits(i, allocs) && root < 0x1_0000_0000
    ensures Parsed(i, PageBytes(i, sig, root, allocs, fill)) == Ok(ViewOf(i, sig, root, allocs, fill))
  {
    hide Flat, Starts, LE16s, LE32, Tail, BitmapPage, HeaderSize, FillSize, LE16, Word, Rising;
    var ib, n, vs := HeaderSize(i) + |Flat(allocs)|, |allocs|, Starts(i, allocs);
    StartsRise(i, allocs);
    var head := LE16(ib) + Tail(i, sig, root, fill) + Flat(allocs);
    var d := PageBytes(i, sig, root, allocs, fill);
    var rest := LE16(n) + LE16(0) + LE16s(vs);
    HeaderParsed(i, sig, root, ib, fill, Flat(allocs) + rest);
    assert d == LE16(ib) + Tail(i, sig, root, fill) + (Flat(allocs) + rest);
    assert d == head + LE16(n) + (LE16(0) + LE16s(vs));
    WordAt(head, n, LE16(0) + LE16s(vs));
    assert StartsCount(i, allocs);
    var pre := head + LE16(n) + LE16(0);
    assert d == pre + LE16s(vs) && |pre| == ib + 4;
    forall k | 0 <= k < n + 1
      ensures Word(d, ib + 4 + 2 * k) == vs[k]
    {
      WordsAt(pre, vs, k);
    }
    assert Words(d, ib + 4, n + 1) == vs;
  }

  predicate StartsCount(i: nat, allocs: Allocs) {
    |Starts(i, allocs)| == |allocs| + 1
  }

  lemma Middle(head: Bytes, flat: Bytes, rest: Bytes, before: Bytes, a: Bytes)
    requires |before| + |a| <= |flat| && flat[..|before| + |a|] == before + a
    ensures (head + flat + rest)[|head| + |before|..|head| + |before| + |a|] == a
  {
    var d := head + flat + rest;
    assert d[|head|..|head| + |before| + |a|] == flat[..|before| + |a|];
    assert d[|head| + |before|..|head| + |before| + |a|] == d[|head|..|head| + |before| + |a|][|before|..];
  }

  /** HNPageView.Allocation. */
  function Allocation(v: View, idx: nat): Result<Bytes> {
    if idx == 0 || idx >= |v.offsets| then Err(InvalidArg)
    else if v.offsets[idx] > |v.raw| || v.offsets[idx - 1] > v.offsets[idx] then Err(InvariantBroken)
    else Ok(v.raw[v.offsets[idx - 1]..v.offsets[idx]])
  }

  lemma AllocationFound(i: nat, sig: byte, root: nat, allocs: Allocs, fill: Bytes, idx: nat)
    requires |fill| == FillSize(i) && PageFits(i, allocs)
    ensures Allocation(ViewOf(i, sig, root, allocs, fill), idx) ==
      if 0 < idx <= |allocs| then Ok(allocs[idx - 1]) else Err(InvalidArg)
  {
    if 0 < idx <= |allocs| {
      var k := idx - 1;
      var d := PageBytes(i, sig, root, allocs, fill);
      StartsRise(i, allocs);
      FlatPrefix(allocs, k);
      FlatPrefix(allocs, idx);
      assert allocs[..idx] == allocs[..k] + [allocs[k]];
      FlatSnoc(allocs[..k], allocs[k]);
      hide LE16s, LE32, Tail, BitmapPage, HeaderSize, FillSize, LE16, Flat;
      var head := LE16(HeaderSize(i) + |Flat(allocs)|) + Tail(i, sig, root, fill);
      var rest := LE16(|allocs|) + LE16(0) + LE16s(Starts(i, allocs));
      assert d == head + Flat(allocs) + rest;
      Middle(head, Flat(allocs), rest, Flat(allocs[..k]), allocs[k]);
    }
  }

  /** Where everything stands on a page, in the bytes themselves: the offset of the page map first, in the map the
      number of allocations and where each begins and ends, and on the first page the signatures and the user root. */
  ghost predicate PageLaid(raw: Bytes, i: nat, sig: byte, root: nat, allocs: Allocs) {
    && |raw| >= 12 - (if i == 0 then 0 else 10)
    && var map_ := raw[0] as int + 256 * raw[1] as int;
       && |raw| == map_ + 4 + 2 * (|allocs| + 1) && raw[map_] as int + 256 * raw[map_ + 1] as int == |allocs|
       && (i == 0 ==>
             raw[2] == 0xEC && raw[3] == sig
             && raw[4] as int + 256 * raw[5] as int + 65536 * raw[6] as int + 0x100_0000 * raw[7] as int == root)
       && forall k | 0 <= k < |allocs| :: StandsAt(raw, map_, k, allocs[k])
  }

  /** The page map gives the value its place, before the map. */
  ghost predicate StandsAt(raw: Bytes, map_: nat, k: nat, data: Bytes) {
    var at := map_ + 4 + 2 * k;
    && at + 4 <= |raw|
    && var from := raw[at] as int + 256 * raw[at + 1] as int;
       var to := raw[at + 2] as int + 256 * raw[at + 3] as int;
       from <= to <= map_ && raw[from..to] == data
  }

  lemma PageBytesLaid(i: nat, sig: byte, root: nat, allocs: Allocs, fill: Bytes)
    requires |fill| == FillSize(i) && PageFits(i, allocs) && root < 0x1_0000_0000
    ensures PageLaid(PageBytes(i, sig, root, allocs, fill), i, sig, root, allocs)
  {
    hide PageBytes, Flat, BitmapPage, PageFits, FillSize, Parsed, Allocation, PageLaid;
    var raw := PageBytes(i, sig, root, allocs, fill);
    var v := ViewOf(i, sig, root, allocs, fill);
    ParsedEncoded(i, sig, root, allocs, fill);
    assert |v.offsets| == |allocs| + 1 && |raw| == v.ib + 4 + 2 * (|allocs| + 1);
    hide ViewOf, Starts, PageSize, HeaderSize;
    forall k | 0 <= k < |allocs|
      ensures Allocation(v, k + 1) == Ok(allocs[k])
    {
      AllocationFound(i, sig, root, allocs, fill, k + 1);
    }
    ParsedLaid(raw, i, v, allocs);
    if i == 0 {
      FirstLaid(i, sig, root, allocs, fill);
    }
  }

  lemma FirstLaid(i: nat, sig: byte, root: nat, allocs: Allocs, fill: Bytes)
    requires |fill| == FillSize(i) && i == 0
    ensures ViewOf(i, sig, root, allocs, fill).sig == sig && ViewOf(i, sig, root, allocs, fill).root == root
  {
  }

  lemma ParsedLaid(raw: Bytes, i: nat, v: View, allocs: Allocs)
    requires Parsed(i, raw) == Ok(v) && |v.offsets| == |allocs| + 1 && |raw| == v.ib + 4 + 2 * (|allocs| + 1)
    requires forall k | 0 <= k < |allocs| :: Allocation(v, k + 1) == Ok(allocs[k])
    ensures PageLaid(raw, i, v.sig, v.root, allocs)
    ensures i != 0 ==> forall sig, root :: PageLaid(raw, i, sig, root, allocs)
  {
    hide BitmapPage, Flat, Words, Rising, Allocation, StandsAt;
    forall k | 0 <= k < |allocs|
      ensures StandsAt(raw, v.ib, k, allocs[k])
    {
      AllocStands(raw, i, v, k, allocs[k]);
    }
  }

  lemma ParsedParts(raw: Bytes, i: nat, v: View)
    requires Parsed(i, raw) == Ok(v)
    ensures var n := |v.offsets|;
      && n > 0 && v.raw == raw && v.ib + 4 + 2 * n <= |raw| && v.offsets == Words(raw, v.ib + 4, n)
      && Rising(v.offsets) && v.offsets[n - 1] == v.ib
  {
    hide BitmapPage, Words, Word, Rising, HeaderSize, FillSize;
  }

  lemma AllocStands(raw: Bytes, i: nat, v: View, k: nat, data: Bytes)
    requires Parsed(i, raw) == Ok(v) && k + 1 < |v.offsets| && Allocation(v, k + 1) == Ok(data)
    ensures StandsAt(raw, v.ib, k, data)
  {
    hide Parsed, Rising, Words, Word;
    ParsedParts(raw, i, v);
    RisingTo(v.offsets, k + 1, |v.offsets| - 1);
    WordIs(raw, v.ib + 4 + 2 * k);
    WordIs(raw, v.ib + 4 + 2 * (k + 1));
  }

  lemma WordIs(data: Bytes, off: nat)
    requires off + 2 <= |data|
    ensures Word(data, off) == data[off] as int + 256 * data[off + 1] as int
  {
  }

  // ---------- fill levels ----------

  function FillLevel(free: int): nat {
    if free >= 3584 then 0 else if free >= 2560 then 1 else if free >= 2048 then 2 else 3
  }

  function Pow4(k: nat): nat
    requires k < 4
  {
    if k == 0 then 1 else if k == 1 then 4 else if k == 2 then 16 else 64
  }

  /** Two-bit field `k` of a byte. */
  function Digit(b: byte, k: nat): nat
    requires k < 4
  {
    b / Pow4(k) % 4
  }

  function SetDigit(b: byte, k: nat, v: nat): byte
    requires k < 4 && v < 4
  {
    b - Digit(b, k) * Pow4(k) + v * Pow4(k)
  }

  lemma Digits(q: nat, r: nat, s: nat, t: nat)
    requires q < 4 && r < 4 && s < 4 && t < 4
    ensures var b := 64 * q + 16 * r + 4 * s + t;
      b < 256 && Digit(b, 3) == q && Digit(b, 2) == r && Digit(b, 1) == s && Digit(b, 0) == t
  {
  }

  lemma DigitsOf(b: byte) returns (q: nat, r: nat, s: nat, t: nat)
    ensures q < 4 && r < 4 && s < 4 && t < 4 && b == 64 * q + 16 * r + 4 * s + t
    ensures Digit(b, 3) == q && Digit(b, 2) == r && Digit(b, 1) == s && Digit(b, 0) == t
  {
    q, r, s, t := b / 64, b % 64 / 16, b % 16 / 4, b % 4;
    assert b == 64 * q + 16 * r + 4 * s + t;
    Digits(q, r, s, t);
  }

  lemma SetDigitIs(b: byte, k: nat, v: nat, d: nat)
    requires k < 4 && v < 4 && d == Digit(b, k)
    ensures SetDigit(b, k, v) as int == b - d * Pow4(k) + v * Pow4(k)
  {
  }

  lemma DigitSet(b: byte, k: nat, v: nat, j: nat)
    requires k < 4 && v < 4 && j < 4
    ensures Digit(SetDigit(b, k, v), j) == if j == k then v else Digit(b, j)
  {
    hide Digit, SetDigit;
    var q, r, s, t := DigitsOf(b);
    SetDigitIs(b, k, v, Digit(b, k));
    if k == 3 {
      Digits(v, r, s, t);
    } else if k == 2 {
      Digits(q, v, s, t);
    } else if k == 1 {
      Digits(q, r, v, t);
    } else {
      Digits(q, r, s, v);
    }
  }

  /** packFill leaves pages past the end alone. */
  function Packed(dst: Bytes, page: nat, level: nat): (r: Bytes)
    requires level < 4
    ensures |r| == |dst|
  {
    if page / 4 >= |dst| then dst else dst[page / 4 := SetDigit(dst[page / 4], page % 4, level)]
  }

  function Unpacked(src: Bytes, page: nat): nat {
    if page / 4 >= |src| then 0 else Digit(src[page / 4], page % 4)
  }

  lemma PackedAt(dst: Bytes, page: nat, level: nat, j: nat)
    requires level < 4 && page / 4 < |dst|
    ensures Unpacked(Packed(dst, page, level), j) == if j == page then level else Unpacked(dst, j)
  {
    if j / 4 == page / 4 {
      DigitSet(dst[page / 4], page % 4, level, j % 4);
    }
    hide Digit, SetDigit;
  }

  lemma NothingPacked(dst: Bytes)
    requires forall i | 0 <= i < |dst| :: dst[i] == 0
    ensures forall k: nat :: Unpacked(dst, k) == 0
  {
  }

  /** The fill levels `base`, `base + 1`, ... of up to `count` pages, packed into `len` bytes. */
  method PackFills(len: nat, fills: seq<nat>, base: nat, count: nat) returns (dst: Bytes)
    requires count <= 4 * len && forall k | 0 <= k < |fills| :: fills[k] < 4
    ensures |dst| == len
    ensures forall j | 0 <= j < count && base + j < |fills| :: Unpacked(dst, j) == fills[base + j]
    ensures forall j | 0 <= j && (j >= count || base + j >= |fills|) :: Unpacked(dst, j) == 0
  {
    hide Unpacked, Packed;
    dst := seq<byte>(len, _ => 0);
    NothingPacked(dst);
    for j := 0 to count
      invariant |dst| == len
      invariant forall k | 0 <= k < j && base + k < |fills| :: Unpacked(dst, k) == fills[base + k]
      invariant forall k | 0 <= k && (k >= j || base + k >= |fills|) :: Unpacked(dst, k) == 0
    {
      if base + j < |fills| {
        ghost var was := dst;
        dst := Packed(dst, j, fills[base + j]);
        forall k | 0 <= k
          ensures Unpacked(dst, k) == if k == j then fills[base + j] else Unpacked(was, k)
        {
          PackedAt(was, j, fills[base + j], k);
        }
      }
    }
  }

  /** How many pages the fill bytes of page `i` speak for. */
  function FillCount(i: nat): nat {
    if i == 0 then 8 else if BitmapPage(i) then 128 else 0
  }

  /** The fields of the fill bytes that stand for no page. */
  ghost predicate RestBlank(i: nat, fill: Bytes, count: nat) {
    forall j: nat | j >= FillCount(i) || i + j >= count :: Unpacked(fill, j) == 0
  }

  /** checkFill wants exactly this of the fill bytes of page `i`. */
  ghost predicate FillsMatch(i: nat, fill: Bytes, fills: seq<nat>) {
    forall j | 0 <= j < FillCount(i) && i + j < |fills| :: Unpacked(fill, j) == fills[i + j]
  }

  // ---------- the whole heap ----------

  ghost predicate Encoded(raws: seq<Bytes>, extra: seq<Bytes>, sig: byte, root: nat, pages: seq<Allocs>) {
    && |raws| == |extra| == |pages|
    && forall i | 0 <= i < |pages| ::
         |extra[i]| == FillSize(i) && raws[i] == PageBytes(i, sig, root, pages[i], extra[i]) &&
           FillsMatch(i, extra[i], Levels(pages)) && RestBlank(i, extra[i], |pages|)
  }

  function Levels(pages: seq<Allocs>): (r: seq<nat>)
    ensures |r| == |pages| && forall k | 0 <= k < |r| :: r[k] < 4
  {
    seq(|pages|, k requires 0 <= k < |pages| => FillLevel(MAX_DATA_CB - PageSize(k, pages[k])))
  }

  /** The page whose header speaks for page `k`, and where its fill bytes begin. */
  function FillPage(k: nat): nat {
    if k < 8 then 0 else 8 + (k - 8) / 128 * 128
  }

  /** In the bytes themselves: two bits for each page, lowest first, say how much of its block it leaves free. */
  ghost predicate SaysFree(raws: seq<Bytes>, k: nat)
    requires k < |raws|
  {
    var p := FillPage(k);
    var at := (if p == 0 then 8 else 2) + (k - p) / 4;
    && p < |raws| && at < |raws[p]|
    && var level := raws[p][at] / [1, 4, 16, 64][(k - p) % 4] % 4;
       var free := 8176 - |raws[k]|;
       (level == 0 <==> free >= 3584) && (level <= 1 <==> free >= 2560) && (level <= 2 <==> free >= 2048)
  }

  lemma FillsSaid(raws: seq<Bytes>, extra: seq<Bytes>, sig: byte, root: nat, pages: seq<Allocs>, k: nat)
    requires Encoded(raws, extra, sig, root, pages) && k < |pages| && root < 0x1_0000_0000
    requires forall i | 0 <= i < |pages| :: PageFits(i, pages[i])
    ensures SaysFree(raws, k)
  {
    hide PageBytes, BitmapPage, PageFits, PageSize, FillPage, FillSize, FillCount, SaysFree, FillsMatch, FillLevel;
    var p := FillPage(k);
    FillPageIs(k);
    FillBytesAt(p, sig, root, pages[p], extra[p], (k - p) / 4);
    PageLength(k, sig, root, pages[k], extra[k]);
    LevelAt(pages, p, extra[p], k);
    FreeSaid(raws, extra[p], p, k);
  }

  lemma LevelAt(pages: seq<Allocs>, p: nat, fill: Bytes, k: nat)
    requires FillsMatch(p, fill, Levels(pages)) && p <= k < |pages| && k - p < FillCount(p) <= 4 * |fill|
    ensures Digit(fill[(k - p) / 4], (k - p) % 4) == FillLevel(MAX_DATA_CB - PageSize(k, pages[k]))
  {
    hide Digit, FillLevel, PageSize, FillCount;
    assert Unpacked(fill, k - p) == Levels(pages)[p + (k - p)];
  }

  lemma FreeSaid(raws: seq<Bytes>, fill: Bytes, p: nat, k: nat)
    requires p == FillPage(k) && p <= k < |raws| && (k - p) / 4 < |fill|
    requires var at := (if p == 0 then 8 else 2) + (k - p) / 4; at < |raws[p]| && raws[p][at] == fill[(k - p) / 4]
    requires Digit(fill[(k - p) / 4], (k - p) % 4) == FillLevel(MAX_DATA_CB - |raws[k]|)
    ensures SaysFree(raws, k)
  {
    hide FillPage, Digit;
    DigitIs(fill[(k - p) / 4], (k - p) % 4);
  }

  /** The fields that stand for no page are zero. */
  ghost predicate SaysNoMore(raws: seq<Bytes>, p: nat)
    requires p < |raws|
  {
    var at, len := if p == 0 then 8 else 2, if p == 0 then 4 else 64;
    && at + len <= |raws[p]|
    && forall j | 0 <= j < 4 * len && (FillPage(p + j) != p || p + j >= |raws|) ::
         raws[p][at + j / 4] / [1, 4, 16, 64][j % 4] % 4 == 0
  }

  lemma RestSaid(raws: seq<Bytes>, extra: seq<Bytes>, sig: byte, root: nat, pages: seq<Allocs>, p: nat)
    requires Encoded(raws, extra, sig, root, pages) && p < |pages| && FillPage(p) == p && root < 0x1_0000_0000
    requires forall i | 0 <= i < |pages| :: PageFits(i, pages[i])
    ensures SaysNoMore(raws, p)
  {
    hide PageBytes, PageFits, PageSize, FillsMatch, FillLevel, Encoded;
    var at, len := if p == 0 then 8 else 2, if p == 0 then 4 else 64;
    FillPageIs(p);
    EncodedAt(raws, extra, sig, root, pages, p);
    assert |extra[p]| == len;
    forall k | 0 <= k < len
      ensures at + k < |raws[p]| && raws[p][at + k] == extra[p][k]
    {
      FillBytesAt(p, sig, root, pages[p], extra[p], k);
    }
    FillBytesAt(p, sig, root, pages[p], extra[p], len - 1);
    forall j | 0 <= j < 4 * len && (FillPage(p + j) != p || p + j >= |raws|)
      ensures raws[p][at + j / 4] / [1, 4, 16, 64][j % 4] % 4 == 0
    {
      if FillPage(p + j) != p {
        FillPageFrom(p, j);
      }
      assert Unpacked(extra[p], j) == 0;
      DigitIs(extra[p][j / 4], j % 4);
      hide FillPage, RestBlank, Digit;
    }
  }

  lemma EncodedAt(raws: seq<Bytes>, extra: seq<Bytes>, sig: byte, root: nat, pages: seq<Allocs>, p: nat)
    requires Encoded(raws, extra, sig, root, pages) && p < |pages|
    ensures |raws| == |extra| == |pages| && |extra[p]| == FillSize(p)
    ensures raws[p] == PageBytes(p, sig, root, pages[p], extra[p]) && RestBlank(p, extra[p], |pages|)
  {
    hide PageBytes, FillsMatch, RestBlank;
  }

  lemma FillPageFrom(p: nat, j: nat)
    requires FillPage(p) == p && FillPage(p + j) != p
    ensures j >= FillCount(p)
  {
  }

  lemma DigitIs(b: byte, k: nat)
    requires k < 4
    ensures Digit(b, k) as int == b as int / [1, 4, 16, 64][k] % 4
  {
  }

  lemma FillPageIs(k: nat)
    ensures var p := FillPage(k); p <= k && k - p < FillCount(p) && FillCount(p) <= 4 * FillSize(p)
    ensures FillPage(k) == 0 || BitmapPage(FillPage(k))
  {
  }

  lemma PageLength(i: nat, sig: byte, root: nat, allocs: Allocs, fill: Bytes)
    requires |fill| == FillSize(i) && PageFits(i, allocs)
    ensures |PageBytes(i, sig, root, allocs, fill)| == PageSize(i, allocs)
  {
  }

  lemma FillBytesAt(i: nat, sig: byte, root: nat, allocs: Allocs, fill: Bytes, k: nat)
    requires |fill| == FillSize(i) && PageFits(i, allocs) && root < 0x1_0000_0000 && k < |fill|
    requires i == 0 || BitmapPage(i)
    ensures var d := PageBytes(i, sig, root, allocs, fill);
      (if i == 0 then 8 else 2) + k < |d| && d[(if i == 0 then 8 else 2) + k] == fill[k]
  {
    var ib, n, vs := HeaderSize(i) + |Flat(allocs)|, |allocs|, Starts(i, allocs);
    var rest := Flat(allocs) + LE16(n) + LE16(0) + LE16s(vs);
    HeaderParsed(i, sig, root, ib, fill, rest);
    assert PageBytes(i, sig, root, allocs, fill) == LE16(ib) + Tail(i, sig, root, fill) + rest;
    hide PageBytes, LE16, Tail, LE16s, Flat, Starts;
  }

  /** The format of the whole heap, in its bytes. */
  ghost predicate InBytes(raws: seq<Bytes>, sig: byte, root: nat, pages: seq<Allocs>) {
    && |raws| == |pages|
    && forall k | 0 <= k < |raws| ::
         PageLaid(raws[k], k, sig, root, pages[k]) && SaysFree(raws, k) && (FillPage(k) == k ==> SaysNoMore(raws, k))
  }

  /** encodePages: never fails, every page fits a data block, and its header carries the right fill levels. */
  method EncodePages(h: Heap) returns (r: Result<seq<Bytes>>, ghost extra: seq<Bytes>)
    requires h.Valid()
    modifies h`pages
    ensures h.Valid() && h.pages == if old(h.pages) == [] then [[]] else old(h.pages)
    ensures r.Ok? && Encoded(r.value, extra, h.sig, h.root, h.pages) && forall raw | raw in r.value ::
      |raw| <= MAX_DATA_CB
    ensures h.root < 0x1_0000_0000 ==> InBytes(r.value, h.sig, h.root, h.pages)
  {
    hide PageBytes, BitmapPage, FillsMatch, PageSize, SaysFree, SaysNoMore, RestBlank, FillPage, PageLaid;
    assert Flat([]) == [] && PageFits(0, []) by {
      EmptyPageFits();
    }
    if |h.pages| == 0 {
      h.pages := [[]];
    }
    var fills: seq<nat> := [];
    for i := 0 to |h.pages|
      invariant h.Valid() && h.pages == (if old(h.pages) == [] then [[]] else old(h.pages)) &&
        fills == Levels(h.pages)[..i]
    {
      assert PageFits(i, h.pages[i]);
      var raw := EncodePage(i, h.sig, h.root, h.pages[i], seq<byte>(FillSize(i), _ => 0));
      if raw.Err? {
        return Err(LimitExceeded), [];
      }
      fills := fills + [FillLevel(MAX_DATA_CB - |raw.value|)];
    }
    assert fills == Levels(h.pages);
    var raws: seq<Bytes> := [];
    extra := [];
    for i := 0 to |h.pages|
      invariant h.Valid() && h.pages == (if old(h.pages) == [] then [[]] else old(h.pages))
      invariant |raws| == i == |extra| && forall raw | raw in raws :: |raw| <= MAX_DATA_CB
      invariant forall k | 0 <= k < i ::
        |extra[k]| == FillSize(k) && raws[k] == PageBytes(k, h.sig, h.root, h.pages[k], extra[k]) &&
          FillsMatch(k, extra[k], Levels(h.pages)) && RestBlank(k, extra[k], |h.pages|)
    {
      FillFacts(i);
      var fill := PackFills(FillSize(i), fills, i, FillCount(i));
      FillsFrom(i, fill, fills);
      assert PageFits(i, h.pages[i]);
      var raw := EncodePage(i, h.sig, h.root, h.pages[i], fill);
      if raw.Err? {
        return Err(LimitExceeded), extra;
      }
      raws := raws + [raw.value];
      extra := extra + [fill];
    }
    if h.root < 0x1_0000_0000 {
      forall k | 0 <= k < |raws|
        ensures PageLaid(raws[k], k, h.sig, h.root, h.pages[k])
        ensures SaysFree(raws, k) && (FillPage(k) == k ==> SaysNoMore(raws, k))
      {
        PageBytesLaid(k, h.sig, h.root, h.pages[k], extra[k]);
        FillsSaid(raws, extra, h.sig, h.root, h.pages, k);
        if FillPage(k) == k {
          RestSaid(raws, extra, h.sig, h.root, h.pages, k);
        }
      }
    }
    return Ok(raws), extra;
  }

  lemma EmptyPageFits()
    ensures Flat([]) == [] && PageFits(0, [])
  {
  }

  lemma FillFacts(i: nat)
    ensures FillCount(i) <= 4 * FillSize(i)
  {
  }

  lemma FillsFrom(i: nat, fill: Bytes, fills: seq<nat>)
    requires forall j | 0 <= j < FillCount(i) && i + j < |fills| :: Unpacked(fill, j) == fills[i + j]
    requires forall j | 0 <= j && (j >= FillCount(i) || i + j >= |fills|) :: Unpacked(fill, j) == 0
    ensures FillsMatch(i, fill, fills) && RestBlank(i, fill, |fills|)
  {
  }

  // ---------- reopening ----------

  /** The pages of a reopened heap, with the fill level each one's size implies. */
  datatype HeapView = HeapView(views: seq<View>, fills: seq<nat>)

  /** checkFill. */
  method CheckFill(hv: HeapView) returns (ok: bool)
    requires |hv.views| == |hv.fills| && |hv.views| > 0
    ensures ok <==> forall i | 0 <= i < |hv.views| :: FillsMatch(i, hv.views[i].fill, hv.fills)
  {
    hide Unpacked;
    ok := CheckPage(hv, 0);
    if !ok {
      return;
    }
    for i := 1 to |hv.views|
      invariant forall k | 0 <= k < i :: FillsMatch(k, hv.views[k].fill, hv.fills)
    {
      if !BitmapPage(i) {
        continue;
      }
      ok := CheckPage(hv, i);
      if !ok {
        return;
      }
    }
  }

  method CheckPage(hv: HeapView, i: nat) returns (ok: bool)
    requires |hv.views| == |hv.fills| && i < |hv.views|
    ensures ok <==> FillsMatch(i, hv.views[i].fill, hv.fills)
  {
    hide Unpacked;
    for j := 0 to FillCount(i)
      invariant forall k | 0 <= k < j && i + k < |hv.fills| :: Unpacked(hv.views[i].fill, k) == hv.fills[i + k]
    {
      if i + j >= |hv.fills| {
        break;
      }
      if Unpacked(hv.views[i].fill, j) != hv.fills[i + j] {
        return false;
      }
    }
    return true;
  }

  /** OpenHeap over the leaf payloads of the data tree. */
  method OpenHeap(raws: seq<Bytes>) returns (r: Result<HeapView>)
    ensures r.Ok? ==> |r.value.views| == |raws| > 0 && |r.value.fills| == |raws|
    ensures r.Ok? ==> forall i | 0 <= i < |raws| :: Parsed(i, raws[i]) == Ok(r.value.views[i])
    ensures r.Ok? <==> |raws| > 0 && (forall i | 0 <= i < |raws| :: Parsed(i, raws[i]).Ok?)
                       && forall i | 0 <= i < |raws| :: FillsMatch(i, Parsed(i, raws[i]).value.fill, LevelsOf(raws))
  {
    hide Parsed, FillsMatch;
    var views: seq<View> := [];
    var fills: seq<nat> := [];
    for i := 0 to |raws|
      invariant |views| == i && fills == LevelsOf(raws)[..i]
      invariant forall k | 0 <= k < i :: Parsed(k, raws[k]) == Ok(views[k])
    {
      var page := InspectPage(i, raws[i]);
      if page.Err? {
        return Err(page.error);
      }
      views := views + [page.value];
      fills := fills + [FillLevel(MAX_DATA_CB - |raws[i]|)];
    }
    if |views| == 0 {
      return Err(InvariantBroken);
    }
    assert fills == LevelsOf(raws);
    var ok := CheckFill(HeapView(views, fills));
    if !ok {
      return Err(InvariantBroken);
    }
    return Ok(HeapView(views, fills));
  }

  function LevelsOf(raws: seq<Bytes>): (r: seq<nat>)
    ensures |r| == |raws|
  {
    seq(|raws|, k requires 0 <= k < |raws| => FillLevel(MAX_DATA_CB - |raws[k]|))
  }

  /** HeapView.Read of a HID. */
  function Read(hv: HeapView, hid: nat): Result<Bytes> {
    if HIDBlock(hid) >= |hv.views| then Err(InvalidArg) else Allocation(hv.views[HIDBlock(hid)], HIDIndex(hid))
  }

  /** Whatever EncodePages wrote, OpenHeap accepts, and Read finds exactly what each HID was allocated for. */
  lemma HeapReopens(raws: seq<Bytes>, extra: seq<Bytes>, sig: byte, root: nat, pages: seq<Allocs>)
    requires Encoded(raws, extra, sig, root, pages) && pages != [] && root < 0x1_0000_0000
    requires forall i | 0 <= i < |pages| :: PageFits(i, pages[i])
    ensures forall i | 0 <= i < |raws| :: Parsed(i, raws[i]) == Ok(ViewOf(i, sig, root, pages[i], extra[i]))
    ensures LevelsOf(raws) == Levels(pages)
    ensures forall i | 0 <= i < |raws| :: FillsMatch(i, Parsed(i, raws[i]).value.fill, LevelsOf(raws))
  {
    hide Parsed, FillsMatch, PageFits, BitmapPage, PageSize;
    forall i | 0 <= i < |raws|
      ensures Parsed(i, raws[i]) == Ok(ViewOf(i, sig, root, pages[i], extra[i])) && |raws[i]| == PageSize(i, pages[i])
    {
      ParsedEncoded(i, sig, root, pages[i], extra[i]);
    }
    assert LevelsOf(raws) == Levels(pages);
  }

  lemma ReadsBack(hv: HeapView, raws: seq<Bytes>, extra: seq<Bytes>, sig: byte, root: nat, pages: seq<Allocs>, hid: nat)
    requires Encoded(raws, extra, sig, root, pages) && |hv.views| == |raws|
    requires forall i | 0 <= i < |pages| :: PageFits(i, pages[i])
    requires forall i | 0 <= i < |raws| :: hv.views[i] == ViewOf(i, sig, root, pages[i], extra[i])
    ensures IsHID(hid) && Named(pages, hid).Some? ==> Read(hv, hid) == Ok(Named(pages, hid).value)
    ensures IsHID(hid) && Named(pages, hid).None? ==> Read(hv, hid).Err?
  {
    hide ViewOf, PageFits, PageBytes, FillsMatch, BitmapPage;
    var i := HIDBlock(hid);
    if i < |pages| {
      AllocationFound(i, sig, root, pages[i], extra[i], HIDIndex(hid));
      hide Allocation;
    }
  }

  /** The allocations of a decoded page. */
  function AllocsOf(v: View): (r: Allocs)
    ensures |r| == if v.offsets == [] then 0 else |v.offsets| - 1
  {
    seq(if v.offsets == [] then 0 else |v.offsets| - 1, k requires k >= 0 => match Allocation(v, k + 1)
        case Ok(data) => data case Err(_) => [])
  }

  function PagesOf(hv: HeapView): (r: seq<Allocs>)
    ensures |r| == |hv.views|
  {
    seq(|hv.views|, i requires 0 <= i < |hv.views| => AllocsOf(hv.views[i]))
  }

  /** On every page the inspector accepts, each allocation index but the bad ones is readable. */
  lemma AllocationsReadable(i: nat, data: Bytes, v: View, idx: nat)
    requires Parsed(i, data) == Ok(v)
    ensures Allocation(v, idx) == if 0 < idx <= |AllocsOf(v)| then Ok(AllocsOf(v)[idx - 1]) else Err(InvalidArg)
  {
    hide Word, Words, BitmapPage;
    if 0 < idx < |v.offsets| {
      RisingTo(v.offsets, idx, |v.offsets| - 1);
    }
  }

  lemma {:induction false} RisingTo(vs: seq<nat>, i: nat, j: nat)
    requires Rising(vs) && i <= j < |vs|
    ensures vs[i] <= vs[j]
  {
    if i < j {
      RisingTo(vs, i, j - 1);
      assert vs[j - 1] <= vs[j - 1 + 1];
    }
  }

  /** Reading any HID of any accepted heap is looking it up among its allocations. */
  lemma ReadsPages(hv: HeapView, raws: seq<Bytes>, hid: nat)
    requires |hv.views| == |raws| && IsHID(hid)
    requires forall i | 0 <= i < |raws| :: Parsed(i, raws[i]) == Ok(hv.views[i])
    ensures Read(hv, hid) == match Named(PagesOf(hv), hid) case Some(data) => Ok(data) case None => Err(InvalidArg)
  {
    hide Parsed, Allocation, AllocsOf;
    var i := HIDBlock(hid);
    if i < |raws| {
      AllocationsReadable(i, raws[i], hv.views[i], HIDIndex(hid));
    }
  }

  /** A reopened heap's allocations are the ones that were encoded. */
  lemma PagesBack(hv: HeapView, raws: seq<Bytes>, extra: seq<Bytes>, sig: byte, root: nat, pages: seq<Allocs>)
    requires Encoded(raws, extra, sig, root, pages) && |hv.views| == |raws|
    requires forall i | 0 <= i < |pages| :: PageFits(i, pages[i])
    requires forall i | 0 <= i < |raws| :: hv.views[i] == ViewOf(i, sig, root, pages[i], extra[i])
    ensures PagesOf(hv) == pages
  {
    hide PageFits, PageBytes, FillsMatch, BitmapPage, Parsed;
    forall i | 0 <= i < |pages|
      ensures AllocsOf(hv.views[i]) == pages[i]
    {
      AllocsBack(i, sig, root, pages[i], extra[i]);
    }
  }

  lemma AllocsBack(i: nat, sig: byte, root: nat, allocs: Allocs, fill: Bytes)
    requires |fill| == FillSize(i) && PageFits(i, allocs)
    ensures AllocsOf(ViewOf(i, sig, root, allocs, fill)) == allocs
  {
    hide PageFits, PageBytes, FillsMatch, BitmapPage, Allocation, PageSize;
    forall k | 0 <= k < |allocs|
      ensures Allocation(ViewOf(i, sig, root, allocs, fill), k + 1) == Ok(allocs[k])
    {
      AllocationFound(i, sig, root, allocs, fill, k + 1);
    }
  }

  /** Encode, reopen and read: for every heap, every HID, and the header's root and signature. */
  method RoundTrip(h: Heap, hid: nat) returns (r: Result<Bytes>, view: Result<HeapView>)
    requires h.Valid() && h.root < 0x1_0000_0000 && IsHID(hid)
    modifies h`pages
    ensures view.Ok? && |view.value.views| > 0 && view.value.views[0].root == h.root && view.value.views[0].sig == h.sig
    ensures match Named(old(h.pages), hid) case Some(data) => r == Ok(data) case None => r.Err?
  {
    hide PageFits, Encoded, ViewOf, Parsed, FillsMatch, Named, Read, PageBytes, InBytes;
    ghost var pages := h.pages;
    var raws;
    ghost var extra;
    raws, extra := EncodePages(h);
    EncodedCount(raws.value, extra, h.sig, h.root, h.pages);
    HeapReopens(raws.value, extra, h.sig, h.root, h.pages);
    view := OpenHeap(raws.value);
    ReadsBack(view.value, raws.value, extra, h.sig, h.root, h.pages, hid);
    FirstView(h.sig, h.root, h.pages[0], extra[0]);
    SameNames(pages, h.pages, hid);
    r := Read(view.value, hid);
  }

  lemma EncodedCount(raws: seq<Bytes>, extra: seq<Bytes>, sig: byte, root: nat, pages: seq<Allocs>)
    requires Encoded(raws, extra, sig, root, pages)
    ensures |raws| == |extra| == |pages| && forall i | 0 <= i < |pages| :: |extra[i]| == FillSize(i)
  {
    hide PageBytes, FillsMatch, FillSize;
  }

  lemma FirstView(sig: byte, root: nat, allocs: Allocs, fill: Bytes)
    requires |fill| == FillSize(0)
    ensures ViewOf(0, sig, root, allocs, fill).root == root && ViewOf(0, sig, root, allocs, fill).sig == sig
  {
    hide PageBytes, Starts, Flat;
  }

  lemma SameNames(pages: seq<Allocs>, pages': seq<Allocs>, hid: nat)
    requires pages' == if pages == [] then [[]] else pages
    ensures Named(pages', hid) == Named(pages, hid)
  {
  }
}
