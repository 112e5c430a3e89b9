/** Table rows as bytes: existence bits, fixed cells and references (inspect_table.go, tc.go). */
module TableRows {
  import opened Common
  import opened HeapOnNode
  import opened BTreeOnHeap
  import opened TableLayout
  import TreeEncoder

  // ---------- existence bits ----------

  predicate Bit(b: nat, k: nat) {
    if k == 0 then b % 2 == 1 else Bit(b / 2, k - 1)
  }

  /** `b | 1 << k` on `width` bits. */
  function SetBit(b: nat, k: nat, width: nat): (r: nat)
    requires k < width && b < TreeEncoder.Pow2(width)
    ensures r < TreeEncoder.Pow2(width)
    decreases k
  {
    if k == 0 then (if b % 2 == 1 then b else b + 1) else 2 * SetBit(b / 2, k - 1, width - 1) + b % 2
  }

  lemma {:induction false} BitSet(b: nat, k: nat, width: nat, j: nat)
    requires k < width && b < TreeEncoder.Pow2(width)
    ensures Bit(SetBit(b, k, width), j) <==> j == k || Bit(b, j)
    decreases k
  {
    var r := SetBit(b, k, width);
    if k == 0 {
      assert r / 2 == b / 2;
    } else {
      assert r / 2 == SetBit(b / 2, k - 1, width - 1) && r % 2 == b % 2;
      if j > 0 {
        BitSet(b / 2, k - 1, width - 1, j - 1);
      }
    }
  }

  lemma Width8()
    ensures TreeEncoder.Pow2(8) == 256
  {
    assert TreeEncoder.Pow2(4) == 16;
  }

  function SetByte(b: byte, k: nat): byte
    requires k < 8
  {
    Width8();
    SetBit(b, k, 8)
  }

  lemma {:induction false} ZeroBits(k: nat)
    ensures !Bit(0, k)
  {
    if k > 0 {
      ZeroBits(k - 1);
    }
  }

  /** cebHas, on a row whose existence bits start at `base`. */
  predicate CebHas(row: Bytes, base: nat, bit: nat) {
    base + bit / 8 < |row| && Bit(row[base + bit / 8], bit % 8)
  }

  /** cebSet. */
  function WithBit(row: Bytes, base: nat, bit: nat): (r: Bytes)
    requires base + bit / 8 < |row|
    ensures |r| == |row|
  {
    row[base + bit / 8 := SetByte(row[base + bit / 8], bit % 8)]
  }

  /** Setting one bit sets that bit only. */
  lemma WithBitAt(row: Bytes, base: nat, bit: nat, other: nat)
    requires base + bit / 8 < |row|
    ensures CebHas(WithBit(row, base, bit), base, other) <==> other == bit || CebHas(row, base, other)
    ensures WithBit(row, base, bit)[..base] == row[..base]
  {
    Width8();
    if other / 8 == bit / 8 {
      BitSet(row[base + bit / 8], bit % 8, 8, other % 8);
      assert other == 8 * (other / 8) + other % 8 && bit == 8 * (bit / 8) + bit % 8;
    }
    hide Bit, SetBit;
  }

  // ---------- cells ----------

  function Zeros(n: nat): (r: Bytes)
    ensures |r| == n
  {
    seq<byte>(n, _ => 0)
  }

  /** What a cell of `n` bytes keeps of a value: longer values are cut, shorter ones padded with zeros. */
  function Fit(data: Bytes, n: nat): (r: Bytes)
    ensures |r| == n && (|data| == n ==> r == data)
  {
    if |data| >= n then data[..n] else data + Zeros(n - |data|)
  }

  /** tcFixedCell: the value itself is in the row. */
  predicate Fixed(kind: nat) {
    kind in {BOOLEAN, INTEGER16, INTEGER32, FLOATING32, ERROR_CODE, INTEGER64, FLOATING64, CURRENCY, TIME}
  }

  /** tcColSize. */
  function ColumnSize(kind: nat): (n: nat)
    ensures Grouped(n) && (!Fixed(kind) ==> n == 4)
  {
    if kind == BOOLEAN then 1
    else if kind == INTEGER16 then 2
    else if kind == INTEGER64 || kind == FLOATING64 || kind == CURRENCY || kind == TIME then 8
    else 4
  }

  /** Bytes a value of each property type takes (section 2.11.1 of MS-OXCDATA), four for a reference. */
  predicate OfWidth(kind: nat, n: nat) {
    match kind
    case 0x000B => n == 1
    case 0x0002 => n == 2
    case 0x0003 => n == 4
    case 0x0004 => n == 4
    case 0x000A => n == 4
    case 0x0014 => n == 8
    case 0x0005 => n == 8
    case 0x0006 => n == 8
    case 0x0040 => n == 8
    case _ => n == 4
  }

  /** The types whose values stand in the row themselves. */
  predicate InRow(kind: nat) {
    kind in {0x0002, 0x0003, 0x0004, 0x0005, 0x0006, 0x000A, 0x000B, 0x0014, 0x0040}
  }

  /** An integer of `n` bytes, lowest byte first. */
  function LEBytes(v: nat, n: nat): (r: Bytes)
    ensures |r| == n
  {
    if n == 0 then [] else [v % 256] + LEBytes(v / 256, n - 1)
  }

  function Span(n: nat): (s: nat)
    ensures s > 0
  {
    if n == 0 then 1 else 256 * Span(n - 1)
  }

  lemma {:induction false} LEBytesBack(v: nat, n: nat)
    requires v < Span(n)
    ensures Int(LEBytes(v, n)) == v
    decreases n
  {
    if n > 0 {
      LEBytesBack(v / 256, n - 1);
      var r := LEBytes(v, n);
      assert r[1..] == LEBytes(v / 256, n - 1);
    }
  }

  datatype Row = Row(id: nat, ver: nat, cells: map<nat, Bytes>)

  /** The value a row has in a column. */
  function CellOf(r: Row, c: Column): Option<Bytes> {
    if IsRowId(c) then Some(LE32(r.id))
    else if IsRowVer(c) then Some(LE32(r.ver))
    else if c.id in r.cells then Some(r.cells[c.id])
    else None
  }

  function SubNamed(subs: seq<(nat, Bytes)>, nid: nat): Option<Bytes> {
    if subs == [] then None
    else if subs[|subs| - 1].0 == nid then Some(subs[|subs| - 1].1)
    else SubNamed(subs[..|subs| - 1], nid)
  }

  /** What HeapView.Read finds under a reference: a heap allocation, or a subnode's data. */
  function Stored(pages: seq<Allocs>, subs: seq<(nat, Bytes)>, hnid: nat): Option<Bytes> {
    if IsHID(hnid) then Named(pages, hnid) else SubNamed(subs, hnid)
  }

  /** Everything stored stays stored. */
  ghost predicate Keeps(pages: seq<Allocs>, subs: seq<(nat, Bytes)>, pages': seq<Allocs>, subs': seq<(nat, Bytes)>) {
    forall h | Stored(pages, subs, h).Some? :: Stored(pages', subs', h) == Stored(pages, subs, h)
  }

  lemma KeepsSelf(pages: seq<Allocs>, subs: seq<(nat, Bytes)>)
    ensures Keeps(pages, subs, pages, subs)
  {
  }

  lemma KeepsTwice(p0: seq<Allocs>, s0: seq<(nat, Bytes)>, p1: seq<Allocs>, s1: seq<(nat, Bytes)>, p2: seq<Allocs>,
                   s2: seq<(nat, Bytes)>)
    requires Keeps(p0, s0, p1, s1) && Keeps(p1, s1, p2, s2)
    ensures Keeps(p0, s0, p2, s2)
  {
    hide Stored;
  }

  lemma ExtendsKeeps(pages: seq<Allocs>, pages': seq<Allocs>, subs: seq<(nat, Bytes)>)
    requires Extends(pages, pages')
    ensures Keeps(pages, subs, pages', subs)
  {
    hide Named, SubNamed;
  }

  /** A subnode under a fresh identifier. */
  lemma SubKeeps(pages: seq<Allocs>, subs: seq<(nat, Bytes)>, next: nat, data: Bytes)
    requires SubsIssued(subs, next)
    ensures var nid := SubNID(next); var subs' := subs + [(nid, data)];
      && !IsHID(nid) && nid > 0 && Keeps(pages, subs, pages, subs') && Stored(pages, subs', nid) == Some(data) &&
         SubsIssued(subs', next + 1)
  {
    hide Named;
    var nid := SubNID(next);
    var subs' := subs + [(nid, data)];
    assert subs'[..|subs|] == subs;
    FreshSub(subs, next);
  }

  lemma {:induction false} FreshSub(subs: seq<(nat, Bytes)>, next: nat)
    requires forall i | 0 <= i < |subs| :: subs[i].0 < SubNID(next)
    ensures SubNamed(subs, SubNID(next)) == None
  {
    if subs != [] {
      FreshSub(subs[..|subs| - 1], next);
    }
  }

  /** A column's part of a row: its bit says whether there is a value; the bytes hold it, or refer to where it is
      stored. */
  ghost predicate CellHolds(pages: seq<Allocs>, subs: seq<(nat, Bytes)>, row: Bytes, base: nat, c: Column,
                            v: Option<Bytes>) {
    && (CebHas(row, base, c.bit) <==> v.Some?)
    && (v.Some? ==> c.offset + c.size <= |row|)
    && (v.Some? && Fixed(c.kind) ==> row[c.offset..c.offset + c.size] == Fit(v.value, c.size))
    && (v.Some? && !Fixed(c.kind) ==>
          c.size >= 4 && Stored(pages, subs, Long(row, c.offset)) == v &&
            (c.kind == OBJECT ==> !IsHID(Long(row, c.offset)) && Long(row, c.offset) % 32 == LTP_TYPE))
  }

  ghost predicate RowHolds(pages: seq<Allocs>, subs: seq<(nat, Bytes)>, row: Bytes, b: Bounds, cols: seq<Column>,
                           r: Row) {
    |row| == b.bm && forall i | 0 <= i < |cols| :: CellHolds(pages, subs, row, b.b1, cols[i], CellOf(r, cols[i]))
  }

  lemma CellKept(pages: seq<Allocs>, subs: seq<(nat, Bytes)>, pages': seq<Allocs>, subs': seq<(nat, Bytes)>,
                 row: Bytes, base: nat, c: Column, v: Option<Bytes>)
    requires Keeps(pages, subs, pages', subs') && CellHolds(pages, subs, row, base, c, v)
    ensures CellHolds(pages', subs', row, base, c, v)
  {
    hide Stored, Long, CebHas, Fit;
  }

  lemma RowKept(pages: seq<Allocs>, subs: seq<(nat, Bytes)>, pages': seq<Allocs>, subs': seq<(nat, Bytes)>, row: Bytes,
                b: Bounds, cols: seq<Column>, r: Row)
    requires Keeps(pages, subs, pages', subs') && RowHolds(pages, subs, row, b, cols, r)
    ensures RowHolds(pages', subs', row, b, cols, r)
  {
    hide Keeps, CellHolds, CellOf;
    forall i | 0 <= i < |cols|
      ensures CellHolds(pages', subs', row, b.b1, cols[i], CellOf(r, cols[i]))
    {
      CellKept(pages, subs, pages', subs', row, b.b1, cols[i], CellOf(r, cols[i]));
    }
  }

  // ---------- writing a row ----------

  function Splice(s: Bytes, off: nat, data: Bytes): (r: Bytes)
    requires off + |data| <= |s|
    ensures |r| == |s|
  {
    s[..off] + data + s[off + |data|..]
  }

  lemma Spliced(s: Bytes, off: nat, data: Bytes)
    requires off + |data| <= |s|
    ensures Splice(s, off, data)[off..off + |data|] == data
    ensures forall i | 0 <= i < |s| && !(off <= i < off + |data|) :: Splice(s, off, data)[i] == s[i]
  {
  }

  /** The same bytes, seen through every reader of a cell. */
  lemma SameCell(pages: seq<Allocs>, subs: seq<(nat, Bytes)>, row: Bytes, row': Bytes, base: nat, c: Column,
                 v: Option<Bytes>)
    requires CellHolds(pages, subs, row, base, c, v) && |row'| == |row| && c.offset + c.size <= |row|
    requires forall i | c.offset <= i < c.offset + c.size :: row'[i] == row[i]
    requires CebHas(row', base, c.bit) <==> CebHas(row, base, c.bit)
    ensures CellHolds(pages, subs, row', base, c, v)
  {
    hide Stored, CebHas, Fit;
    assert row'[c.offset..c.offset + c.size] == row[c.offset..c.offset + c.size];
  }

  /** Bytes outside the existence bits do not change them. */
  lemma SameBit(row: Bytes, row': Bytes, base: nat, bit: nat)
    requires |row'| == |row| && forall i | base <= i < |row| :: row'[i] == row[i]
    ensures CebHas(row', base, bit) <==> CebHas(row, base, bit)
  {
    hide Bit;
  }

  /** Writes a value's bytes over a cell, and sets its bit; every other column keeps what it had. */
  lemma CellWritten(pages: seq<Allocs>, subs: seq<(nat, Bytes)>, row: Bytes, row': Bytes, b: Bounds, cols: seq<Column>,
                    k: nat, data: Bytes, i: nat, v: Option<Bytes>)
    requires LaidOut(cols, b) && k < |cols| && i < |cols| && i != k && |row| == b.bm && |data| <= cols[k].size
    requires cols[k].offset + |data| <= |row| && b.b1 + cols[k].bit / 8 < |row|
    requires row' == Splice(WithBit(row, b.b1, cols[k].bit), cols[k].offset, data)
    ensures CellHolds(pages, subs, row, b.b1, cols[i], v) ==> CellHolds(pages, subs, row', b.b1, cols[i], v)
    ensures CebHas(row', b.b1, cols[i].bit) <==> CebHas(row, b.b1, cols[i].bit)
  {
    CellsApart(cols, b, i, k);
    CellsApart(cols, b, k, i);
    DifferentBits(cols, b, i, k);
    hide LaidOut, CellHolds, CebHas, Long;
    var m := WithBit(row, b.b1, cols[k].bit);
    WithBitAt(row, b.b1, cols[k].bit, cols[i].bit);
    assert forall x | 0 <= x < b.b1 :: m[x] == m[..b.b1][x] == row[..b.b1][x] == row[x];
    Spliced(m, cols[k].offset, data);
    hide Splice, WithBit;
    SameBit(m, row', b.b1, cols[i].bit);
    if CellHolds(pages, subs, row, b.b1, cols[i], v) {
      SameCell(pages, subs, row, row', b.b1, cols[i], v);
    }
  }

  lemma DifferentBits(cols: seq<Column>, b: Bounds, i: nat, k: nat)
    requires LaidOut(cols, b) && k < |cols| && i < |cols| && i != k
    ensures cols[i].bit != cols[k].bit
  {
    hide Offsets, PackedFrom, Placed2, Grouped;
    if i < k {
      assert cols[i].bit != cols[k].bit;
    } else {
      assert cols[k].bit != cols[i].bit;
    }
  }

  /** The column just written holds its value. */
  lemma CellNow(pages: seq<Allocs>, subs: seq<(nat, Bytes)>, row: Bytes, row': Bytes, b: Bounds, cols: seq<Column>,
                k: nat, data: Bytes)
    requires LaidOut(cols, b) && k < |cols| && |row| == b.bm && |data| <= cols[k].size
    requires cols[k].offset + |data| <= |row| && b.b1 + cols[k].bit / 8 < |row|
    requires row' == Splice(WithBit(row, b.b1, cols[k].bit), cols[k].offset, data)
    ensures CebHas(row', b.b1, cols[k].bit) && cols[k].offset + cols[k].size <= |row'|
    ensures row'[cols[k].offset..cols[k].offset + |data|] == data
  {
    CellInside(cols, b, k);
    hide LaidOut, CebHas;
    var m := WithBit(row, b.b1, cols[k].bit);
    WithBitAt(row, b.b1, cols[k].bit, cols[k].bit);
    Spliced(m, cols[k].offset, data);
    hide Splice, WithBit;
    SameBit(m, row', b.b1, cols[k].bit);
  }

  ghost predicate Blank(row: Bytes, c: Column) {
    c.offset + c.size <= |row| && forall x | c.offset <= x < c.offset + c.size :: row[x] == 0
  }

  /** A write to one column leaves the others' bytes as they were. */
  lemma BlankKept(row: Bytes, row': Bytes, b: Bounds, cols: seq<Column>, k: nat, data: Bytes, i: nat)
    requires LaidOut(cols, b) && k < |cols| && i < |cols| && i != k && |row| == b.bm && |data| <= cols[k].size
    requires cols[k].offset + |data| <= |row| && b.b1 + cols[k].bit / 8 < |row|
    requires row' == Splice(WithBit(row, b.b1, cols[k].bit), cols[k].offset, data) && Blank(row, cols[i])
    ensures Blank(row', cols[i])
  {
    CellsApart(cols, b, i, k);
    CellsApart(cols, b, k, i);
    hide LaidOut;
    Spliced(WithBit(row, b.b1, cols[k].bit), cols[k].offset, data);
    hide Splice;
  }

  /** A short value in a blank cell is padded with zeros. */
  lemma FitWritten(row: Bytes, row': Bytes, b: Bounds, cols: seq<Column>, k: nat, data: Bytes, n: nat)
    requires LaidOut(cols, b) && k < |cols| && |row| == b.bm && n == cols[k].size && Blank(row, cols[k])
    requires b.b1 + cols[k].bit / 8 < |row|
    requires var d := if |data| > n then data[..n] else data;
      row' == Splice(WithBit(row, b.b1, cols[k].bit), cols[k].offset, d)
    ensures row'[cols[k].offset..cols[k].offset + n] == Fit(data, n)
  {
    CellInside(cols, b, k);
    hide LaidOut;
    var d := if |data| > n then data[..n] else data;
    var m := WithBit(row, b.b1, cols[k].bit);
    var o := cols[k].offset;
    Spliced(m, o, d);
    hide Splice;
    var got := row'[o..o + n];
    assert forall x | 0 <= x < |d| :: got[x] == row'[o..o + |d|][x];
    assert forall x | |d| <= x < n :: got[x] == m[o + x] == row[o + x] == 0;
  }
}
