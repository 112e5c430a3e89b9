/** Committing a Table Context to its heap and opening it again (tc.go, inspect_table.go). */
module TableCommit {
  import opened Common
  import opened HeapOnNode
  import opened BTreeOnHeap
  import opened TableLayout
  import opened TableInfo
  import opened TableRows
  import opened TableContext
  import Arithmetic
  import Geometry
  import Blocks

  // ---------- the row matrix ----------

  function RowsPerBlock(rowSize: nat): nat {
    if rowSize == 0 then 0 else Geometry.MAX_DATA_CB / rowSize
  }

  /** tableRowOffset. */
  function RowOffset(idx: nat, rowSize: nat, blocked: bool): nat {
    if !blocked || RowsPerBlock(rowSize) < 1 then idx * rowSize
    else
      var rpb := RowsPerBlock(rowSize);
      idx / rpb * (rpb * rowSize) + idx % rpb * rowSize
  }

  /** In both shapes of the matrix a row stands at its index times the row size. */
  lemma RowOffsetIs(idx: nat, rowSize: nat, blocked: bool)
    ensures RowOffset(idx, rowSize, blocked) == idx * rowSize
  {
    var rpb := RowsPerBlock(rowSize);
    if blocked && rpb >= 1 {
      var q, m := idx / rpb, idx % rpb;
      assert idx == q * rpb + m;
      calc {
        idx * rowSize;
      == (q * rpb + m) * rowSize;
      == { Distribute(q * rpb, m, rowSize); }
        q * rpb * rowSize + m * rowSize;
      == { Associate(q, rpb, rowSize); }
        q * (rpb * rowSize) + m * rowSize;
      }
    }
  }

  lemma Distribute(a: nat, b: nat, c: nat)
    ensures (a + b) * c == a * c + b * c
  {
  }

  lemma Associate(a: nat, b: nat, c: nat)
    ensures a * b * c == a * (b * c)
  {
  }

  /** A laid-out row always fits a data block. */
  lemma RowFitsBlock(cols: seq<Column>, b: Bounds)
    requires LaidOut(cols, b) && |cols| <= MAX_COLUMNS
    ensures 8 <= b.bm <= Geometry.MAX_DATA_CB && RowsPerBlock(b.bm) >= 1
  {
    hide Offsets, PackedFrom, Placed2;
  }

  /** Every leaf of a blocked matrix holds whole rows, at most a block's worth. */
  lemma LeavesHoldWholeRows(rows: nat, rowSize: nat, leaf: nat)
    requires 0 < rowSize <= Geometry.MAX_DATA_CB
    requires var cb := RowsPerBlock(rowSize) * rowSize; leaf * cb < rows * rowSize
    ensures var rpb := RowsPerBlock(rowSize); var cb := rpb * rowSize; var left := rows * rowSize - leaf * cb;
      var size := if left < cb then left else cb;
      size <= Geometry.MAX_DATA_CB && size % rowSize == 0 && 0 < size / rowSize <= rpb
  {
    var rpb := RowsPerBlock(rowSize);
    assert Geometry.MAX_DATA_CB / rowSize >= 1;
    assert rpb * rowSize <= Geometry.MAX_DATA_CB;
    Associate(leaf, rpb, rowSize);
    var n := rows - leaf * rpb;
    if n <= 0 {
      Ordered(rows, leaf * rpb, rowSize);
    }
    assert rows * rowSize - leaf * (rpb * rowSize) == n * rowSize by {
      Distribute(leaf * rpb, n, rowSize);
    }
    var k := if n < rpb then n else rpb;
    if n < rpb {
      Ordered(n, rpb, rowSize);
    } else {
      Ordered(rpb, n, rowSize);
    }
    Arithmetic.UniqueMod(k * rowSize, rowSize, k, 0);
  }

  lemma Ordered(a: nat, b: nat, c: nat)
    requires a <= b
    ensures a * c <= b * c
  {
  }

  // ---------- what a committed table looks like ----------

  datatype Commit = Commit(sorted: seq<Column>, raws: seq<Bytes>, index: nat, matrix: nat, es: seq<KV>, tree: Tree,
                           levels: nat)

  function IndexPairs(rows: seq<Row>): (r: seq<KV>)
    ensures |r| == |rows|
  {
    seq(|rows|, i requires 0 <= i < |rows| => KV(LE32(rows[i].id), LE32(i)))
  }

  ghost predicate AllRows(pages: seq<Allocs>, subs: seq<(nat, Bytes)>, raws: seq<Bytes>, b: Bounds, cols: seq<Column>,
                          rows: seq<Row>) {
    |raws| == |rows| && forall i | 0 <= i < |rows| :: RowHolds(pages, subs, raws[i], b, cols, rows[i])
  }

  ghost predicate IndexBuilt(pages: seq<Allocs>, rows: seq<Row>, c: Commit) {
    && 0 < c.index < Blocks.U32 && Built(pages, c.index, 4, 4, c.es, c.tree, c.levels)
    && multiset(c.es) == multiset(IndexPairs(rows)) && Ascending(c.es) && Sized(c.es, 4, 4)
  }

  ghost predicate MatrixStored(pages: seq<Allocs>, subs: seq<(nat, Bytes)>, b: Bounds, rows: seq<Row>,
                               raws: seq<Bytes>, matrix: nat) {
    if rows == [] then matrix == 0
    else
      && 0 < matrix < Blocks.U32 && Stored(pages, subs, matrix) == Some(Flat(raws))
      && (IsHID(matrix) <==> |rows| * b.bm <= MAX_ALLOCATION)
  }

  /** A committed table's parts, whatever its row bytes hold. */
  ghost predicate Image(pages: seq<Allocs>, subs: seq<(nat, Bytes)>, root: nat, cols: seq<Column>, b: Bounds,
                        rows: seq<Row>, c: Commit) {
    && TagsRise(c.sorted) && multiset(c.sorted) == multiset(cols)
    && Stored(pages, subs, root) == Some(InfoBytes(c.sorted, b, c.index, c.matrix))
    && |c.raws| == |rows| && Wide(c.raws, b.bm) && MatrixStored(pages, subs, b, rows, c.raws, c.matrix) &&
       IndexBuilt(pages, rows, c)
  }

  // ---------- building ----------

  lemma AllRowsKept(pages: seq<Allocs>, subs: seq<(nat, Bytes)>, pages': seq<Allocs>, subs': seq<(nat, Bytes)>,
                    raws: seq<Bytes>, b: Bounds, cols: seq<Column>, rows: seq<Row>)
    requires Keeps(pages, subs, pages', subs') && AllRows(pages, subs, raws, b, cols, rows)
    ensures AllRows(pages', subs', raws, b, cols, rows)
  {
    hide Keeps, RowHolds;
    forall i | 0 <= i < |rows|
      ensures RowHolds(pages', subs', raws[i], b, cols, rows[i])
    {
      RowKept(pages, subs, pages', subs', raws[i], b, cols, rows[i]);
    }
  }

  lemma AllRowsSnoc(pages: seq<Allocs>, subs: seq<(nat, Bytes)>, raws: seq<Bytes>, b: Bounds, cols: seq<Column>,
                    rows: seq<Row>, i: nat, raw: Bytes)
    requires i < |rows| && AllRows(pages, subs, raws, b, cols, rows[..i]) &&
      RowHolds(pages, subs, raw, b, cols, rows[i])
    ensures AllRows(pages, subs, raws + [raw], b, cols, rows[..i + 1])
  {
    hide RowHolds;
  }

  /** The first loop of build: every row encoded. */
  method EncodeRows(t: TC) returns (r: Result<seq<Bytes>>)
    requires t.Valid() && t.heap.Valid()
    modifies t.heap`pages, t.heap`subs, t.heap`nextSub
    ensures t.Valid() && t.heap.Valid() && t.heap.nextSub >= old(t.heap.nextSub)
    ensures r.Ok? ==> Wide(r.value, t.bounds.bm) && |r.value| == |t.rows|
    ensures r.Ok? && t.heap.nextSub <= MAX_SUBS && RowsRoomy(t.cols, t.rows) ==>
      AllRows(t.heap.pages, t.heap.subs, r.value, t.bounds, t.cols, t.rows)
    ensures r.Err? ==> |t.heap.pages| == MAX_PAGE_INDEX + 1 || !RowsRoomy(t.cols, t.rows)
  {
    hide LaidOut, Keeps, RowHolds, AllRows, Indexed, Known, RowRoomy, IdsDiffer;
    var h := t.heap;
    var raws: seq<Bytes> := [];
    NoRowsYet(h.pages, h.subs, t.bounds, t.cols, t.rows);
    for i := 0 to |t.rows|
      invariant t.Valid() && h.Valid() && h.nextSub >= old(t.heap.nextSub) && |raws| == i && Wide(raws, t.bounds.bm)
      invariant h.nextSub <= MAX_SUBS && RowsRoomy(t.cols, t.rows) ==>
        AllRows(h.pages, h.subs, raws, t.bounds, t.cols, t.rows[..i])
    {
      ghost var pages, subs := h.pages, h.subs;
      var raw := EncodeRow(h, t.cols, t.bounds, t.rows[i]);
      if raw.Err? {
        return Err(raw.error);
      }
      if h.nextSub <= MAX_SUBS && RowsRoomy(t.cols, t.rows) {
        AllRowsKept(pages, subs, h.pages, h.subs, raws, t.bounds, t.cols, t.rows[..i]);
        AllRowsSnoc(h.pages, h.subs, raws, t.bounds, t.cols, t.rows, i, raw.value);
      }
      raws := raws + [raw.value];
    }
    assert t.rows[..|t.rows|] == t.rows;
    return Ok(raws);
  }

  lemma NoRowsYet(pages: seq<Allocs>, subs: seq<(nat, Bytes)>, b: Bounds, cols: seq<Column>, rows: seq<Row>)
    ensures AllRows(pages, subs, [], b, cols, rows[..0])
  {
  }

  /** packRowMatrix. */
  method PackMatrix(raws: seq<Bytes>, rowSize: nat) returns (packed: Bytes)
    requires Wide(raws, rowSize)
    ensures packed == Flat(raws) && |packed| == |raws| * rowSize
  {
    FlatRows(raws, rowSize);
    var buf := new byte[|raws| * rowSize](_ => 0);
    var off := 0;
    NoRows();
    assert raws[..0] == [];
    for i := 0 to |raws|
      invariant off == i * rowSize && off <= buf.Length && buf[..off] == Flat(raws[..i])
    {
      hide Flat;
      Successor(i, rowSize);
      Ordered(i + 1, |raws|, rowSize);
      off := Append(buf, off, raws[i]);
      assert raws[..i + 1] == raws[..i] + [raws[i]];
      FlatSnoc(raws[..i], raws[i]);
    }
    assert raws[..|raws|] == raws && buf[..off] == buf[..];
    packed := buf[..];
  }

  /** Small matrices are heap allocations, larger ones subnodes of whole-row leaves; an empty table has none. */
  method PlaceMatrix(h: Heap, b: Bounds, ghost rows: seq<Row>, raws: seq<Bytes>) returns (r: Result<nat>)
    requires h.Valid() && Wide(raws, b.bm) && |raws| == |rows| && RowsPerBlock(b.bm) >= 1 && b.bm > 0
    modifies h`pages, h`subs, h`nextSub
    ensures h.Valid() && h.nextSub >= old(h.nextSub) && Keeps(old(h.pages), old(h.subs), h.pages, h.subs)
    ensures r.Ok? && h.nextSub <= MAX_SUBS ==> MatrixStored(h.pages, h.subs, b, rows, raws, r.value)
    ensures r.Err? ==> |h.pages| == MAX_PAGE_INDEX + 1
  {
    hide Keeps, Stored, Flat;
    KeepsSelf(h.pages, h.subs);
    if |raws| == 0 {
      return Ok(0);
    }
    var tight := |raws| * b.bm;
    var packed := PackMatrix(raws, b.bm);
    if tight > MAX_ALLOCATION {
      LtpParts(h.nextSub);
      var nid := NewSub(h, packed);
      return Ok(nid);
    }
    r := PlaceAny(h, packed);
  }

  lemma LongsDiffer(a: nat, b: nat)
    requires a < Blocks.U32 && b < Blocks.U32 && a != b
    ensures LE32(a) != LE32(b)
  {
    LongAt([], a);
    LongAt([], b);
    hide LE32;
  }

  /** The Row Index BTH: row identifier to row number. */
  method BuildRowIndex(t: TC) returns (r: Result<nat>, ghost es: seq<KV>, ghost tree: Tree, ghost levels: nat)
    requires t.Valid() && t.heap.Valid() && |t.rows| < Blocks.U32
    modifies t.heap`pages, t.heap`subs, t.heap`nextSub, t.heap`root
    ensures t.Valid() && t.heap.Valid() && Extends(old(t.heap.pages), t.heap.pages)
    ensures t.heap.subs == old(t.heap.subs) && t.heap.nextSub == old(t.heap.nextSub)
    ensures r.Ok? ==> 0 < r.value < Blocks.U32 && Built(t.heap.pages, r.value, 4, 4, es, tree, levels)
    ensures r.Ok? ==> multiset(es) == multiset(IndexPairs(t.rows)) && Ascending(es) && Sized(es, 4, 4)
    ensures r.Err? ==> |t.heap.pages| == MAX_PAGE_INDEX + 1
  {
    hide LaidOut, Known, IdsDiffer, Indexed, Extends, Built, Ascending, LE32;
    var bth := new BTH(t.heap, 4, 4);
    FillIndex(t.rows, t.byRow, bth);
    r, es, tree, levels := bth.Build();
  }

  /** One entry per row; identifiers differ, so no insertion is refused. */
  method FillIndex(rows: seq<Row>, ghost byRow: map<nat, nat>, bth: BTH)
    requires Indexed(rows, byRow) && |rows| < Blocks.U32 && bth.Valid() && bth.keySize == 4 && bth.valSize == 4 &&
      bth.ents == []
    modifies bth`ents
    ensures bth.Valid() && bth.ents == IndexPairs(rows)
  {
    hide Indexed, LE32;
    ghost var pairs := IndexPairs(rows);
    for i := 0 to |rows|
      invariant bth.Valid() && bth.ents == pairs[..i]
    {
      NewKey(rows, byRow, i);
      var ok := bth.Insert(LE32(rows[i].id), LE32(i));
      assert ok.Ok?;
      assert pairs[..i + 1] == pairs[..i] + [pairs[i]];
    }
    assert pairs[..|rows|] == pairs;
  }

  lemma NewKey(rows: seq<Row>, byRow: map<nat, nat>, i: nat)
    requires Indexed(rows, byRow) && i < |rows|
    ensures forall e | e in IndexPairs(rows)[..i] :: e.key != LE32(rows[i].id)
    ensures IndexPairs(rows)[i] == KV(LE32(rows[i].id), LE32(i))
  {
    hide LE32;
    forall e | e in IndexPairs(rows)[..i]
      ensures e.key != LE32(rows[i].id)
    {
      var k :| 0 <= k < i && IndexPairs(rows)[k] == e;
      assert byRow[rows[k].id] == k && byRow[rows[i].id] == i;
      LongsDiffer(rows[k].id, rows[i].id);
    }
  }

  lemma BuiltKept(pages: seq<Allocs>, pages': seq<Allocs>, rows: seq<Row>, c: Commit)
    requires IndexBuilt(pages, rows, c) && Extends(pages, pages')
    ensures IndexBuilt(pages', rows, c)
  {
    hide On, Named, Pairs, HeaderBytes, Ascending, Sized;
    if c.es != [] {
      OnKept(pages, pages', c.tree, c.levels, 4, 4);
    }
    hide Extends;
    RootKept(pages, pages', c.index);
  }

  lemma RootKept(pages: seq<Allocs>, pages': seq<Allocs>, hid: nat)
    requires Extends(pages, pages')
    ensures Named(pages, hid).Some? ==> Named(pages', hid) == Named(pages, hid)
  {
    hide Named;
  }

  lemma MatrixKept(pages: seq<Allocs>, subs: seq<(nat, Bytes)>, pages': seq<Allocs>, subs': seq<(nat, Bytes)>,
                   b: Bounds, rows: seq<Row>, raws: seq<Bytes>, matrix: nat)
    requires Keeps(pages, subs, pages', subs') && MatrixStored(pages, subs, b, rows, raws, matrix)
    ensures MatrixStored(pages', subs', b, rows, raws, matrix)
  {
    hide Stored, Flat;
  }

  /** The rows and their matrix. */
  method StoreRows(t: TC) returns (r: Result<nat>, ghost raws: seq<Bytes>)
    requires t.Valid() && t.heap.Valid()
    modifies t.heap`pages, t.heap`subs, t.heap`nextSub
    ensures t.Valid() && t.heap.Valid()
    ensures r.Ok? ==> |raws| == |t.rows| && Wide(raws, t.bounds.bm)
    ensures r.Ok? && t.heap.nextSub <= MAX_SUBS ==>
      MatrixStored(t.heap.pages, t.heap.subs, t.bounds, t.rows, raws, r.value)
    ensures r.Ok? && t.heap.nextSub <= MAX_SUBS && RowsRoomy(t.cols, t.rows) ==>
      AllRows(t.heap.pages, t.heap.subs, raws, t.bounds, t.cols, t.rows)
    ensures r.Err? ==> |t.heap.pages| == MAX_PAGE_INDEX + 1 || !RowsRoomy(t.cols, t.rows)
  {
    RowFitsBlock(t.cols, t.bounds);
    hide LaidOut, Known, IdsDiffer, Indexed, Keeps, AllRows, MatrixStored, Stored, SubsIssued, RowsRoomy, PageFits,
         RowsPerBlock;
    var h := t.heap;
    var encoded := EncodeRows(t);
    if encoded.Err? {
      return Err(encoded.error), [];
    }
    raws := encoded.value;
    ghost var pages, subs := h.pages, h.subs;
    r := PlaceMatrix(h, t.bounds, t.rows, encoded.value);
    if AllRows(pages, subs, raws, t.bounds, t.cols, t.rows) {
      AllRowsKept(pages, subs, h.pages, h.subs, raws, t.bounds, t.cols, t.rows);
    }
  }

  /** build: rows, matrix, row index and TCINFO, in that order, giving the matrix's reference; it fails only when the
      heap is exhausted or a narrow cell would have to hold a reference. */
  method Build(t: TC) returns (r: Result<nat>, ghost c: Commit)
    requires t.Valid() && t.heap.Valid() && |t.rows| < Blocks.U32
    modifies t.heap`pages, t.heap`subs, t.heap`nextSub, t.heap`root
    ensures t.Valid() && t.heap.Valid()
    ensures r.Ok? ==> r.value == c.matrix
    ensures r.Ok? && t.heap.nextSub <= MAX_SUBS ==>
      Image(t.heap.pages, t.heap.subs, t.heap.root, t.cols, t.bounds, t.rows, c)
    ensures r.Ok? && t.heap.nextSub <= MAX_SUBS && RowsRoomy(t.cols, t.rows) ==>
      AllRows(t.heap.pages, t.heap.subs, c.raws, t.bounds, t.cols, t.rows)
    ensures r.Ok? && t.heap.nextSub <= MAX_SUBS ==> t.heap.root < Blocks.U32
    ensures r.Err? ==> |t.heap.pages| == MAX_PAGE_INDEX + 1 || !RowsRoomy(t.cols, t.rows)
  {
    TagsFollow(t.cols, t.bounds);
    hide LaidOut, Known, IdsDiffer, Indexed, Extends, Built, Ascending, Sized, AllRows, MatrixStored, IndexBuilt,
         Stored, TagsDiffer;
    hide TagsRise, InfoBytes, SubsIssued, RowsRoomy, Image, Wide, PageFits;
    var h := t.heap;
    c := Commit([], [], 0, 0, [], Leaf(0, []), 0);
    var matrix;
    ghost var raws;
    matrix, raws := StoreRows(t);
    if matrix.Err? {
      return matrix, c;
    }
    ghost var p2, s2 := h.pages, h.subs;
    var index;
    ghost var es, tree, levels;
    index, es, tree, levels := BuildRowIndex(t);
    if index.Err? {
      return index, c;
    }
    ghost var p3 := h.pages;
    var root;
    ghost var sorted;
    root, sorted := PlaceInfo(h, t.cols, t.bounds, index.value, matrix.value);
    if root.Err? {
      return root, c;
    }
    h.root := root.value;
    c := Commit(sorted, raws, index.value, matrix.value, es, tree, levels);
    if h.nextSub <= MAX_SUBS {
      BuildDone(p2, s2, p3, h.pages, h.subs, h.root, t.cols, t.bounds, t.rows, c);
    }
    return matrix, c;
  }

  /** The TCINFO, always small enough for a heap allocation. */
  method PlaceInfo(h: Heap, cols: seq<Column>, b: Bounds, index: nat, matrix: nat)
    returns (r: Result<nat>, ghost sorted: seq<Column>)
    requires h.Valid() && TagsDiffer(cols) && |cols| <= MAX_COLUMNS
    modifies h`pages, h`subs, h`nextSub
    ensures h.Valid() && h.nextSub == old(h.nextSub) && h.subs == old(h.subs)
    ensures r.Ok? ==>
      Extends(old(h.pages), h.pages) && Stored(h.pages, h.subs, r.value) == Some(InfoBytes(sorted, b, index, matrix))
    ensures r.Ok? ==> TagsRise(sorted) && multiset(sorted) == multiset(cols)
    ensures r.Ok? && h.nextSub <= MAX_SUBS ==> r.value < Blocks.U32
    ensures r.Err? ==> |h.pages| == MAX_PAGE_INDEX + 1
  {
    hide Extends, Keeps, Stored, TagsDiffer, TagsRise, InfoBytes, SubsIssued;
    var info;
    info, sorted := WriteInfo(cols, b, index, matrix);
    InfoLength(cols, sorted, b, index, matrix);
    r := PlaceAny(h, info.value);
  }

  lemma InfoLength(cols: seq<Column>, sorted: seq<Column>, b: Bounds, index: nat, matrix: nat)
    requires multiset(sorted) == multiset(cols) && |cols| <= MAX_COLUMNS
    ensures |InfoBytes(sorted, b, index, matrix)| <= MAX_ALLOCATION
  {
    hide InfoBytes;
    SameLength(sorted, cols);
    InfoSize(sorted, b, index, matrix);
  }

  lemma TagsFollow(cols: seq<Column>, b: Bounds)
    requires Planned(cols, b)
    ensures TagsDiffer(cols)
  {
    hide LaidOut;
    forall i, j | 0 <= i < j < |cols|
      ensures Tag(cols[i]) != Tag(cols[j])
    {
      assert cols[i].id != cols[j].id;
    }
  }

  lemma BuildDone(p2: seq<Allocs>, s2: seq<(nat, Bytes)>, p3: seq<Allocs>,
                  pages: seq<Allocs>, subs: seq<(nat, Bytes)>, root: nat, cols: seq<Column>, b: Bounds, rows: seq<Row>,
                    c: Commit)
    requires |c.raws| == |rows| && Wide(c.raws, b.bm) && MatrixStored(p2, s2, b, rows, c.raws, c.matrix)
    requires Extends(p2, p3) && IndexBuilt(p3, rows, c) && Extends(p3, pages) && subs == s2
    requires Stored(pages, subs, root) == Some(InfoBytes(c.sorted, b, c.index, c.matrix))
    requires TagsRise(c.sorted) && multiset(c.sorted) == multiset(cols)
    ensures Image(pages, subs, root, cols, b, rows, c)
    ensures AllRows(p2, s2, c.raws, b, cols, rows) ==> AllRows(pages, subs, c.raws, b, cols, rows)
  {
    hide Extends, Keeps, AllRows, Wide, MatrixStored, IndexBuilt, Stored, TagsRise, InfoBytes;
    ExtendsKeeps(p2, p3, s2);
    ExtendsKeeps(p3, pages, s2);
    KeepsTwice(p2, s2, p3, s2, pages, subs);
    if AllRows(p2, s2, c.raws, b, cols, rows) {
      AllRowsKept(p2, s2, pages, subs, c.raws, b, cols, rows);
    }
    MatrixKept(p2, s2, pages, subs, b, rows, c.raws, c.matrix);
    BuiltKept(p3, pages, rows, c);
  }

  // ---------- opening ----------

  datatype TCView = TCView(info: TableView, bth: BthView, matrix: Bytes, blocked: bool)

  /** What InspectTableRows demands of one row index entry. */
  ghost predicate EntryRight(v: TableView, e: KV, matrix: Bytes, blocked: bool) {
    && |e.key| == 4 && |e.val| == 4
    && var off := RowOffset(Long(e.val, 0), v.bounds.bm, blocked);
       && off + v.bounds.bm <= |matrix| && v.bounds.bm >= 4
       && Long(matrix, off) == Long(e.key, 0)
       && CebHas(matrix[off..off + v.bounds.bm], v.bounds.b1, 0) &&
          CebHas(matrix[off..off + v.bounds.bm], v.bounds.b1, 1)
  }

  ghost predicate ColumnsInside(v: TableView) {
    forall i | 0 <= i < |v.cols| :: v.cols[i].offset + v.cols[i].size <= v.bounds.bm
  }

  ghost predicate RowsRight(v: TableView, ents: seq<KV>, matrix: Bytes, blocked: bool) {
    && 0 < v.bounds.bm && RowsPerBlock(v.bounds.bm) >= 1
    && if v.rowMatrix == 0 then ents == [] && matrix == []
       else
         && (blocked <==> !IsHID(v.rowMatrix))
         && (forall i | 0 <= i < |ents| :: EntryRight(v, ents[i], matrix, blocked))
         && (forall i, j | 0 <= i < j < |ents| :: Long(ents[i].val, 0) != Long(ents[j].val, 0))
         && (ents != [] ==> ColumnsInside(v))
         && (!blocked ==> |matrix| == |ents| * v.bounds.bm)
  }

  method CheckColumnsInside(v: TableView) returns (ok: bool)
    ensures ok <==> ColumnsInside(v)
  {
    for i := 0 to |v.cols|
      invariant forall j | 0 <= j < i :: v.cols[j].offset + v.cols[j].size <= v.bounds.bm
    {
      if v.cols[i].offset + v.cols[i].size > v.bounds.bm {
        return false;
      }
    }
    return true;
  }

  /** One entry of the row index against the matrix. */
  method CheckEntry(v: TableView, e: KV, matrix: Bytes, blocked: bool) returns (ok: bool)
    requires v.bounds.bm >= 4
    ensures ok <==> EntryRight(v, e, matrix, blocked)
  {
    hide Bit;
    if |e.key| != 4 || |e.val| != 4 {
      return false;
    }
    var off := RowOffset(Long(e.val, 0), v.bounds.bm, blocked);
    if off + v.bounds.bm > |matrix| {
      return false;
    }
    var row := matrix[off..off + v.bounds.bm];
    if Long(matrix, off) != Long(e.key, 0) {
      return false;
    }
    return CebHas(row, v.bounds.b1, 0) && CebHas(row, v.bounds.b1, 1);
  }

  /** InspectTableRows: every indexed row lies in the matrix, carries its identifier and is indexed once. */
  method InspectRows(v: TableView, ents: seq<KV>, matrix: Bytes, blocked: bool) returns (ok: bool)
    requires v.bounds.bm >= 4 || v.bounds.bm == 0
    ensures ok <==> RowsRight(v, ents, matrix, blocked)
  {
    hide EntryRight, ColumnsInside, Long;
    if v.bounds.bm == 0 {
      return false;
    }
    if RowsPerBlock(v.bounds.bm) < 1 {
      return false;
    }
    if v.rowMatrix == 0 {
      return |ents| == 0 && |matrix| == 0;
    }
    if blocked && IsHID(v.rowMatrix) {
      return false;
    }
    if !blocked && !IsHID(v.rowMatrix) {
      return false;
    }
    var seen: set<nat> := {};
    for i := 0 to |ents|
      invariant forall j | 0 <= j < i ::
        EntryRight(v, ents[j], matrix, blocked) && Sized4(ents[j]) && Long(ents[j].val, 0) in seen
      invariant forall x | x in seen :: exists j | 0 <= j < i :: Sized4(ents[j]) && Long(ents[j].val, 0) == x
      invariant forall j, k | 0 <= j < k < i :: Long(ents[j].val, 0) != Long(ents[k].val, 0)
      invariant i > 0 ==> ColumnsInside(v)
    {
      var right := CheckEntry(v, ents[i], matrix, blocked);
      if !right {
        return false;
      }
      EntrySized(v, ents[i], matrix, blocked);
      if Long(ents[i].val, 0) in seen {
        return false;
      }
      seen := seen + {Long(ents[i].val, 0)};
      var inside := CheckColumnsInside(v);
      if !inside {
        return false;
      }
    }
    if !blocked && |matrix| != |ents| * v.bounds.bm {
      return false;
    }
    return true;
  }

  predicate Sized4(e: KV) {
    |e.key| == 4 && |e.val| == 4
  }

  lemma EntrySized(v: TableView, e: KV, matrix: Bytes, blocked: bool)
    requires EntryRight(v, e, matrix, blocked)
    ensures Sized4(e)
  {
  }

  // ---------- a committed table passes the inspection ----------

  /** A row index entry is some row's. */
  lemma EntryOf(es: seq<KV>, rows: seq<Row>, e: KV) returns (k: nat)
    requires multiset(es) == multiset(IndexPairs(rows)) && e in es
    ensures k < |rows| && e == KV(LE32(rows[k].id), LE32(k))
  {
    hide LE32;
    SameElements(es, IndexPairs(rows));
    k :| 0 <= k < |rows| && IndexPairs(rows)[k] == e;
  }

  lemma RowEntry(es: seq<KV>, rows: seq<Row>, k: nat)
    requires multiset(es) == multiset(IndexPairs(rows)) && k < |rows|
    ensures KV(LE32(rows[k].id), LE32(k)) in es
  {
    hide LE32;
    SameElements(es, IndexPairs(rows));
    assert IndexPairs(rows)[k] in IndexPairs(rows);
  }

  /** The row's own bytes in the matrix. */
  lemma RowInMatrix(raws: seq<Bytes>, w: nat, k: nat)
    requires Wide(raws, w) && k < |raws|
    ensures k * w + w <= |Flat(raws)| == |raws| * w && Flat(raws)[k * w..k * w + w] == raws[k]
  {
    hide Flat;
    RowAt(raws, w, k);
  }

  lemma AllWide(pages: seq<Allocs>, subs: seq<(nat, Bytes)>, raws: seq<Bytes>, b: Bounds, cols: seq<Column>,
                rows: seq<Row>)
    requires AllRows(pages, subs, raws, b, cols, rows)
    ensures Wide(raws, b.bm)
  {
    hide CellHolds;
  }

  /** The identifier and the two row columns' bits, as encoded. */
  lemma RowHead(pages: seq<Allocs>, subs: seq<(nat, Bytes)>, row: Bytes, b: Bounds, cols: seq<Column>, r: Row)
    requires LaidOut(cols, b) && RowHolds(pages, subs, row, b, cols, r) && r.id < Blocks.U32 && r.ver < Blocks.U32 &&
      b.bm >= 8
    ensures |row| == b.bm && Long(row, 0) == r.id && Long(row, 4) == r.ver && CebHas(row, b.b1, 0) &&
      CebHas(row, b.b1, 1)
  {
    hide Offsets, PackedFrom, CebHas, Stored, Long, LE32;
    var x :| 0 <= x < |cols| && IsRowId(cols[x]);
    var y :| 0 <= y < |cols| && IsRowVer(cols[y]);
    assert CellHolds(pages, subs, row, b.b1, cols[x], CellOf(r, cols[x]));
    assert CellHolds(pages, subs, row, b.b1, cols[y], CellOf(r, cols[y]));
    assert Placed2(cols[x]) && Placed2(cols[y]);
    assert Fit(LE32(r.id), 4) == LE32(r.id) && Fit(LE32(r.ver), 4) == LE32(r.ver);
    LongIn(row, 0, r.id);
    LongIn(row, 4, r.ver);
  }

  lemma EntryIsRight(v: TableView, b: Bounds, matrix: Bytes, blocked: bool, raws: seq<Bytes>, k: nat, id: nat)
    requires v.bounds == b && matrix == Flat(raws) && Wide(raws, b.bm) && k < |raws| && b.bm >= 8 && k < Blocks.U32 &&
      id < Blocks.U32
    requires Long(raws[k], 0) == id && CebHas(raws[k], b.b1, 0) && CebHas(raws[k], b.b1, 1)
    ensures EntryRight(v, KV(LE32(id), LE32(k)), matrix, blocked)
  {
    hide Flat, CebHas, LE32, Long, RowOffset;
    RowInMatrix(raws, b.bm, k);
    RowOffsetIs(k, b.bm, blocked);
    LongOf(id);
    LongOf(k);
    LongSlice(matrix, k * b.bm, b.bm);
  }

  lemma LongOf(v: nat)
    requires v < Blocks.U32
    ensures Long(LE32(v), 0) == v
  {
    LongAt([], v);
    assert [] + LE32(v) == LE32(v);
  }

  lemma LongSlice(m: Bytes, off: nat, w: nat)
    requires off + w <= |m| && w >= 4
    ensures Long(m, off) == Long(m[off..off + w], 0)
  {
  }

  ghost predicate RowsNumbered(rows: seq<Row>) {
    |rows| < Blocks.U32 && forall i | 0 <= i < |rows| :: 0 < rows[i].id < Blocks.U32 && rows[i].ver < Blocks.U32
  }

  lemma EntriesRight(pages: seq<Allocs>, subs: seq<(nat, Bytes)>, v: TableView, cols: seq<Column>, b: Bounds,
                     rows: seq<Row>, c: Commit, blocked: bool)
    requires LaidOut(cols, b) && RowsNumbered(rows) && b.bm >= 8 && v.bounds == b
    requires AllRows(pages, subs, c.raws, b, cols, rows) && IndexBuilt(pages, rows, c)
    ensures forall i | 0 <= i < |c.es| :: EntryRight(v, c.es[i], Flat(c.raws), blocked)
    ensures forall i | 0 <= i < |c.es| :: |c.es[i].val| >= 4
    ensures forall i, j | 0 <= i < j < |c.es| :: Long(c.es[i].val, 0) != Long(c.es[j].val, 0)
    ensures |c.es| == |rows|
  {
    hide LaidOut, RowHolds, Built, EntryRight, Flat, LE32, CebHas, Int;
    AllWide(pages, subs, c.raws, b, cols, rows);
    SameLength(c.es, IndexPairs(rows));
    forall i | 0 <= i < |c.es|
      ensures EntryRight(v, c.es[i], Flat(c.raws), blocked)
    {
      var k := EntryOf(c.es, rows, c.es[i]);
      RowHead(pages, subs, c.raws[k], b, cols, rows[k]);
      EntryIsRight(v, b, Flat(c.raws), blocked, c.raws, k, rows[k].id);
    }
    hide AllRows, Wide;
    forall i, j | 0 <= i < j < |c.es|
      ensures Long(c.es[i].val, 0) != Long(c.es[j].val, 0)
    {
      IndexesDiffer(c.es, rows, i, j);
    }
  }

  lemma IndexesDiffer(es: seq<KV>, rows: seq<Row>, i: nat, j: nat)
    requires multiset(es) == multiset(IndexPairs(rows)) && Ascending(es) && Sized(es, 4, 4) && i < j < |es| &&
      |rows| < Blocks.U32
    ensures Long(es[i].val, 0) != Long(es[j].val, 0)
  {
    hide LE32, Int, IndexPairs;
    var k := EntryOf(es, rows, es[i]);
    var l := EntryOf(es, rows, es[j]);
    assert Int(es[i].key) < Int(es[j].key);
    assert es[i].key != es[j].key;
    LongOf(k);
    LongOf(l);
    hide Long;
  }

  /** What OpenTC makes of a committed table. */
  ghost predicate Opened(v: TCView, b: Bounds, rows: seq<Row>, c: Commit) {
    && v.info == TableView(c.sorted, b, c.index, c.matrix)
    && v.bth == BthView(4, 4, c.levels, if c.es == [] then 0 else c.tree.hid)
    && v.matrix == (if rows == [] then [] else Flat(c.raws)) && v.blocked == (rows != [] && !IsHID(c.matrix))
  }

  lemma CommittedRowsRight(pages: seq<Allocs>, subs: seq<(nat, Bytes)>, root: nat, cols: seq<Column>, b: Bounds,
                           rows: seq<Row>, c: Commit, v: TCView)
    requires Planned(cols, b) && RowsNumbered(rows) && Image(pages, subs, root, cols, b, rows, c) &&
      Opened(v, b, rows, c)
    requires AllRows(pages, subs, c.raws, b, cols, rows)
    ensures RowsRight(v.info, c.es, v.matrix, v.blocked)
  {
    RowFitsBlock(cols, b);
    hide LaidOut, IdsDiffer, Typed, EntryRight, Flat, Stored, TagsRise, InfoBytes, Long, AllRows, IndexBuilt, Wide,
         Planned;
    assert LaidOut(cols, b) by {
      PlannedLaidOut(cols, b);
    }
    EntriesRight(pages, subs, v.info, cols, b, rows, c, v.blocked);
    FlatRows(c.raws, b.bm);
    SortedInside(cols, c.sorted, b);
  }

  lemma PlannedLaidOut(cols: seq<Column>, b: Bounds)
    requires Planned(cols, b)
    ensures LaidOut(cols, b)
  {
  }

  lemma SortedInside(cols: seq<Column>, sorted: seq<Column>, b: Bounds)
    requires LaidOut(cols, b) && multiset(cols) == multiset(sorted)
    ensures forall i | 0 <= i < |sorted| :: sorted[i].offset + sorted[i].size <= b.bm
  {
    SameElements(cols, sorted);
    forall i | 0 <= i < |sorted|
      ensures sorted[i].offset + sorted[i].size <= b.bm
    {
      assert sorted[i] in cols;
      var k :| 0 <= k < |cols| && cols[k] == sorted[i];
      CellInside(cols, b, k);
      hide LaidOut;
    }
    hide LaidOut;
  }

  /** openTCHeap: InspectTable, OpenBTH and InspectTableRows. It accepts every committed table whose rows hold their
      cells; any table it accepts is the committed one. */
  method OpenTC(pages: seq<Allocs>, subs: seq<(nat, Bytes)>, root: nat, ghost cols: seq<Column>, ghost b: Bounds,
                ghost rows: seq<Row>, ghost c: Commit)
    returns (r: Result<TCView>)
    requires Planned(cols, b) && RowsNumbered(rows) && Image(pages, subs, root, cols, b, rows, c)
    ensures AllRows(pages, subs, c.raws, b, cols, rows) ==> r.Ok?
    ensures r.Ok? ==> Opened(r.value, b, rows, c)
  {
    RowFitsBlock(cols, b);
    CommittedInfo(pages, subs, root, cols, b, rows, c);
    hide LaidOut, IdsDiffer, Typed, Flat, Stored, TagsRise, InfoBytes, AllRows, RowsRight, WellFormed, Ascending, On,
         Sized, Pairs, Wide;
    var raw := Stored(pages, subs, root);
    var info := InspectTable(raw.value);
    SameView(raw.value, info.value, TableView(c.sorted, b, c.index, c.matrix));
    var bth := OpenBTH(pages, info.value.rowIndex, 0, 4, 4, c.es, c.tree, c.levels);
    if bth.value.keySize != 4 || bth.value.valSize != 4 {
      return Err(InvariantBroken);
    }
    var matrix: Bytes := [];
    if info.value.rowMatrix != 0 {
      matrix := Stored(pages, subs, info.value.rowMatrix).value;
    }
    var blocked := info.value.rowMatrix != 0 && !IsHID(info.value.rowMatrix);
    var ents := Entries(pages, bth.value, c.index, c.es, c.tree);
    var v := TCView(info.value, bth.value, matrix, blocked);
    if AllRows(pages, subs, c.raws, b, cols, rows) {
      CommittedRowsRight(pages, subs, root, cols, b, rows, c, v);
    }
    var ok := InspectRows(info.value, ents.value, matrix, blocked);
    if !ok {
      return Err(InvariantBroken);
    }
    return Ok(v);
  }

  lemma SameView(raw: Bytes, a: TableView, b: TableView)
    requires Views(raw, a) && Views(raw, b)
    ensures a == b
  {
    hide WellFormed;
  }

  lemma CommittedInfo(pages: seq<Allocs>, subs: seq<(nat, Bytes)>, root: nat, cols: seq<Column>, b: Bounds,
                      rows: seq<Row>, c: Commit)
    requires Planned(cols, b) && Image(pages, subs, root, cols, b, rows, c)
    ensures Stored(pages, subs, root).Some? &&
      Views(Stored(pages, subs, root).value, TableView(c.sorted, b, c.index, c.matrix))
  {
    hide LaidOut, IdsDiffer, Stored, TagsRise, InfoBytes, AllRows, Flat, Built, Typed, WellFormed;
    InfoReadsBack(cols, c.sorted, b, c.index, c.matrix);
  }
}
