/** Reading a committed Table Context: rows, cells and loading it for another edit (tc.go). */
module TableReader {
  import opened Common
  import opened HeapOnNode
  import opened BTreeOnHeap
  import opened TableLayout
  import opened TableInfo
  import opened TableRows
  import opened TableContext
  import opened TableCommit
  import Blocks

  /** A table as it stands on its heap, and the view opened over it. */
  ghost predicate Live(pages: seq<Allocs>, subs: seq<(nat, Bytes)>, root: nat, cols: seq<Column>, b: Bounds,
                       rows: seq<Row>, c: Commit, v: TCView) {
    && Planned(cols, b) && RowsNumbered(rows) && Image(pages, subs, root, cols, b, rows, c) && Opened(v, b, rows, c)
  }

  /** A live table whose row bytes hold their cells. */
  ghost predicate Whole(pages: seq<Allocs>, subs: seq<(nat, Bytes)>, root: nat, cols: seq<Column>, b: Bounds,
                        rows: seq<Row>, c: Commit, v: TCView) {
    Live(pages, subs, root, cols, b, rows, c, v) && AllRows(pages, subs, c.raws, b, cols, rows)
  }

  /** The row with an identifier, among rows that all have different ones. */
  ghost predicate IsRow(rows: seq<Row>, id: nat, k: nat) {
    k < |rows| && rows[k].id == id
  }

  ghost predicate HasRow(rows: seq<Row>, id: nat) {
    exists k :: IsRow(rows, id, k)
  }

  lemma SameLong(a: nat, b: nat)
    requires a < Blocks.U32 && b < Blocks.U32 && LE32(a) == LE32(b)
    ensures a == b
  {
    LongOf(a);
    LongOf(b);
    hide LE32;
  }

  lemma MatrixRow(pages: seq<Allocs>, subs: seq<(nat, Bytes)>, root: nat, cols: seq<Column>, b: Bounds, rows: seq<Row>,
                  c: Commit, v: TCView, k: nat)
    requires Live(pages, subs, root, cols, b, rows, c, v) && k < |rows|
    ensures |c.raws| == |rows| && k < Blocks.U32
    ensures RowOffset(k, b.bm, v.blocked) == k * b.bm && k * b.bm + b.bm <= |v.matrix| &&
      v.matrix[k * b.bm..k * b.bm + b.bm] == c.raws[k]
  {
    hide LaidOut, IdsDiffer, Typed, Flat, Stored, TagsRise, InfoBytes, AllRows, IndexBuilt, MatrixStored, RowOffset;
    RowInMatrix(c.raws, b.bm, k);
    RowOffsetIs(k, b.bm, v.blocked);
  }

  /** rowBytes: the bytes of the row with this identifier; an error when there is none. */
  method RowBytes(pages: seq<Allocs>, v: TCView, id: nat,
                  ghost subs: seq<(nat, Bytes)>, ghost root: nat, ghost cols: seq<Column>, ghost b: Bounds,
                    ghost rows: seq<Row>, ghost c: Commit)
    returns (r: Result<Bytes>, ghost k: nat)
    requires id < Blocks.U32 && Live(pages, subs, root, cols, b, rows, c, v)
    ensures r.Ok? ==> IsRow(rows, id, k) && |c.raws| == |rows| && r.value == c.raws[k]
    ensures r.Err? ==> !HasRow(rows, id)
  {
    hide LaidOut, IdsDiffer, Typed, Flat, Stored, TagsRise, InfoBytes, AllRows, MatrixStored, RowOffset, Int, On,
         Pairs, Sized, LE32;
    k := 0;
    var rec := Lookup(pages, v.bth, LE32(id), c.index, c.es, c.tree);
    if rec.Err? {
      AbsentRow(c.es, rows, id);
      return Err(InvalidArg), k;
    }
    k := EntryOf(c.es, rows, KV(LE32(id), rec.value));
    SameLong(rows[k].id, id);
    MatrixRow(pages, subs, root, cols, b, rows, c, v, k);
    LongOf(k);
    var idx := Long(rec.value, 0);
    var rowSize := v.info.bounds.bm;
    var off := RowOffset(idx, rowSize, v.blocked);
    if off + rowSize > |v.matrix| {
      return Err(InvariantBroken), k;
    }
    return Ok(v.matrix[off..off + rowSize]), k;
  }

  lemma AbsentRow(es: seq<KV>, rows: seq<Row>, id: nat)
    requires multiset(es) == multiset(IndexPairs(rows)) && forall e | e in es :: e.key != LE32(id)
    ensures !HasRow(rows, id)
  {
    hide LE32;
    forall i: nat
      ensures !IsRow(rows, id, i)
    {
      if i < |rows| {
        RowEntry(es, rows, i);
      }
    }
  }

  // ---------- columns of the view ----------

  /** TCView.column. */
  method FindView(cols: seq<Column>, prop: nat) returns (k: nat)
    ensures k <= |cols| && (k < |cols| ==> cols[k].id == prop)
    ensures k == |cols| ==> forall i | 0 <= i < |cols| :: cols[i].id != prop
  {
    k := 0;
    while k < |cols|
      invariant k <= |cols| && forall i | 0 <= i < k :: cols[i].id != prop
    {
      if cols[k].id == prop {
        return;
      }
      k := k + 1;
    }
  }

  /** The tag-sorted columns are the table's columns. */
  lemma SortedColumn(pages: seq<Allocs>, subs: seq<(nat, Bytes)>, root: nat, cols: seq<Column>, b: Bounds,
                     rows: seq<Row>, c: Commit, v: TCView, j: nat)
    requires Live(pages, subs, root, cols, b, rows, c, v) && j < |v.info.cols|
    ensures v.info.cols == c.sorted && v.info.bounds == b && c.sorted[j] in cols &&
      c.sorted[j].offset + c.sorted[j].size <= b.bm
  {
    hide LaidOut, IdsDiffer, Typed, Flat, Stored, TagsRise, InfoBytes, IndexBuilt, MatrixStored, AllRows;
    SameElements(c.sorted, cols);
    assert c.sorted[j] in c.sorted;
    var i :| 0 <= i < |cols| && cols[i] == c.sorted[j];
    CellInside(cols, b, i);
  }

  lemma SortedHolds(pages: seq<Allocs>, subs: seq<(nat, Bytes)>, root: nat, cols: seq<Column>, b: Bounds,
                    rows: seq<Row>, c: Commit, v: TCView, k: nat, j: nat)
    requires Whole(pages, subs, root, cols, b, rows, c, v) && k < |rows| && j < |v.info.cols|
    ensures v.info.cols == c.sorted && v.info.bounds == b && |c.raws| == |rows| && |c.raws[k]| == b.bm
    ensures CellHolds(pages, subs, c.raws[k], b.b1, c.sorted[j], CellOf(rows[k], c.sorted[j])) && c.sorted[j] in cols
    ensures c.sorted[j].offset + c.sorted[j].size <= b.bm
  {
    hide Live, CellHolds, CellOf;
    SortedColumn(pages, subs, root, cols, b, rows, c, v, j);
    var i :| 0 <= i < |cols| && cols[i] == c.sorted[j];
    assert RowHolds(pages, subs, c.raws[k], b, cols, rows[k]);
    assert CellHolds(pages, subs, c.raws[k], b.b1, cols[i], CellOf(rows[k], cols[i]));
  }

  /** A value as a cell of its column gives it back. */
  function Seen(c: Column, v: Option<Bytes>): Option<Bytes> {
    match v
    case None => None
    case Some(data) => Some(if Fixed(c.kind) then Fit(data, c.size) else data)
  }

  /** What Get promises for a row's cell. */
  ghost predicate Got(cols: seq<Column>, row: Row, prop: nat, r: Result<(nat, Bytes)>) {
    && ((forall j | 0 <= j < |cols| :: cols[j].id != prop) ==> r.Err?)
    && forall j | 0 <= j < |cols| && cols[j].id == prop ::
         if CellOf(row, cols[j]).Some? then r == Ok((cols[j].kind, Seen(cols[j], CellOf(row, cols[j])).value))
           else r.Err?
  }

  /** A cell that holds a reference has room for one. */
  ghost predicate CellRoomy(c: Column) {
    Fixed(c.kind) || c.size >= 4
  }

  /** One cell of one row's bytes. Reading the four bytes of a reference from a narrower cell panics. */
  method CellAt(pages: seq<Allocs>, subs: seq<(nat, Bytes)>, row: Bytes, b1: nat, col: Column, ghost v: Option<Bytes>)
    returns (r: Result<(nat, Bytes)>)
    requires col.offset + col.size <= |row|
    ensures r.Ok? ==> CellRoomy(col)
    ensures CellHolds(pages, subs, row, b1, col, v) ==> (r.Ok? <==> v.Some?)
    ensures CellHolds(pages, subs, row, b1, col, v) && r.Ok? ==> r.value == (col.kind, Seen(col, v).value)
  {
    hide Stored, Long, Fit, Bit;
    if !CebHas(row, b1, col.bit) {
      return Err(InvalidArg);
    }
    var cell := row[col.offset..col.offset + col.size];
    if Fixed(col.kind) {
      return Ok((col.kind, cell));
    }
    if |cell| < 4 {
      return Err(InvariantBroken);
    }
    LongSlice(row, col.offset, col.size);
    var hnid := Long(cell, 0);
    if col.kind == OBJECT {
      if IsHID(hnid) || hnid % 32 != LTP_TYPE {
        return Err(InvariantBroken);
      }
    }
    var data := Stored(pages, subs, hnid);
    if data.None? {
      return Err(InvalidArg);
    }
    return Ok((col.kind, data.value));
  }

  /** No column with this property can be read: there is none, or its cell is too narrow for the reference it should
      hold. */
  ghost predicate Unreadable(cols: seq<Column>, prop: nat) {
    forall j | 0 <= j < |cols| && cols[j].id == prop :: !CellRoomy(cols[j])
  }

  /** Get: the value set in the row, cut or padded to a fixed cell; an error for an absent cell, column or row, and for
      every cell too narrow for its reference. */
  method Get(pages: seq<Allocs>, subs: seq<(nat, Bytes)>, v: TCView, id: nat, prop: nat,
             ghost root: nat, ghost cols: seq<Column>, ghost b: Bounds, ghost rows: seq<Row>, ghost c: Commit)
    returns (r: Result<(nat, Bytes)>, ghost k: nat)
    requires id < Blocks.U32 && Live(pages, subs, root, cols, b, rows, c, v)
    ensures HasRow(rows, id) ==> IsRow(rows, id, k)
    ensures HasRow(rows, id) && AllRows(pages, subs, c.raws, b, cols, rows) ==> Got(cols, rows[k], prop, r)
    ensures !HasRow(rows, id) || Unreadable(cols, prop) ==> r.Err?
  {
    hide Live, Got, CellHolds, CellOf, AllRows, Unreadable, CellRoomy;
    var row;
    row, k := RowBytes(pages, v, id, subs, root, cols, b, rows, c);
    if row.Err? {
      return Err(row.error), k;
    }
    LiveColumns(pages, subs, root, cols, b, rows, c, v);
    LiveRaw(pages, subs, root, cols, b, rows, c, v, k);
    var j := FindView(v.info.cols, prop);
    if j == |v.info.cols| {
      NoColumn(cols, c.sorted, rows[k], prop);
      return Err(InvalidArg), k;
    }
    SortedColumn(pages, subs, root, cols, b, rows, c, v, j);
    r := CellAt(pages, subs, row.value, v.info.bounds.b1, v.info.cols[j], CellOf(rows[k], c.sorted[j]));
    if r.Ok? {
      Readable(cols, c.sorted[j], prop);
    }
    if AllRows(pages, subs, c.raws, b, cols, rows) {
      SortedHolds(pages, subs, root, cols, b, rows, c, v, k, j);
      OnlyColumn(cols, b, c.sorted[j], rows[k], prop, r);
    }
  }

  lemma Readable(cols: seq<Column>, col: Column, prop: nat)
    requires col in cols && col.id == prop && CellRoomy(col)
    ensures !Unreadable(cols, prop)
  {
    hide CellRoomy;
  }

  lemma LiveRaw(pages: seq<Allocs>, subs: seq<(nat, Bytes)>, root: nat, cols: seq<Column>, b: Bounds, rows: seq<Row>,
                c: Commit, v: TCView, k: nat)
    requires Live(pages, subs, root, cols, b, rows, c, v) && k < |rows|
    ensures |c.raws| == |rows| && |c.raws[k]| == b.bm
  {
    hide LaidOut, IdsDiffer, Typed, Stored, AllRows, IndexBuilt, MatrixStored, TagsRise, InfoBytes;
  }

  lemma LiveColumns(pages: seq<Allocs>, subs: seq<(nat, Bytes)>, root: nat, cols: seq<Column>, b: Bounds,
                    rows: seq<Row>, c: Commit, v: TCView)
    requires Live(pages, subs, root, cols, b, rows, c, v)
    ensures v.info.cols == c.sorted && v.info.bounds == b && multiset(c.sorted) == multiset(cols) && Planned(cols, b)
  {
    hide LaidOut, IdsDiffer, Typed, Stored, AllRows, IndexBuilt, MatrixStored, TagsRise, InfoBytes;
  }

  lemma NoColumn(cols: seq<Column>, sorted: seq<Column>, row: Row, prop: nat)
    requires multiset(cols) == multiset(sorted) && forall i | 0 <= i < |sorted| :: sorted[i].id != prop
    ensures Got(cols, row, prop, Err(InvalidArg))
  {
    SameElements(cols, sorted);
    forall j | 0 <= j < |cols|
      ensures cols[j].id != prop
    {
      assert cols[j] in sorted;
    }
  }

  lemma OnlyColumn(cols: seq<Column>, b: Bounds, col: Column, row: Row, prop: nat, r: Result<(nat, Bytes)>)
    requires Planned(cols, b) && col in cols && col.id == prop
    requires r.Ok? <==> CellOf(row, col).Some?
    requires r.Ok? ==> r.value == (col.kind, Seen(col, CellOf(row, col)).value)
    ensures Got(cols, row, prop, r)
  {
    hide LaidOut, Typed, CellOf, Seen;
    var k :| 0 <= k < |cols| && cols[k] == col;
    forall j | 0 <= j < |cols| && cols[j].id == prop
      ensures j == k
    {
      SameId(cols, j, k);
    }
  }

  /** Exists: whether the row has the cell. */
  method Exists(pages: seq<Allocs>, v: TCView, id: nat, prop: nat,
                ghost subs: seq<(nat, Bytes)>, ghost root: nat, ghost cols: seq<Column>, ghost b: Bounds,
                  ghost rows: seq<Row>, ghost c: Commit)
    returns (r: Result<bool>, ghost k: nat)
    requires id < Blocks.U32 && Whole(pages, subs, root, cols, b, rows, c, v)
    ensures r.Ok? ==>
      IsRow(rows, id, k) && exists j | 0 <= j < |cols| ::
      cols[j].id == prop && (r.value <==> CellOf(rows[k], cols[j]).Some?)
    ensures r.Err? ==> !HasRow(rows, id) || forall j | 0 <= j < |cols| :: cols[j].id != prop
  {
    hide Live, CellOf, Bit, Planned;
    var row;
    row, k := RowBytes(pages, v, id, subs, root, cols, b, rows, c);
    if row.Err? {
      return Err(row.error), k;
    }
    LiveColumns(pages, subs, root, cols, b, rows, c, v);
    SameElements(cols, c.sorted);
    var j := FindView(v.info.cols, prop);
    if j == |v.info.cols| {
      assert forall x | 0 <= x < |cols| :: cols[x] in c.sorted;
      return Err(InvalidArg), k;
    }
    SortedHolds(pages, subs, root, cols, b, rows, c, v, k, j);
    ghost var x :| 0 <= x < |cols| && cols[x] == c.sorted[j];
    assert cols[x].id == prop;
    return Ok(CebHas(row.value, v.info.bounds.b1, v.info.cols[j].bit)), k;
  }

  // ---------- row identifiers ----------

  lemma IntOfLong(v: nat)
    requires v < Blocks.U32
    ensures Int(LE32(v)) == v
  {
    var k := LE32(v);
    assert k[1..][1..] == k[2..] && k[2..][1..] == k[3..] && k[3..][1..] == [];
    assert Int(k[3..]) == k[3] as int && Int(k[2..]) == k[2] as int + 256 * (k[3] as int);
    assert Int(k[1..]) == k[1] as int + 256 * Int(k[2..]);
  }

  /** RowIDs: every row's identifier, once, in rising order. */
  method RowIDs(pages: seq<Allocs>, v: TCView,
                ghost subs: seq<(nat, Bytes)>, ghost root: nat, ghost cols: seq<Column>, ghost b: Bounds,
                  ghost rows: seq<Row>, ghost c: Commit)
    returns (ids: seq<nat>)
    requires Live(pages, subs, root, cols, b, rows, c, v)
    ensures |ids| == |rows| && forall i, j | 0 <= i < j < |ids| :: ids[i] < ids[j]
    ensures forall i | 0 <= i < |ids| :: HasRow(rows, ids[i])
    ensures forall k | 0 <= k < |rows| :: rows[k].id in ids
  {
    hide LaidOut, IdsDiffer, Typed, Flat, Stored, TagsRise, InfoBytes, AllRows, MatrixStored, Int, On, Pairs, LE32,
         Long;
    var ents := Entries(pages, v.bth, c.index, c.es, c.tree);
    SameLength(c.es, IndexPairs(rows));
    ids := [];
    for i := 0 to |ents.value|
      invariant |ids| == i && forall j | 0 <= j < i :: KeyIs(c.es[j], ids[j])
    {
      EntryKey(c.es, rows, i);
      ids := ids + [Long(ents.value[i].key, 0)];
    }
    KeysDone(c.es, rows, ids);
  }

  ghost predicate KeyIs(e: KV, id: nat) {
    id < Blocks.U32 && e.key == LE32(id)
  }

  lemma EntryKey(es: seq<KV>, rows: seq<Row>, i: nat)
    requires multiset(es) == multiset(IndexPairs(rows)) && RowsNumbered(rows) && i < |es|
    ensures |es[i].key| == 4 && KeyIs(es[i], Long(es[i].key, 0))
  {
    hide LE32, Long;
    var k := EntryOf(es, rows, es[i]);
    LongOf(rows[k].id);
  }

  lemma KeysDone(es: seq<KV>, rows: seq<Row>, ids: seq<nat>)
    requires multiset(es) == multiset(IndexPairs(rows)) && RowsNumbered(rows) && Ascending(es) && |ids| == |es|
    requires forall j | 0 <= j < |es| :: KeyIs(es[j], ids[j])
    ensures forall i, j | 0 <= i < j < |ids| :: ids[i] < ids[j]
    ensures forall i | 0 <= i < |ids| :: HasRow(rows, ids[i])
    ensures forall k | 0 <= k < |rows| :: rows[k].id in ids
  {
    hide LE32, Int;
    forall i, j | 0 <= i < j < |ids|
      ensures ids[i] < ids[j]
    {
      IntOfLong(ids[i]);
      IntOfLong(ids[j]);
      assert KeyIs(es[i], ids[i]) && KeyIs(es[j], ids[j]);
    }
    forall i | 0 <= i < |ids|
      ensures HasRow(rows, ids[i])
    {
      var k := EntryOf(es, rows, es[i]);
      assert KeyIs(es[i], ids[i]);
      SameLong(rows[k].id, ids[i]);
      assert IsRow(rows, ids[i], k);
    }
    forall k | 0 <= k < |rows|
      ensures rows[k].id in ids
    {
      RowEntry(es, rows, k);
      var i :| 0 <= i < |es| && es[i] == KV(LE32(rows[k].id), LE32(k));
      assert KeyIs(es[i], ids[i]);
      SameLong(rows[k].id, ids[i]);
    }
  }

  // ---------- loading for another edit ----------

  /** The cells of one row, as read back. */
  ghost predicate SeenCells(cols: seq<Column>, row: Row, cells: map<nat, Bytes>, n: nat) {
    && n <= |cols|
    && (forall j | 0 <= j < n && !Special(cols[j]) ::
          if CellOf(row, cols[j]).Some? then cols[j].id in cells &&
            Some(cells[cols[j].id]) == Seen(cols[j], CellOf(row, cols[j])) else cols[j].id !in cells)
    && forall p | p in cells :: exists j | 0 <= j < n :: cols[j].id == p && !Special(cols[j])
  }

  lemma SeenNone(cols: seq<Column>, row: Row)
    ensures SeenCells(cols, row, map[], 0)
  {
  }

  lemma SeenStep(cols: seq<Column>, row: Row, cells: map<nat, Bytes>, n: nat, data: Bytes)
    requires SeenCells(cols, row, cells, n) && n < |cols| && IdsDiffer(cols) && !Special(cols[n])
    requires Some(data) == Seen(cols[n], CellOf(row, cols[n])) && CellOf(row, cols[n]).Some?
    ensures SeenCells(cols, row, cells[cols[n].id := data], n + 1)
  {
    hide Seen, CellOf, Special;
    assert forall j | 0 <= j < n :: cols[j].id != cols[n].id;
  }

  lemma SeenSkip(cols: seq<Column>, row: Row, cells: map<nat, Bytes>, n: nat)
    requires SeenCells(cols, row, cells, n) && n < |cols| && IdsDiffer(cols) &&
      (Special(cols[n]) || CellOf(row, cols[n]) == None)
    ensures SeenCells(cols, row, cells, n + 1)
  {
    hide Seen, CellOf, Special;
    assert forall j | 0 <= j < n :: cols[j].id != cols[n].id;
  }

  /** Every cell in the row is of a column that can be read. */
  ghost predicate Legible(cols: seq<Column>, cells: map<nat, Bytes>) {
    forall p | p in cells :: !Unreadable(cols, p)
  }

  lemma LegibleMore(cols: seq<Column>, cells: map<nat, Bytes>, col: Column, data: Bytes)
    requires Legible(cols, cells) && col in cols && CellRoomy(col)
    ensures Legible(cols, cells[col.id := data])
  {
    Readable(cols, col, col.id);
    hide Unreadable;
  }

  /** The inner loop of Load. */
  method LoadCells(pages: seq<Allocs>, subs: seq<(nat, Bytes)>, v: TCView, row: Bytes, ghost k: nat,
                   ghost root: nat, ghost cols: seq<Column>, ghost b: Bounds, ghost rows: seq<Row>, ghost c: Commit)
    returns (r: Result<map<nat, Bytes>>)
    requires Live(pages, subs, root, cols, b, rows, c, v) && k < |rows| && |c.raws| == |rows| && row == c.raws[k] &&
      |row| == b.bm
    requires IdsDiffer(c.sorted)
    ensures AllRows(pages, subs, c.raws, b, cols, rows) ==> r.Ok? && SeenCells(c.sorted, rows[k], r.value, |c.sorted|)
    ensures r.Ok? ==> Legible(cols, r.value)
  {
    hide Live, AllRows, SeenCells, CellHolds, CellOf, Special, Seen, Bit, Legible, CellRoomy;
    LiveColumns(pages, subs, root, cols, b, rows, c, v);
    var cells: map<nat, Bytes> := map[];
    NoneLegible(cols);
    SeenNone(c.sorted, rows[k]);
    ghost var whole := AllRows(pages, subs, c.raws, b, cols, rows);
    for j := 0 to |v.info.cols|
      invariant whole ==> SeenCells(c.sorted, rows[k], cells, j)
      invariant Legible(cols, cells)
    {
      var col := v.info.cols[j];
      SortedColumn(pages, subs, root, cols, b, rows, c, v, j);
      if whole {
        SortedHolds(pages, subs, root, cols, b, rows, c, v, k, j);
        CellAbsent(pages, subs, row, b, col, CellOf(rows[k], col));
      }
      if IsRowId(col) || IsRowVer(col) || !CebHas(row, v.info.bounds.b1, col.bit) {
        if whole {
          SeenSkip(c.sorted, rows[k], cells, j);
        }
      } else {
        var got := CellAt(pages, subs, row, v.info.bounds.b1, col, CellOf(rows[k], col));
        if got.Err? {
          return Err(got.error);
        }
        if whole {
          SeenIs(col, CellOf(rows[k], col), got.value.1);
          SeenStep(c.sorted, rows[k], cells, j, got.value.1);
        }
        LegibleMore(cols, cells, col, got.value.1);
        cells := cells[col.id := got.value.1];
      }
    }
    return Ok(cells);
  }

  lemma NoneLegible(cols: seq<Column>)
    ensures Legible(cols, map[])
  {
  }

  lemma SeenIs(col: Column, v: Option<Bytes>, data: Bytes)
    requires v.Some? && data == Seen(col, v).value
    ensures Some(data) == Seen(col, v)
  {
    hide Fit;
  }

  lemma CellAbsent(pages: seq<Allocs>, subs: seq<(nat, Bytes)>, row: Bytes, b: Bounds, col: Column, v: Option<Bytes>)
    requires CellHolds(pages, subs, row, b.b1, col, v)
    ensures CebHas(row, b.b1, col.bit) <==> v.Some?
    ensures Special(col) <==> IsRowId(col) || IsRowVer(col)
  {
    hide CebHas, Stored, Long, Fit;
  }

  /** A row of the committed table, as loaded. */
  ghost predicate SeenRow(sorted: seq<Column>, row: Row, loaded: Row) {
    loaded.id == row.id && loaded.ver == row.ver && SeenCells(sorted, row, loaded.cells, |sorted|)
  }

  ghost predicate LoadedTo(sorted: seq<Column>, rows: seq<Row>, ids: seq<nat>, loaded: seq<Row>, byRow: map<nat, nat>,
                           n: nat) {
    && n == |loaded| <= |ids| && Indexed(loaded, byRow)
    && forall i | 0 <= i < n :: loaded[i].id == ids[i] && FromSome(sorted, rows, loaded[i])
  }

  ghost predicate FromSome(sorted: seq<Column>, rows: seq<Row>, loaded: Row) {
    exists k: nat :: IsRow(rows, loaded.id, k) && SeenRow(sorted, rows[k], loaded)
  }

  lemma LoadStep(sorted: seq<Column>, rows: seq<Row>, ids: seq<nat>, loaded: seq<Row>, byRow: map<nat, nat>, n: nat,
                 row: Row, k: nat)
    requires LoadedTo(sorted, rows, ids, loaded, byRow, n) && n < |ids| && row.id == ids[n] &&
      IsRow(rows, ids[n], k) && SeenRow(sorted, rows[k], row)
    requires RowsNumbered(rows) && forall i, j | 0 <= i < j < |ids| :: ids[i] < ids[j]
    ensures LoadedTo(sorted, rows, ids, loaded + [row], byRow[row.id := n], n + 1)
  {
    hide SeenCells;
    var more := loaded + [row];
    var index := byRow[row.id := n];
    assert FromSome(sorted, rows, row) by {
      assert IsRow(rows, row.id, k);
    }
    assert forall id | id in byRow :: loaded[byRow[id]].id == ids[byRow[id]] && ids[byRow[id]] < ids[n];
    assert row.id !in byRow;
    assert Indexed(more, index) by {
      assert forall i | 0 <= i < n :: more[i] == loaded[i] && loaded[i].id in byRow;
      hide SeenRow, FromSome, LoadedTo, IsRow;
    }
    hide SeenRow, FromSome, IsRow;
  }

  lemma LoadKnown(sorted: seq<Column>, rows: seq<Row>, ids: seq<nat>, loaded: seq<Row>, byRow: map<nat, nat>)
    requires LoadedTo(sorted, rows, ids, loaded, byRow, |ids|)
    ensures Known(loaded, sorted) && |loaded| == |ids| && Indexed(loaded, byRow)
  {
    hide Special, Seen, CellOf, Indexed;
    forall i, p | 0 <= i < |loaded| && p in loaded[i].cells
      ensures exists k | 0 <= k < |sorted| :: sorted[k].id == p && !Special(sorted[k])
    {
      assert FromSome(sorted, rows, loaded[i]);
      var k: nat :| IsRow(rows, loaded[i].id, k) && SeenRow(sorted, rows[k], loaded[i]);
    }
  }

  lemma SortedPlan(cols: seq<Column>, sorted: seq<Column>, b: Bounds)
    requires Planned(cols, b) && TagsRise(sorted) && multiset(sorted) == multiset(cols)
    ensures Planned(sorted, b)
  {
    LaidOutPermutes(cols, sorted, b);
    SameElements(sorted, cols);
    SameLength(sorted, cols);
    hide LaidOut, Tag, Fixed, WrongType;
    forall i | 0 <= i < |sorted|
      ensures sorted[i] in cols
    {
    }
    IdsSorted(cols, sorted);
  }

  lemma IdsSorted(cols: seq<Column>, sorted: seq<Column>)
    requires IdsDiffer(cols) && multiset(sorted) == multiset(cols)
    ensures IdsDiffer(sorted)
  {
    SameElements(sorted, cols);
    forall i, j | 0 <= i < j < |sorted|
      ensures sorted[i].id != sorted[j].id
    {
      assert sorted[i] in cols && sorted[j] in cols;
      var x :| 0 <= x < |cols| && cols[x] == sorted[i];
      var y :| 0 <= y < |cols| && cols[y] == sorted[j];
      if x == y {
        TwicePresent(sorted, i, j);
        IdOnce(cols, sorted[i]);
      } else if x < y {
        assert cols[x].id != cols[y].id;
      } else {
        assert cols[y].id != cols[x].id;
      }
    }
  }

  lemma {:induction false} IdOnce(cols: seq<Column>, c: Column)
    requires IdsDiffer(cols)
    ensures multiset(cols)[c] <= 1
  {
    if cols != [] {
      var n := |cols| - 1;
      IdOnce(cols[..n], c);
      assert cols == cols[..n] + [cols[n]];
    }
  }

  /** One row, read back. */
  method LoadRow(pages: seq<Allocs>, subs: seq<(nat, Bytes)>, v: TCView, id: nat,
                 ghost root: nat, ghost cols: seq<Column>, ghost b: Bounds, ghost rows: seq<Row>, ghost c: Commit)
    returns (r: Result<Row>, ghost k: nat)
    requires Live(pages, subs, root, cols, b, rows, c, v) && HasRow(rows, id)
    ensures IsRow(rows, id, k)
    ensures AllRows(pages, subs, c.raws, b, cols, rows) ==> r.Ok? && SeenRow(c.sorted, rows[k], r.value)
    ensures r.Ok? ==> r.value.id == id && Legible(cols, r.value.cells)
  {
    LiveSorted(pages, subs, root, cols, b, rows, c, v);
    hide Live, AllRows, SeenCells, RowsNumbered, TagsRise, Legible;
    RowInRange(rows, id);
    var row;
    row, k := RowBytes(pages, v, id, subs, root, cols, b, rows, c);
    LiveHead(pages, subs, root, cols, b, rows, c, v, k);
    if AllRows(pages, subs, c.raws, b, cols, rows) {
      LoadHead(pages, subs, root, cols, b, rows, c, v, k);
    }
    var cells := LoadCells(pages, subs, v, row.value, k, root, cols, b, rows, c);
    if cells.Err? {
      return Err(cells.error), k;
    }
    return Ok(Row(id, Long(row.value, 4), cells.value)), k;
  }

  /** The loaded rows stand in identifier order and hold cells of readable columns only. */
  ghost predicate Listing(cols: seq<Column>, ids: seq<nat>, loaded: seq<Row>, n: nat) {
    n == |loaded| <= |ids| && forall i | 0 <= i < n :: loaded[i].id == ids[i] && Legible(cols, loaded[i].cells)
  }

  lemma ListingMore(cols: seq<Column>, ids: seq<nat>, loaded: seq<Row>, n: nat, row: Row)
    requires Listing(cols, ids, loaded, n) && n < |ids| && row.id == ids[n] && Legible(cols, row.cells)
    ensures Listing(cols, ids, loaded + [row], n + 1)
  {
    hide Legible;
  }

  /** The outer loop of Load. */
  method LoadRows(pages: seq<Allocs>, subs: seq<(nat, Bytes)>, v: TCView, t: TC, ids: seq<nat>,
                  ghost root: nat, ghost cols: seq<Column>, ghost b: Bounds, ghost rows: seq<Row>, ghost c: Commit)
    returns (r: Result<()>)
    requires Live(pages, subs, root, cols, b, rows, c, v) && t.rows == [] && t.byRow == map[] &&
      0 < t.nextId < Blocks.U32
    requires (forall i | 0 <= i < |ids| :: HasRow(rows, ids[i])) && forall i, j | 0 <= i < j < |ids| :: ids[i] < ids[j]
    modifies t`rows, t`byRow, t`nextId
    ensures r.Ok? ==> Listing(cols, ids, t.rows, |ids|) && t.nextId < Blocks.U32
    ensures r.Ok? && (forall i | 0 <= i < |ids| :: ids[i] + 1 < Blocks.U32) ==> t.Above()
    ensures AllRows(pages, subs, c.raws, b, cols, rows) ==>
      r.Ok? && LoadedTo(c.sorted, rows, ids, t.rows, t.byRow, |ids|)
  {
    LiveSorted(pages, subs, root, cols, b, rows, c, v);
    hide Live, AllRows, LoadedTo, SeenRow, RowsNumbered, TagsRise, Listing, Legible, Beyond;
    LoadNone(c.sorted, rows, ids);
    NothingListed(cols, ids);
    NoneBeyond(ids, t.nextId);
    ghost var whole := AllRows(pages, subs, c.raws, b, cols, rows);
    for i := 0 to |ids|
      invariant whole ==> LoadedTo(c.sorted, rows, ids, t.rows, t.byRow, i)
      invariant Listing(cols, ids, t.rows, i) && |t.rows| == i && t.nextId < Blocks.U32
      invariant Beyond(ids, i, t.nextId)
    {
      var loaded;
      ghost var k;
      loaded, k := LoadRow(pages, subs, v, ids[i], root, cols, b, rows, c);
      if loaded.Err? {
        return Err(loaded.error);
      }
      if whole {
        LoadStep(c.sorted, rows, ids, t.rows, t.byRow, i, loaded.value, k);
      }
      ListingMore(cols, ids, t.rows, i, loaded.value);
      t.byRow := t.byRow[ids[i] := |t.rows|];
      t.rows := t.rows + [loaded.value];
      BeyondMore(ids, i, t.nextId);
      if ids[i] >= t.nextId {
        t.nextId := (ids[i] + 1) % Blocks.U32;
      }
    }
    ListedIds(cols, ids, t.rows, t.nextId);
    return Ok(());
  }

  /** The next identifier is above the first `n`, unless the largest of all is among them. */
  ghost predicate Beyond(ids: seq<nat>, n: nat, next: nat)
    requires n <= |ids|
  {
    (forall j | 0 <= j < |ids| :: ids[j] + 1 < Blocks.U32) ==> 0 < next && forall j | 0 <= j < n :: ids[j] < next
  }

  lemma NoneBeyond(ids: seq<nat>, next: nat)
    requires 0 < next
    ensures Beyond(ids, 0, next)
  {
  }

  lemma BeyondMore(ids: seq<nat>, n: nat, next: nat)
    requires n < |ids| && Beyond(ids, n, next)
    ensures Beyond(ids, n + 1, if ids[n] >= next then (ids[n] + 1) % Blocks.U32 else next)
  {
  }

  lemma ListedIds(cols: seq<Column>, ids: seq<nat>, loaded: seq<Row>, next: nat)
    requires Listing(cols, ids, loaded, |ids|) && Beyond(ids, |ids|, next)
    ensures (forall i | 0 <= i < |ids| :: ids[i] + 1 < Blocks.U32) ==>
      0 < next && forall i | 0 <= i < |loaded| :: loaded[i].id < next
  {
    hide Legible;
  }

  /** Load: the committed rows in identifier order, ready for another edit. When row bytes do not hold their cells, it
      may fail, or load cells of readable columns that are not what was set. */
  method Load(pages: seq<Allocs>, subs: seq<(nat, Bytes)>, v: TCView, heap: Heap,
              ghost root: nat, ghost cols: seq<Column>, ghost b: Bounds, ghost rows: seq<Row>, ghost c: Commit)
    returns (r: Result<TC>, ghost ids: seq<nat>)
    requires Live(pages, subs, root, cols, b, rows, c, v) && heap.sig == TC_SIG
    ensures |ids| == |rows| && (forall k | 0 <= k < |rows| :: rows[k].id in ids) && forall i | 0 <= i < |ids| ::
      HasRow(rows, ids[i])
    ensures r.Ok? ==> fresh(r.value) && r.value.heap == heap && r.value.cols == c.sorted && r.value.bounds == b
    ensures r.Ok? ==> Listing(cols, ids, r.value.rows, |rows|)
    ensures r.Ok? && (forall i | 0 <= i < |ids| :: ids[i] + 1 < Blocks.U32) ==> r.value.Above()
    ensures AllRows(pages, subs, c.raws, b, cols, rows) ==>
      r.Ok? && r.value.Valid() && LoadedTo(c.sorted, rows, ids, r.value.rows, r.value.byRow, |ids|)
  {
    LiveColumns(pages, subs, root, cols, b, rows, c, v);
    LiveSorted(pages, subs, root, cols, b, rows, c, v);
    hide Live, AllRows, Planned, Image, LoadedTo, Known, Indexed, RowsNumbered, TagsRise, Listing;
    SortedPlan(cols, c.sorted, b);
    var t := new TC(heap, v.info.cols, v.info.bounds);
    var all := RowIDs(pages, v, subs, root, cols, b, rows, c);
    ids := all;
    t.rows, t.byRow := [], map[];
    var done := LoadRows(pages, subs, v, t, all, root, cols, b, rows, c);
    if done.Err? {
      return Err(done.error), ids;
    }
    if AllRows(pages, subs, c.raws, b, cols, rows) {
      LoadKnown(c.sorted, rows, ids, t.rows, t.byRow);
    }
    return Ok(t), ids;
  }

  lemma NothingListed(cols: seq<Column>, ids: seq<nat>)
    ensures Listing(cols, ids, [], 0)
  {
  }

  lemma LoadNone(sorted: seq<Column>, rows: seq<Row>, ids: seq<nat>)
    ensures LoadedTo(sorted, rows, ids, [], map[], 0)
  {
  }

  lemma RowInRange(rows: seq<Row>, id: nat)
    requires RowsNumbered(rows) && HasRow(rows, id)
    ensures id < Blocks.U32
  {
  }

  lemma LiveSorted(pages: seq<Allocs>, subs: seq<(nat, Bytes)>, root: nat, cols: seq<Column>, b: Bounds,
                   rows: seq<Row>, c: Commit, v: TCView)
    requires Live(pages, subs, root, cols, b, rows, c, v)
    ensures TagsRise(c.sorted) && RowsNumbered(rows)
  {
    hide LaidOut, IdsDiffer, Typed, Stored, AllRows, IndexBuilt, MatrixStored, TagsRise, InfoBytes;
  }

  lemma LiveHead(pages: seq<Allocs>, subs: seq<(nat, Bytes)>, root: nat, cols: seq<Column>, b: Bounds, rows: seq<Row>,
                 c: Commit, v: TCView, k: nat)
    requires Live(pages, subs, root, cols, b, rows, c, v) && k < |rows|
    ensures |c.raws| == |rows| && |c.raws[k]| == b.bm >= 8 && IdsDiffer(c.sorted)
  {
    LiveRaw(pages, subs, root, cols, b, rows, c, v, k);
    RowFitsBlock(cols, b);
    IdsSorted(cols, c.sorted);
    hide LaidOut, IdsDiffer, Typed, Flat, Stored, TagsRise, InfoBytes, IndexBuilt, MatrixStored, AllRows;
  }

  lemma LoadHead(pages: seq<Allocs>, subs: seq<(nat, Bytes)>, root: nat, cols: seq<Column>, b: Bounds, rows: seq<Row>,
                 c: Commit, v: TCView, k: nat)
    requires Whole(pages, subs, root, cols, b, rows, c, v) && k < |rows|
    ensures |c.raws| == |rows| && |c.raws[k]| == b.bm >= 8 && Long(c.raws[k], 4) == rows[k].ver
    ensures IdsDiffer(c.sorted)
  {
    RowFitsBlock(cols, b);
    IdsSorted(cols, c.sorted);
    hide LaidOut, IdsDiffer, Typed, Flat, Stored, TagsRise, InfoBytes, IndexBuilt, MatrixStored, RowHolds, Long, CebHas;
    assert RowHolds(pages, subs, c.raws[k], b, cols, rows[k]);
    RowHead(pages, subs, c.raws[k], b, cols, rows[k]);
  }

  /** Values that fill their fixed cells exactly. */
  ghost predicate FullWidth(cols: seq<Column>, r: Row) {
    forall j | 0 <= j < |cols| && Fixed(cols[j].kind) && cols[j].id in r.cells :: |r.cells[cols[j].id]| == cols[j].size
  }

  /** With full-width fixed cells, loading gives back the very row. */
  lemma LoadedSame(sorted: seq<Column>, row: Row, loaded: Row)
    requires SeenRow(sorted, row, loaded) && FullWidth(sorted, row)
    requires forall p | p in row.cells :: exists k | 0 <= k < |sorted| :: sorted[k].id == p && !Special(sorted[k])
    ensures loaded == row
  {
    hide Special, Fit;
    forall p
      ensures p in loaded.cells <==> p in row.cells
      ensures p in row.cells ==> loaded.cells[p] == row.cells[p]
    {
      if p in row.cells {
        var j :| 0 <= j < |sorted| && sorted[j].id == p && !Special(sorted[j]);
        SeenValue(sorted[j], row);
      } else if p in loaded.cells {
        var j :| 0 <= j < |sorted| && sorted[j].id == p && !Special(sorted[j]);
        SeenValue(sorted[j], row);
      }
    }
  }

  lemma SeenValue(c: Column, row: Row)
    requires !Special(c)
    ensures CellOf(row, c) == if c.id in row.cells then Some(row.cells[c.id]) else None
    ensures c.id in row.cells && (Fixed(c.kind) ==> |row.cells[c.id]| == c.size) ==>
      Seen(c, CellOf(row, c)) == Some(row.cells[c.id])
  {
  }

  /** Load gives back the very table that was committed, when its fixed cells are full width. */
  lemma LoadedTableSame(sorted: seq<Column>, rows: seq<Row>, byRow: map<nat, nat>, ids: seq<nat>, loaded: seq<Row>,
                        index: map<nat, nat>)
    requires Indexed(rows, byRow) && Known(rows, sorted) && LoadedTo(sorted, rows, ids, loaded, index, |ids|)
    requires forall k | 0 <= k < |rows| :: rows[k].id in ids && FullWidth(sorted, rows[k])
    ensures Indexed(loaded, index) && TableOf(loaded, index) == TableOf(rows, byRow)
  {
    hide FullWidth, SeenRow, Special;
    forall i | 0 <= i < |loaded|
      ensures loaded[i].id in byRow && rows[byRow[loaded[i].id]] == loaded[i]
    {
      assert FromSome(sorted, rows, loaded[i]);
      var k: nat :| IsRow(rows, loaded[i].id, k) && SeenRow(sorted, rows[k], loaded[i]);
      hide LoadedTo;
      LoadedSame(sorted, rows[k], loaded[i]);
    }
    forall id | id in byRow
      ensures id in index
    {
      assert rows[byRow[id]].id in ids;
      var i :| 0 <= i < |ids| && ids[i] == id;
      assert loaded[i].id == ids[i];
    }
    hide FromSome;
  }

  // ---------- the round trip ----------

  lemma RowsAreNumbered(rows: seq<Row>, byRow: map<nat, nat>)
    requires Indexed(rows, byRow) && |rows| < Blocks.U32
    ensures RowsNumbered(rows)
  {
  }

  /** What committing a table, opening it and getting one cell can come to. `None` is a heap out of pages or
      subnodes. */
  ghost predicate Outcome(cols: seq<Column>, table: map<nat, Row>, id: nat, prop: nat,
                          r: Option<Result<(nat, Bytes)>>) {
    r.Some? ==>
      && (id !in table || Unreadable(cols, prop) ==> r.value.Err?)
      && (id in table && (forall x | x in table :: RowRoomy(cols, table[x])) ==> Got(cols, table[id], prop, r.value))
  }

  /** Commit, open and get, for every table, row identifier and property. */
  method CommitOpenGet(t: TC, id: nat, prop: nat) returns (r: Option<Result<(nat, Bytes)>>)
    requires t.Valid() && t.heap.Valid() && |t.rows| < Blocks.U32 && id < Blocks.U32
    modifies t.heap`pages, t.heap`subs, t.heap`nextSub, t.heap`root
    ensures t.Valid() && t.Table() == old(t.Table())
    ensures Outcome(t.cols, t.Table(), id, prop, r)
    ensures r.None? ==> |t.heap.pages| == MAX_PAGE_INDEX + 1 || t.heap.nextSub > MAX_SUBS
  {
    RowsAreNumbered(t.rows, t.byRow);
    RoomyTable(t.cols, t.rows, t.byRow);
    hide Planned, Known, Image, RowsNumbered, Got, Indexed, TableOf, AllRows, Unreadable, RowRoomy, RowsRoomy;
    var built;
    ghost var c;
    built, c := Build(t);
    if t.heap.nextSub > MAX_SUBS || |t.heap.pages| == MAX_PAGE_INDEX + 1 {
      return None;
    }
    if built.Err? {
      return Some(Err(InvariantBroken));
    }
    var got;
    ghost var k;
    got, k := OpenGet(t.heap.pages, t.heap.subs, t.heap.root, id, prop, t.cols, t.bounds, t.rows, c);
    TableAt(t.rows, t.byRow, id, k);
    return Some(got);
  }

  /** OpenTC, then Get. */
  method OpenGet(pages: seq<Allocs>, subs: seq<(nat, Bytes)>, root: nat, id: nat, prop: nat,
                 ghost cols: seq<Column>, ghost b: Bounds, ghost rows: seq<Row>, ghost c: Commit)
    returns (r: Result<(nat, Bytes)>, ghost k: nat)
    requires id < Blocks.U32 && Planned(cols, b) && RowsNumbered(rows) && Image(pages, subs, root, cols, b, rows, c)
    ensures HasRow(rows, id) && AllRows(pages, subs, c.raws, b, cols, rows) ==>
      IsRow(rows, id, k) && Got(cols, rows[k], prop, r)
    ensures !HasRow(rows, id) || Unreadable(cols, prop) ==> r.Err?
  {
    k := 0;
    hide Planned, Image, Opened, RowsNumbered, Got, AllRows, Unreadable;
    var v := OpenTC(pages, subs, root, cols, b, rows, c);
    if v.Err? {
      return Err(InvariantBroken), k;
    }
    assert Live(pages, subs, root, cols, b, rows, c, v.value);
    hide Live;
    r, k := Get(pages, subs, v.value, id, prop, root, cols, b, rows, c);
  }

  lemma RoomyTable(cols: seq<Column>, rows: seq<Row>, byRow: map<nat, nat>)
    requires Indexed(rows, byRow)
    ensures RowsRoomy(cols, rows) <==> forall x | x in TableOf(rows, byRow) :: RowRoomy(cols, TableOf(rows, byRow)[x])
  {
    hide RowRoomy;
    if forall x | x in TableOf(rows, byRow) :: RowRoomy(cols, TableOf(rows, byRow)[x]) {
      forall i | 0 <= i < |rows|
        ensures RowRoomy(cols, rows[i])
      {
        assert rows[i].id in TableOf(rows, byRow);
      }
    }
  }

  // ---------- exactly when tables round-trip ----------

  /** A table's cells all come back: every outcome of reading it is what was set. */
  ghost predicate RoundTrips(cols: seq<Column>, table: map<nat, Row>) {
    forall id, prop, r | id in table && Outcome(cols, table, id, prop, r) && r.Some? ::
      Got(cols, table[id], prop, r.value)
  }

  /** A value that was set and that no outcome of reading gives back. */
  ghost predicate Lost(cols: seq<Column>, table: map<nat, Row>, id: nat, prop: nat) {
    && id in table && (exists j | 0 <= j < |cols| :: cols[j].id == prop && CellOf(table[id], cols[j]).Some?)
    && forall r | Outcome(cols, table, id, prop, r) && r.Some? :: r.value.Err?
  }

  /** One table round-trips exactly when no present value needs a reference its cell has no room for; when one does, a
      value set is lost in every outcome. */
  lemma RoundTripsExactly(cols: seq<Column>, b: Bounds, table: map<nat, Row>)
    requires Planned(cols, b)
    ensures RoundTrips(cols, table) <==> forall x | x in table :: RowRoomy(cols, table[x])
    ensures !RoundTrips(cols, table) ==> exists id, prop :: Lost(cols, table, id, prop)
  {
    if x :| x in table && !RowRoomy(cols, table[x]) {
      var i :| 0 <= i < |cols| && CellOf(table[x], cols[i]).Some? && !Fixed(cols[i].kind) && cols[i].size < 4;
      NarrowUnreadable(cols, b, i);
      var r: Option<Result<(nat, Bytes)>> := Some(Err(InvariantBroken));
      hide Unreadable, CellOf, RowRoomy, LaidOut;
      assert Outcome(cols, table, x, cols[i].id, r);
      assert !Got(cols, table[x], cols[i].id, r.value);
      assert Lost(cols, table, x, cols[i].id);
    }
  }

  lemma NarrowUnreadable(cols: seq<Column>, b: Bounds, i: nat)
    requires Planned(cols, b) && i < |cols| && !CellRoomy(cols[i])
    ensures Unreadable(cols, cols[i].id)
  {
    hide LaidOut, Typed, CellRoomy;
    forall j | 0 <= j < |cols| && cols[j].id == cols[i].id
      ensures j == i
    {
      SameId(cols, i, j);
    }
  }

  /** Every table over some columns round-trips exactly when every cell for references has room for one: the caller
      checks the columns once. */
  lemma AllRoundTripExactly(cols: seq<Column>, b: Bounds)
    requires Planned(cols, b)
    ensures Roomy(cols) <==> forall table :: RoundTrips(cols, table)
    ensures !Roomy(cols) ==> exists table, id, prop :: Lost(cols, table, id, prop)
  {
    hide RoundTrips, LaidOut, CellOf, Lost;
    forall table: map<nat, Row>
      ensures Roomy(cols) ==> RoundTrips(cols, table)
    {
      RoundTripsExactly(cols, b, table);
      if Roomy(cols) {
        forall x | x in table
          ensures RowRoomy(cols, table[x])
        {
          RoomyRow(cols, table[x]);
        }
      }
    }
    if i :| 0 <= i < |cols| && !Fixed(cols[i].kind) && cols[i].size < 4 {
      var row := Row(1, 2, map[cols[i].id := []]);
      var table: map<nat, Row> := map[1 := row];
      OrdinaryCell(cols[i], row);
      RoundTripsExactly(cols, b, table);
      assert !RowRoomy(cols, table[1]);
    }
  }

  lemma OrdinaryCell(c: Column, row: Row)
    requires !Fixed(c.kind) && c.id in row.cells
    ensures CellOf(row, c) == Some(row.cells[c.id])
  {
  }

  /** A table of one row over a two-byte string column: the string is set, and every run loses it. */
  method NarrowTableFails(heap: Heap) returns (r: Option<Result<(nat, Bytes)>>)
    requires heap.Valid() && heap.sig == TC_SIG
    modifies heap`pages, heap`subs, heap`nextSub, heap`root
    ensures r.Some? ==> r.value.Err?
    ensures r.None? ==> |heap.pages| == MAX_PAGE_INDEX + 1 || heap.nextSub > MAX_SUBS
  {
    NarrowPlanned();
    hide Planned, CellRoomy;
    var t := new TC(heap, NARROW, BoundsOf(0, 0, 2, 0, 4));
    var added := t.AddID(1);
    var set_ := t.Set(1, 0x3001, [65, 0]);
    r := CommitOpenGet(t, 1, 0x3001);
  }

  lemma NarrowPlanned()
    ensures Planned(NARROW, BoundsOf(0, 0, 2, 0, 4)) && Unreadable(NARROW, 0x3001)
    ensures NARROW[2].id == 0x3001 && !Special(NARROW[2])
  {
    NarrowReference();
    hide LaidOut;
    assert |NARROW| == 4;
  }

  lemma TableAt(rows: seq<Row>, byRow: map<nat, nat>, id: nat, k: nat)
    requires Indexed(rows, byRow)
    ensures HasRow(rows, id) <==> id in TableOf(rows, byRow)
    ensures id in TableOf(rows, byRow) && IsRow(rows, id, k) ==> TableOf(rows, byRow)[id] == rows[k]
  {
    hide Indexed;
    RowById(rows, byRow, id, k);
  }

  lemma RowById(rows: seq<Row>, byRow: map<nat, nat>, id: nat, k: nat)
    requires Indexed(rows, byRow)
    ensures HasRow(rows, id) <==> id in byRow
    ensures id in byRow && IsRow(rows, id, k) ==> rows[byRow[id]] == rows[k]
  {
    if id in byRow {
      assert IsRow(rows, id, byRow[id]);
    }
  }
}
