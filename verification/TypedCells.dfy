/** Values of the integer types through a whole table: typed setters, default column sizes, commit, later calls, open
    and the typed getters (tc.go). */
module TypedCells {
  import opened Common
  import opened HeapOnNode
  import opened BTreeOnHeap
  import opened TableLayout
  import opened TableRows
  import opened TableContext
  import opened TableReader
  import opened TableStore
  import opened NodeDatabase
  import Runs = StoreRuns
  import Builder = DataTreeBuilder
  import Blocks

  /** NewTC: an empty table on an empty heap. */
  method NewTC(given: seq<Column>) returns (r: Result<TC>)
    requires forall i | 0 <= i < |given| :: given[i].kind < 0x10000 && given[i].id < 0x10000
    ensures r.Ok? <==> Acceptable(given)
    ensures r.Ok? ==> fresh(r.value) && fresh(r.value.heap) && r.value.Valid() && r.value.heap.Valid()
    ensures r.Ok? ==> AsGiven(given, r.value.cols) && r.value.Table() == map[] && r.value.rows == []
  {
    hide Planned, AsGiven, Acceptable;
    var plan := PlanColumns(given);
    if plan.Err? {
      return Err(plan.error);
    }
    var heap := new Heap(TC_SIG);
    var t := new TC(heap, plan.value.0, plan.value.1);
    return Ok(t);
  }

  // ---------- the typed getters, on what Get returns ----------

  function AsInt32(got: Result<(nat, Bytes)>): Result<int> {
    match got
    case Err(e) => Err(e)
    case Ok((kind, data)) =>
      if kind != INTEGER32 || |data| < 4 then Err(InvalidArg) else Ok(Signed(Int(data[..4]), 0x1_0000_0000))
  }

  function AsTime(got: Result<(nat, Bytes)>): Result<nat> {
    match got
    case Err(e) => Err(e)
    case Ok((kind, data)) => if kind != TIME || |data| < 8 then Err(InvalidArg) else Ok(Int(data[..8]))
  }

  function AsBool(got: Result<(nat, Bytes)>): Result<bool> {
    match got
    case Err(e) => Err(e)
    case Ok((kind, data)) =>
      if kind != BOOLEAN then Err(InvalidArg) else Ok(exists i | 0 <= i < |data| :: data[i] != 0)
  }

  // ---------- what default sizes keep ----------

  ghost predicate Defaults(given: seq<Column>) {
    forall i | 0 <= i < |given| :: given[i].size == 0
  }

  lemma DefaultWidths(given: seq<Column>, cols: seq<Column>)
    requires AsGiven(given, cols) && Defaults(given)
    ensures Roomy(cols) && forall i | 0 <= i < |cols| :: OfWidth(cols[i].kind, cols[i].size)
  {
    forall i | 0 <= i < |cols|
      ensures OfWidth(cols[i].kind, cols[i].size) && (!Fixed(cols[i].kind) ==> cols[i].size >= 4)
    {
    }
  }

  /** A value as wide as its type is neither cut nor padded. */
  lemma WholeCell(given: seq<Column>, cols: seq<Column>, b: Bounds, row: Row, j: nat, r: Result<(nat, Bytes)>)
    requires Planned(cols, b) && AsGiven(given, cols) && Defaults(given) && j < |given| && !Special(given[j])
    requires given[j].id in row.cells && InRow(given[j].kind) && OfWidth(given[j].kind, |row.cells[given[j].id]|)
    requires Got(cols, row, given[j].id, r)
    ensures r == Ok((given[j].kind, row.cells[given[j].id]))
  {
    DefaultWidths(given, cols);
    hide LaidOut, Typed, IdsDiffer, Fit;
    assert cols[j].id == given[j].id && cols[j].kind == given[j].kind && !Special(cols[j]);
  }

  /** And it stands in the row's bytes itself. */
  lemma InRowBytes(pages: seq<Allocs>, subs: seq<(nat, Bytes)>, row: Bytes, base: nat, c: Column, data: Bytes)
    requires CellHolds(pages, subs, row, base, c, Some(data)) && InRow(c.kind)
    requires OfWidth(c.kind, c.size) && OfWidth(c.kind, |data|)
    ensures c.offset + c.size <= |row| && row[c.offset..c.offset + c.size] == data && CebHas(row, base, c.bit)
  {
    hide Stored, Long, Bit;
  }

  lemma AllRoomy(cols: seq<Column>, table: map<nat, Row>)
    requires Roomy(cols)
    ensures forall x | x in table :: RowRoomy(cols, table[x])
  {
    forall x | x in table
      ensures RowRoomy(cols, table[x])
    {
      RoomyRow(cols, table[x]);
    }
  }

  /** Commit, any other calls, open and get: with default sizes a value of its type's own width comes back whole. */
  method CommitRunWhole(n: NDB, t: TC, nid: nat, ops: seq<Runs.Op>, id: nat, ghost given: seq<Column>, ghost j: nat,
                        prop: nat)
    returns (m: NDB, r: Option<Result<(nat, Bytes)>>, ghost rec: Record)
    requires Runs.Sound(n) && t.Valid() && t.heap.Valid() && |t.rows| < Blocks.U32 && nid !in Runs.Touched(ops)
    requires AsGiven(given, t.cols) && Defaults(given) && j < |given| && !Special(given[j]) && prop == given[j].id
    requires id < Blocks.U32 && id in t.Table() && prop in t.Table()[id].cells && InRow(given[j].kind)
    requires OfWidth(given[j].kind, |t.Table()[id].cells[prop]|)
    modifies n, n.store, t.heap`pages, t.heap`subs, t.heap`nextSub, t.heap`root
    ensures Runs.Sound(m) && t.Valid() && t.Table() == old(t.Table())
    ensures r.Some? ==> r.value == Ok((given[j].kind, t.Table()[id].cells[prop]))
    ensures r.None? ==> Hindered(nid, old(n.nextBlock), t.heap, rec.c.matrix, t.cols, t.bounds, t.rows)
  {
    hide Runs.Sound, Planned, Known, Indexed, TableOf, Hindered, Prepared, AsGiven, OfWidth, Got, Unreadable, RowRoomy,
         Runs.Touched,
         Roomy;
    ghost var row := t.Table()[id];
    m, r, rec := CommitRunGet(n, t, nid, ops, id, prop);
    if r.Some? {
      DefaultWidths(given, t.cols);
      AllRoomy(t.cols, t.Table());
      WholeCell(given, t.cols, t.bounds, row, j, r.value);
    }
  }

  // ---------- type by type ----------

  datatype Value = Int32(v: int) | Int64(v: int) | Bool(b: bool) | Time(t: nat)

  predicate InRange(x: Value) {
    match x
    case Int32(v) => -0x8000_0000 <= v < 0x8000_0000
    case Int64(v) => -0x8000_0000_0000_0000 <= v < 0x8000_0000_0000_0000
    case Bool(_) => true
    case Time(t) => t < Blocks.U64
  }

  function KindOf(x: Value): nat {
    match x
    case Int32(_) => INTEGER32
    case Int64(_) => INTEGER64
    case Bool(_) => BOOLEAN
    case Time(_) => TIME
  }

  method SetTyped(t: TC, id: nat, prop: nat, x: Value) returns (r: Result<()>)
    requires t.Valid() && InRange(x)
    modifies t`rows
    ensures t.Valid() && |t.rows| == |old(t.rows)| && WroteCell(old(t.Table()), t.Table(), t.cols, id, prop, r)
    ensures r.Ok? ==>
      Says(x, Ok((KindOf(x), t.Table()[id].cells[prop]))) && OfWidth(KindOf(x), |t.Table()[id].cells[prop]|)
  {
    hide Planned, Indexed, Known, TableOf, Int, Signed, WroteCell, Says, OfWidth;
    match x {
      case Int32(v) => r := t.SetInt32(id, prop, v);
      case Int64(v) => r := t.SetInt64(id, prop, v);
      case Bool(b) => r := t.SetBool(id, prop, b);
      case Time(f) => r := t.SetTime(id, prop, f);
    }
    if r.Ok? {
      WroteHas(old(t.Table()), t.Table(), t.cols, id, prop, r);
      BytesSay(x, t.Table()[id].cells[prop]);
    }
  }

  ghost predicate Encodes(x: Value, data: Bytes) {
    match x
    case Int32(v) => |data| == 4 && Signed(Int(data), 0x1_0000_0000) == v
    case Int64(v) => |data| == 8 && Signed(Int(data), 0x1_0000_0000_0000_0000) == v
    case Bool(b) => data == [if b then 1 else 0]
    case Time(f) => |data| == 8 && Int(data) == f
  }

  lemma BytesSay(x: Value, data: Bytes)
    requires Encodes(x, data)
    ensures Says(x, Ok((KindOf(x), data))) && OfWidth(KindOf(x), |data|)
  {
    hide Int, Signed;
    match x
    case Int32(v) => assert data[..4] == data;
    case Time(f) => assert data[..8] == data;
    case Bool(b) => assert (exists i | 0 <= i < |data| :: data[i] != 0) <==> data[0] != 0;
    case Int64(_) =>
  }

  lemma WroteHas(was: map<nat, Row>, now: map<nat, Row>, cols: seq<Column>, id: nat, prop: nat, r: Result<()>)
    requires WroteCell(was, now, cols, id, prop, r) && r.Ok?
    ensures id in now && prop in now[id].cells
  {
  }

  /** The typed getter gives the value back; there is none for 64-bit integers, whose bytes say it. */
  ghost predicate Says(x: Value, got: Result<(nat, Bytes)>) {
    match x
    case Int32(v) => AsInt32(got) == Ok(v)
    case Int64(v) =>
      got.Ok? && |got.value.1| == 8 && Signed(Int(got.value.1), 0x1_0000_0000_0000_0000) == v
    case Bool(b) => AsBool(got) == Ok(b)
    case Time(f) => AsTime(got) == Ok(f)
  }

  /** A typed value set in a column of its type and default size is what the typed getter finds after a commit and any
      other calls. */
  method TypedRun(n: NDB, t: TC, given: seq<Column>, j: nat, x: Value, id: nat, nid: nat, ops: seq<Runs.Op>)
    returns (m: NDB, set_: Result<()>, r: Option<Result<(nat, Bytes)>>)
    requires Runs.Sound(n) && t.Valid() && t.heap.Valid() && |t.rows| < Blocks.U32 && nid !in Runs.Touched(ops)
    requires AsGiven(given, t.cols) && Defaults(given) && j < |given| && !Special(given[j])
    requires given[j].kind == KindOf(x) && InRange(x) && id < Blocks.U32
    modifies n, n.store, t`rows, t.heap`pages, t.heap`subs, t.heap`nextSub, t.heap`root
    ensures Runs.Sound(m) && t.Valid()
    ensures set_.Ok? <==> id in old(t.Table())
    ensures set_.Ok? && r.Some? ==> Says(x, r.value)
    ensures set_.Ok? && r.None? ==>
      exists matrix :: Hindered(nid, old(n.nextBlock), t.heap, matrix, t.cols, t.bounds, t.rows)
  {
    hide Runs.Sound, Planned, Known, Indexed, TableOf, Hindered, OfWidth, Runs.Touched, Says, Int, Signed;
    m, r := n, None;
    set_ := SetTyped(t, id, given[j].id, x);
    assert t.cols[j].id == given[j].id && !Special(t.cols[j]);
    if set_.Ok? {
      ghost var rec;
      m, r, rec := CommitRunWhole(n, t, nid, ops, id, given, j, given[j].id);
    }
  }
}
