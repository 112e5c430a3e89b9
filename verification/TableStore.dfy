/** A Table Context through the whole store: committed to a node, left alone by any later run, opened and read (tc.go,
    heap.go, heap_read.go). */
module TableStore {
  import opened Common
  import opened Catalog
  import opened NodeDatabase
  import opened PayloadShapes
  import opened NodeContents
  import opened HeapStore
  import opened HeapOnNode
  import opened BTreeOnHeap
  import opened TableLayout
  import opened TableInfo
  import opened TableRows
  import opened TableContext
  import opened TableCommit
  import opened TableReader
  import Runs = StoreRuns
  import Builder = DataTreeBuilder
  import Blocks
  import Geometry

  type Subs = seq<(nat, Bytes)>
  type Found = seq<(nat, seq<Bytes>)>

  // ---------- what a node with a table holds ----------

  /** A committed table: what was built, how it was encoded, and what its node holds. */
  datatype Record = Record(cols: seq<Column>, b: Bounds, rows: seq<Row>, c: Commit, pages: seq<Allocs>, subs: Subs,
                           root: nat,
                           raws: seq<Bytes>, extra: seq<Bytes>, found: Found)

  function RowsCut(b: Bounds): nat {
    RowsPerBlock(b.bm) * b.bm
  }

  /** A blocked matrix is cut into leaves of whole rows. */
  function CutsFor(matrix: nat, b: Bounds): map<nat, nat> {
    if matrix != 0 && !IsHID(matrix) then map[matrix := RowsCut(b)] else map[]
  }

  ghost predicate Rising2(subs: Subs) {
    forall i, j | 0 <= i < j < |subs| :: subs[i].0 < subs[j].0
  }

  ghost predicate PagesFit(pages: seq<Allocs>) {
    forall i | 0 <= i < |pages| :: PageFits(i, pages[i])
  }

  /** A table built on a heap, ready to be encoded. */
  ghost predicate Prepared(pages: seq<Allocs>, subs: Subs, root: nat, cols: seq<Column>, b: Bounds, rows: seq<Row>,
                           c: Commit) {
    && Planned(cols, b) && RowsNumbered(rows) && Image(pages, subs, root, cols, b, rows, c)
    && (RowsRoomy(cols, rows) ==> AllRows(pages, subs, c.raws, b, cols, rows))
    && root < Blocks.U32 && pages != [] && PagesFit(pages) && Rising2(subs)
  }

  ghost predicate Recorded(t: Record) {
    && Prepared(t.pages, t.subs, t.root, t.cols, t.b, t.rows, t.c)
    && Encoded(t.raws, t.extra, TC_SIG, t.root, t.pages) && AllLeaved(t.found, t.subs, CutsFor(t.c.matrix, t.b))
  }

  /** Node `nid` holds the table. */
  ghost predicate Holding(w: World, nid: nat, t: Record) {
    Recorded(t) && NodeHolds(w, nid, t.raws, t.found)
  }

  // ---------- committing ----------

  lemma CutSize(rowSize: nat)
    requires 0 < rowSize <= Geometry.MAX_DATA_CB
    ensures 0 < RowsPerBlock(rowSize) * rowSize <= Geometry.MAX_DATA_CB
  {
    var rpb := Geometry.MAX_DATA_CB / rowSize;
    assert rpb >= 1 && rpb * rowSize <= Geometry.MAX_DATA_CB;
    TableCommit.Ordered(1, rpb, rowSize);
  }

  lemma CutFits(cols: seq<Column>, b: Bounds, matrix: nat)
    requires Planned(cols, b)
    ensures forall k | k in CutsFor(matrix, b) :: 0 < CutsFor(matrix, b)[k] <= Geometry.MAX_DATA_CB
  {
    RowFitsBlock(cols, b);
    hide LaidOut, IdsDiffer, RowsPerBlock, Planned;
    CutSize(b.bm);
  }

  lemma RisingSubs(subs: Subs, next: nat)
    requires SubsIssued(subs, next)
    ensures Rising2(subs)
  {
  }

  /** Some page was needed: the row index is in the heap. */
  lemma PagesUsed(pages: seq<Allocs>, subs: Subs, root: nat, cols: seq<Column>, b: Bounds, rows: seq<Row>, c: Commit)
    requires Image(pages, subs, root, cols, b, rows, c)
    ensures pages != []
  {
    hide Ascending, Sized, Wide, MatrixStored, InfoBytes, TagsRise;
  }

  lemma HeapFits(h: Heap)
    requires h.Valid()
    ensures PagesFit(h.pages) && Rising2(h.subs)
  {
    hide PageFits;
    RisingSubs(h.subs, h.nextSub);
  }

  /** build, up to the subnode counter's width. */
  method Prepare(t: TC) returns (r: Option<nat>, ghost c: Commit)
    requires t.Valid() && t.heap.Valid() && |t.rows| < Blocks.U32
    modifies t.heap`pages, t.heap`subs, t.heap`nextSub, t.heap`root
    ensures t.Valid() && t.heap.Valid() && t.Table() == old(t.Table())
    ensures r.None? ==> t.heap.nextSub > MAX_SUBS || |t.heap.pages| == MAX_PAGE_INDEX + 1 || !RowsRoomy(t.cols, t.rows)
    ensures r.Some? ==>
      r.value == c.matrix && Prepared(t.heap.pages, t.heap.subs, t.heap.root, t.cols, t.bounds, t.rows, c)
  {
    RowsAreNumbered(t.rows, t.byRow);
    hide LaidOut, IdsDiffer, Known, Image, RowsNumbered, Indexed, TableOf, AllRows, RowsRoomy, SubsIssued, PagesFit,
         Rising2, PageFits;
    var built;
    built, c := Build(t);
    if built.Err? || t.heap.nextSub > MAX_SUBS {
      return None, c;
    }
    PagesUsed(t.heap.pages, t.heap.subs, t.heap.root, t.cols, t.bounds, t.rows, c);
    HeapFits(t.heap);
    return Some(built.value), c;
  }

  lemma PagesSome(pages: seq<Allocs>, subs: Subs, root: nat, cols: seq<Column>, b: Bounds, rows: seq<Row>, c: Commit)
    requires Prepared(pages, subs, root, cols, b, rows, c)
    ensures pages != []
  {
    hide Planned, RowsNumbered, Image, AllRows, RowsRoomy, PagesFit;
  }

  /** What a commit of a table can fail on: the node's identifier, a heap out of pages or subnodes, a narrow reference
      cell, or too little room for its values and blocks. */
  ghost predicate Hindered(nid: nat, next: nat, h: Heap, matrix: nat, cols: seq<Column>, b: Bounds, rows: seq<Row>)
    reads h
  {
    || nid == 0 || nid >= Blocks.U32 || IsHID(nid)
    || h.nextSub > MAX_SUBS || |h.pages| == MAX_PAGE_INDEX + 1 || !RowsRoomy(cols, rows)
    || !Storable(h.subs, CutsFor(matrix, b)) ||
       next + 4 * HeapBlocks(|h.pages|, h.subs, CutsFor(matrix, b)) >= Blocks.U64
  }

  /** TC.Commit: the table is built, then its heap is committed, all or nothing. */
  method CommitTable(n: NDB, t: TC, nid: nat) returns (ok: bool, ghost rec: Record)
    requires n.Valid() && Shapely(n.W()) && t.Valid() && t.heap.Valid() && |t.rows| < Blocks.U32
    modifies n, n.store, t.heap`pages, t.heap`subs, t.heap`nextSub, t.heap`root
    ensures n.Valid() && Shapely(n.W()) && n.store.bidNextP == old(n.store.bidNextP) && t.Valid() &&
      t.Table() == old(t.Table())
    ensures old(StripDistinct(n.blocks)) ==> StripDistinct(n.blocks)
    ensures !ok ==> Builder.Capture(n) == old(Builder.Capture(n))
    ensures !ok ==> Hindered(nid, old(n.nextBlock), t.heap, rec.c.matrix, t.cols, t.bounds, t.rows)
    ensures !ok && rec.c.matrix != 0 ==>
      Prepared(t.heap.pages, t.heap.subs, t.heap.root, t.cols, t.bounds, t.rows, rec.c)
    ensures ok ==> Holding(n.W(), nid, rec) && rec.cols == t.cols && rec.b == t.bounds && rec.rows == t.rows
    ensures ok ==> Undisturbed(old(n.W()), n.W(), {nid})
  {
    hide Known, Prepared, Indexed, TableOf, Shapely, NodeHolds, Undisturbed, Encoded, AllLeaved, Holds, SubsIssued,
         PageFits, CutsFor, RowsRoomy, Storable, HeapBlocks, StripDistinct;
    rec := Record([], t.bounds, [], Commit([], [], 0, 0, [], Leaf(0, []), 0), [], [], 0, [], [], []);
    if nid == 0 || IsHID(nid) {
      return false, rec;
    }
    var matrix;
    ghost var c;
    matrix, c := Prepare(t);
    if matrix.None? {
      return false, rec;
    }
    CutFits(t.cols, t.bounds, matrix.value);
    PagesSome(t.heap.pages, t.heap.subs, t.heap.root, t.cols, t.bounds, t.rows, c);
    hide Planned;
    var r;
    ghost var raws, extra, found;
    r, raws, extra, found := CommitHeap(n, t.heap, nid, CutsFor(matrix.value, t.bounds));
    ok := r.Ok?;
    rec := Record(t.cols, t.bounds, t.rows, c, t.heap.pages, t.heap.subs, t.heap.root, raws, extra, found);
  }

  // ---------- the leaves of a blocked matrix ----------

  ghost predicate WholeRows(leaves: seq<Bytes>, rowSize: nat)
    requires rowSize > 0
  {
    forall leaf | leaf in leaves :: |leaf| % rowSize == 0 && |leaf| / rowSize <= RowsPerBlock(rowSize)
  }

  lemma {:induction false} PiecesWhole(data: Bytes, rows: nat, rowSize: nat)
    requires 0 < rowSize <= Geometry.MAX_DATA_CB && |data| == rows * rowSize && RowsPerBlock(rowSize) * rowSize > 0
    ensures WholeRows(Pieces(data, RowsPerBlock(rowSize) * rowSize), rowSize)
  {
    hide RowsPerBlock;
    if data != [] {
      var rpb := RowsPerBlock(rowSize);
      var cut := rpb * rowSize;
      var q := (|data| - 1) / cut;
      var k := LastPiece(|data|, cut);
      assert k == q * cut == q * rpb * rowSize by {
        Associate(q, rpb, rowSize);
      }
      PiecesWhole(data[..k], q * rpb, rowSize);
      LeavesHoldWholeRows(rows, rowSize, q);
    }
  }

  /** inspectMatrixLeaves. */
  method InspectMatrixLeaves(found: Found, matrix: nat, rowSize: nat) returns (ok: bool)
    requires rowSize > 0
    ensures ok <==> (exists i :: 0 <= i < |found| && found[i].0 == matrix)
                    && forall i | 0 <= i < |found| && found[i].0 == matrix :: WholeRows(found[i].1, rowSize)
  {
    hide WholeRows;
    var any := false;
    for i := 0 to |found|
      invariant any <==> exists j :: 0 <= j < i && found[j].0 == matrix
      invariant forall j | 0 <= j < i && found[j].0 == matrix :: WholeRows(found[j].1, rowSize)
    {
      if found[i].0 == matrix {
        any := true;
        var whole := InspectLeaves(found[i].1, rowSize);
        if !whole {
          return false;
        }
      }
    }
    return any;
  }

  method InspectLeaves(leaves: seq<Bytes>, rowSize: nat) returns (ok: bool)
    requires rowSize > 0
    ensures ok <==> WholeRows(leaves, rowSize)
  {
    for i := 0 to |leaves|
      invariant forall j | 0 <= j < i :: |leaves[j]| % rowSize == 0 && |leaves[j]| / rowSize <= RowsPerBlock(rowSize)
    {
      assert leaves[i] in leaves;
      if |leaves[i]| % rowSize != 0 || |leaves[i]| / rowSize > RowsPerBlock(rowSize) {
        return false;
      }
    }
    return true;
  }

  lemma {:induction false} NamedOnce(subs: Subs, i: nat)
    requires Rising2(subs) && i < |subs|
    ensures SubNamed(subs, subs[i].0) == Some(subs[i].1)
  {
    var last := |subs| - 1;
    if i < last {
      assert subs[i].0 < subs[last].0;
      NamedOnce(subs[..last], i);
    }
  }

  lemma {:induction false} NamedSomewhere(subs: Subs, nid: nat)
    requires SubNamed(subs, nid).Some?
    ensures exists i :: 0 <= i < |subs| && subs[i].0 == nid
  {
    var last := |subs| - 1;
    if subs[last].0 != nid {
      NamedSomewhere(subs[..last], nid);
      var i :| 0 <= i < last && subs[..last][i].0 == nid;
      assert subs[i].0 == nid;
    }
  }

  /** A blocked matrix as its facts: a stored run of whole rows. */
  lemma BlockedMatrix(t: Record)
    requires Recorded(t) && t.c.matrix != 0 && !IsHID(t.c.matrix)
    ensures SubNamed(t.subs, t.c.matrix) == Some(Flat(t.c.raws)) && |Flat(t.c.raws)| == |t.rows| * t.b.bm &&
      Rising2(t.subs)
    ensures 0 < t.b.bm <= Geometry.MAX_DATA_CB && 0 < RowsCut(t.b) &&
      AllLeaved(t.found, t.subs, CutsFor(t.c.matrix, t.b))
  {
    RowFitsBlock(t.cols, t.b);
    FlatRows(t.c.raws, t.b.bm);
    hide LaidOut, IdsDiffer, Typed, Flat, Named, SubNamed, TagsRise, InfoBytes, AllRows, IndexBuilt, Wide, RowsRoomy,
         AllLeaved, Encoded, RowsPerBlock, PagesFit;
    CutSize(t.b.bm);
  }

  /** The real leaves of a committed matrix pass the inspection. */
  lemma LeavesPass(t: Record)
    requires Recorded(t) && t.c.matrix != 0 && !IsHID(t.c.matrix)
    ensures t.b.bm > 0 && exists i :: 0 <= i < |t.found| && t.found[i].0 == t.c.matrix
    ensures forall i | 0 <= i < |t.found| && t.found[i].0 == t.c.matrix :: WholeRows(t.found[i].1, t.b.bm)
  {
    hide Recorded, Flat, SubNamed, WholeRows, RowsPerBlock;
    BlockedMatrix(t);
    NamedSomewhere(t.subs, t.c.matrix);
    var m :| 0 <= m < |t.subs| && t.subs[m].0 == t.c.matrix;
    assert t.found[m].0 == t.c.matrix;
    forall i | 0 <= i < |t.found| && t.found[i].0 == t.c.matrix
      ensures WholeRows(t.found[i].1, t.b.bm)
    {
      NamedOnce(t.subs, i);
      hide Pieces;
      PiecesWhole(Flat(t.c.raws), |t.rows|, t.b.bm);
    }
  }

  // ---------- opening ----------

  function Joined(found: Found): Subs {
    seq(|found|, i requires 0 <= i < |found| => (found[i].0, Flat(found[i].1)))
  }

  lemma JoinedBack(found: Found, subs: Subs, cuts: map<nat, nat>)
    requires AllLeaved(found, subs, cuts)
    ensures Joined(found) == subs
  {
    hide Flat, Pieces, CutOf;
  }

  lemma RecordedHeap(t: Record)
    requires Recorded(t)
    ensures Encoded(t.raws, t.extra, TC_SIG, t.root, t.pages) && t.pages != [] && t.root < Blocks.U32 &&
      PagesFit(t.pages)
    ensures AllLeaved(t.found, t.subs, CutsFor(t.c.matrix, t.b))
  {
    hide Planned, RowsNumbered, Image, AllRows, RowsRoomy, PagesFit, Encoded, AllLeaved;
  }

  lemma RecordedTable(t: Record)
    requires Recorded(t)
    ensures Planned(t.cols, t.b) && RowsNumbered(t.rows) && Image(t.pages, t.subs, t.root, t.cols, t.b, t.rows, t.c)
    ensures RowsRoomy(t.cols, t.rows) ==> AllRows(t.pages, t.subs, t.c.raws, t.b, t.cols, t.rows)
  {
    hide Planned, RowsNumbered, Image, AllRows, RowsRoomy, PagesFit, Encoded, AllLeaved;
  }

  /** OpenHeap on the node: pages inspected, allocations and large values as they were written. */
  method OpenNodeHeap(n: NDB, nid: nat, ghost t: Record) returns (r: Result<(seq<Allocs>, Found, byte, nat)>)
    requires n.Valid() && Holding(n.W(), nid, t)
    ensures r == Ok((t.pages, t.found, TC_SIG, t.root)) && Joined(t.found) == t.subs
  {
    hide Recorded, NodeHolds, Holds, Encoded, AllLeaved, Parsed, FillsMatch, ViewOf, PageFits, CutsFor;
    RecordedHeap(t);
    JoinedBack(t.found, t.subs, CutsFor(t.c.matrix, t.b));
    var node := ReadNode(n, nid, t.raws, t.found);
    HeapReopens(t.raws, t.extra, TC_SIG, t.root, t.pages);
    EncodedCount(t.raws, t.extra, TC_SIG, t.root, t.pages);
    var hv := OpenHeap(node.value.0);
    FirstView(TC_SIG, t.root, t.pages[0], t.extra[0]);
    PagesBack(hv.value, t.raws, t.extra, TC_SIG, t.root, t.pages);
    return Ok((PagesOf(hv.value), node.value.1, hv.value.views[0].sig, hv.value.views[0].root));
  }

  /** OpenTC on the node. It accepts every committed table whose rows hold their cells, and gives back no other. */
  method OpenTable(n: NDB, nid: nat, ghost t: Record) returns (r: Result<TCView>, pages: seq<Allocs>, subs: Subs)
    requires n.Valid() && Holding(n.W(), nid, t)
    ensures RowsRoomy(t.cols, t.rows) ==> r.Ok?
    ensures pages == t.pages && subs == t.subs
    ensures r.Ok? ==> Live(pages, subs, t.root, t.cols, t.b, t.rows, t.c, r.value)
  {
    hide Recorded, NodeHolds, Holds, Planned, RowsNumbered, Image, AllRows, RowsRoomy, Joined, WholeRows;
    RecordedTable(t);
    var heap := OpenNodeHeap(n, nid, t);
    pages, subs := heap.value.0, Joined(heap.value.1);
    if heap.value.2 != TC_SIG {
      return Err(InvariantBroken), pages, subs;
    }
    r := OpenTC(pages, subs, heap.value.3, t.cols, t.b, t.rows, t.c);
    if r.Ok? && r.value.blocked {
      LeavesPass(t);
      var whole := InspectMatrixLeaves(heap.value.1, r.value.info.rowMatrix, r.value.info.bounds.bm);
      if !whole {
        return Err(InvariantBroken), pages, subs;
      }
    }
  }

  /** OpenTC, then Get. */
  method OpenGetNode(n: NDB, nid: nat, id: nat, prop: nat, ghost t: Record)
    returns (r: Result<(nat, Bytes)>, ghost k: nat)
    requires n.Valid() && Holding(n.W(), nid, t) && id < Blocks.U32
    ensures HasRow(t.rows, id) && RowsRoomy(t.cols, t.rows) ==> IsRow(t.rows, id, k) && Got(t.cols, t.rows[k], prop, r)
    ensures !HasRow(t.rows, id) || Unreadable(t.cols, prop) ==> r.Err?
  {
    hide Recorded, NodeHolds, Holds, Live, AllRows, RowsRoomy, Got, Unreadable, IsRow, Planned, RowsNumbered, Image;
    k := 0;
    RecordedTable(t);
    var v, pages, subs := OpenTable(n, nid, t);
    if v.Err? {
      return Err(v.error), k;
    }
    r, k := TableReader.Get(pages, subs, v.value, id, prop, t.root, t.cols, t.b, t.rows, t.c);
  }

  // ---------- over any later run ----------

  lemma StillHolding(w: World, w': World, touched: set<nat>, nid: nat, t: Record)
    requires Holding(w, nid, t) && Undisturbed(w, w', touched) && nid !in touched
    ensures Holding(w', nid, t)
  {
    hide Recorded, NodeHolds, Undisturbed;
    StillHolds(w, w', touched, nid, t.raws, t.found);
  }

  lemma NoOutcome(cols: seq<Column>, table: map<nat, Row>, id: nat, prop: nat)
    ensures Outcome(cols, table, id, prop, None)
  {
    hide Got, Unreadable, RowRoomy;
  }

  lemma OutcomeIs(cols: seq<Column>, rows: seq<Row>, byRow: map<nat, nat>, id: nat, prop: nat,
                  got: Result<(nat, Bytes)>, k: nat)
    requires Indexed(rows, byRow)
    requires HasRow(rows, id) && RowsRoomy(cols, rows) ==> IsRow(rows, id, k) && Got(cols, rows[k], prop, got)
    requires !HasRow(rows, id) || Unreadable(cols, prop) ==> got.Err?
    ensures Outcome(cols, TableOf(rows, byRow), id, prop, Some(got))
  {
    RoomyTable(cols, rows, byRow);
    hide Got, Unreadable, RowRoomy, RowsRoomy, TableOf, Indexed, IsRow;
    TableAt(rows, byRow, id, k);
  }

  /** Commit a table as a node, run any calls that do not name the node - builds, edits, reclamation, commits,
      reopenings - and read a cell from what the run ends with. */
  method CommitRunGet(n: NDB, t: TC, nid: nat, ops: seq<Runs.Op>, id: nat, prop: nat)
    returns (m: NDB, r: Option<Result<(nat, Bytes)>>, ghost rec: Record)
    requires Runs.Sound(n) && t.Valid() && t.heap.Valid() && |t.rows| < Blocks.U32 && id < Blocks.U32
    requires nid !in Runs.Touched(ops)
    modifies n, n.store, t.heap`pages, t.heap`subs, t.heap`nextSub, t.heap`root
    ensures Runs.Sound(m) && t.Valid() && t.Table() == old(t.Table())
    ensures Outcome(t.cols, t.Table(), id, prop, r)
    ensures r.None? ==> m == n && Builder.Capture(n) == old(Builder.Capture(n))
    ensures r.None? ==> Hindered(nid, old(n.nextBlock), t.heap, rec.c.matrix, t.cols, t.bounds, t.rows)
    ensures r.None? && rec.c.matrix != 0 ==>
      Prepared(t.heap.pages, t.heap.subs, t.heap.root, t.cols, t.bounds, t.rows, rec.c)
  {
    hide Holds, Shapely, Planned, Known, Indexed, TableOf, Holding, Got, Unreadable, RowRoomy, RowsRoomy, Runs.Touched,
         Undisturbed, Outcome, Hindered, Prepared, StripDistinct;
    NoOutcome(t.cols, t.Table(), id, prop);
    m := n;
    var ok;
    ok, rec := CommitTable(n, t, nid);
    if !ok {
      return m, None, rec;
    }
    ghost var w := n.W();
    var rs;
    ghost var trace;
    m, rs, trace := Runs.RunFrom(n, ops);
    StillHolding(w, m.W(), Runs.Touched(ops), nid, rec);
    var got;
    ghost var k;
    got, k := OpenGetNode(m, nid, id, prop, rec);
    OutcomeIs(t.cols, t.rows, t.byRow, id, prop, got, k);
    return m, Some(got), rec;
  }
}
