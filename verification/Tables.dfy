/** Table Contexts: rows in memory, committed to a heap and read back (tc.go, inspect_table.go). */
module TableContext {
  import opened Common
  import opened HeapOnNode
  import opened BTreeOnHeap
  import opened TableLayout
  import opened TableInfo
  import opened TableRows
  import Geometry
  import Blocks

  /** Subnode identifiers keep their 27-bit index. */
  const MAX_SUBS: nat := 0x800_0000

  /** A cell that holds a reference has room for one. */
  ghost predicate Roomy(cols: seq<Column>) {
    forall i | 0 <= i < |cols| :: !Fixed(cols[i].kind) ==> cols[i].size >= 4
  }

  /** Every reference a row needs fits its cell. */
  ghost predicate RowRoomy(cols: seq<Column>, r: Row) {
    forall i | 0 <= i < |cols| && CellOf(r, cols[i]).Some? && !Fixed(cols[i].kind) :: cols[i].size >= 4
  }

  ghost predicate RowsRoomy(cols: seq<Column>, rows: seq<Row>) {
    forall i | 0 <= i < |rows| :: RowRoomy(cols, rows[i])
  }

  lemma RoomyRow(cols: seq<Column>, r: Row)
    requires Roomy(cols)
    ensures RowRoomy(cols, r)
  {
    hide CellOf, Fixed;
  }

  ghost predicate IdsDiffer(cols: seq<Column>) {
    forall i, j | 0 <= i < j < |cols| :: cols[i].id != cols[j].id
  }

  /** What NewTC checks and computes before it starts. */
  ghost predicate Planned(cols: seq<Column>, b: Bounds) {
    && LaidOut(cols, b) && Typed(cols) && IdsDiffer(cols) && |cols| <= MAX_COLUMNS
    && forall i | 0 <= i < |cols| :: cols[i].kind < 0x10000 && cols[i].id < 0x10000
  }

  // ---------- starting a table ----------

  /** The column as NewTC takes it: its size, or the default for its type; no place in the row yet. */
  function Drafted(c: Column): Column {
    Column(c.kind, c.id, 0, if c.size == 0 then ColumnSize(c.kind) else c.size, 0)
  }

  function Draft(given: seq<Column>): (r: seq<Column>)
    ensures |r| == |given|
  {
    seq(|given|, i requires 0 <= i < |given| => Drafted(given[i]))
  }

  /** What NewTC accepts. */
  ghost predicate Acceptable(given: seq<Column>) {
    var all := WithPair(Draft(given));
    && Typed(Draft(given)) && |all| <= MAX_COLUMNS && IdsDiffer(all)
    && forall i | 0 <= i < |given| ::
       Grouped(Drafted(given[i]).size) && (Special(given[i]) ==> Drafted(given[i]).size == 4)
  }

  lemma AcceptableAssigns(given: seq<Column>)
    requires Typed(Draft(given)) && IdsDiffer(WithPair(Draft(given)))
    ensures Assignable(WithPair(Draft(given))) <==>
      forall i | 0 <= i < |given| ::
        Grouped(Drafted(given[i]).size) && (Special(given[i]) ==> Drafted(given[i]).size == 4)
  {
    var d := Draft(given);
    var all := WithPair(d);
    PairPresent(d);
    forall i | 0 <= i < |given|
      ensures all[i] == Drafted(given[i]) && (Special(all[i]) <==> Special(given[i]))
    {
      assert all[i] == d[i];
    }
    assert forall i | |given| <= i < |all| :: Special(all[i]) && all[i].size == 4;
    hide WithPair, Draft, Drafted;
    if Assignable(all) {
      assert forall i | 0 <= i < |given| :: Grouped(all[i].size) && (Special(all[i]) ==> all[i].size == 4);
    }
  }

  method CheckIds(cols: seq<Column>) returns (ok: bool)
    ensures ok <==> IdsDiffer(cols)
  {
    var seen: set<nat> := {};
    for i := 0 to |cols|
      invariant forall j | 0 <= j < i :: cols[j].id in seen
      invariant forall x | x in seen :: exists j | 0 <= j < i :: cols[j].id == x
      invariant forall j, k | 0 <= j < k < i :: cols[j].id != cols[k].id
    {
      if cols[i].id in seen {
        return false;
      }
      seen := seen + {cols[i].id};
    }
    return true;
  }

  /** The columns are the given ones, in their order: a size that was given is kept, and none given is the width of
      the type. Any further column is a row column. */
  ghost predicate AsGiven(given: seq<Column>, cols: seq<Column>) {
    && |given| <= |cols| && (forall i | |given| <= i < |cols| :: Special(cols[i]) && cols[i].size == 4)
    && forall i | 0 <= i < |given| ::
         && cols[i].kind == given[i].kind && cols[i].id == given[i].id
         && if given[i].size == 0 then OfWidth(given[i].kind, cols[i].size) else cols[i].size == given[i].size
  }

  lemma DraftedAsGiven(given: seq<Column>, cols: seq<Column>)
    requires SameColumns(WithPair(Draft(given)), cols)
    ensures AsGiven(given, cols)
  {
    var all := WithPair(Draft(given));
    forall i | 0 <= i < |given|
      ensures all[i] == Drafted(given[i])
    {
      assert all[i] == Draft(given)[i];
    }
    assert forall i | 0 <= i < |cols| :: cols[i] == all[i].(offset := cols[i].offset, bit := cols[i].bit);
  }

  /** NewTC's checks and layout: columns in the given order, the row columns added, every cell placed. */
  method PlanColumns(given: seq<Column>) returns (r: Result<(seq<Column>, Bounds)>)
    requires forall i | 0 <= i < |given| :: given[i].kind < 0x10000 && given[i].id < 0x10000
    ensures r.Ok? <==> Acceptable(given)
    ensures r.Ok? ==> Planned(r.value.0, r.value.1) && SameColumns(WithPair(Draft(given)), r.value.0)
    ensures r.Ok? ==> AsGiven(given, r.value.0)
  {
    hide Assignable, LaidOut, WithPair, Special, AsGiven;
    var drafts := Draft(given);
    var all := EnsurePair(drafts);
    if all.Err? {
      return Err(InvalidArg);
    }
    PairPresent(drafts);
    if |all.value| > MAX_COLUMNS {
      return Err(InvalidArg);
    }
    if IdsDiffer(all.value) {
      AcceptableAssigns(given);
    }
    var laid := AssignColumns(all.value);
    if laid.Err? {
      return Err(InvalidArg);
    }
    var ids := CheckIds(laid.value.0);
    if !ids {
      return Err(InvalidArg);
    }
    PlanKinds(given, laid.value.0);
    DraftedAsGiven(given, laid.value.0);
    return Ok(laid.value);
  }

  lemma PlanKinds(given: seq<Column>, cols: seq<Column>)
    requires forall i | 0 <= i < |given| :: given[i].kind < 0x10000 && given[i].id < 0x10000
    requires Typed(Draft(given)) && SameColumns(WithPair(Draft(given)), cols)
    ensures Typed(cols) && forall i | 0 <= i < |cols| :: cols[i].kind < 0x10000 && cols[i].id < 0x10000
  {
    var all := WithPair(Draft(given));
    PairPresent(Draft(given));
    forall i | 0 <= i < |cols|
      ensures cols[i].kind < 0x10000 && cols[i].id < 0x10000
    {
      if i < |given| {
        assert all[i] == Draft(given)[i];
      }
    }
    assert forall i | 0 <= i < |cols| :: cols[i].kind == all[i].kind && cols[i].id == all[i].id;
    hide WithPair;
  }

  /** With the default sizes every reference fits its cell. */
  lemma DefaultsRoomy(given: seq<Column>, cols: seq<Column>)
    requires SameColumns(WithPair(Draft(given)), cols)
    requires forall i | 0 <= i < |given| :: given[i].size == 0 || Fixed(given[i].kind) || given[i].size >= 4
    ensures Roomy(cols)
  {
    var all := WithPair(Draft(given));
    forall i | 0 <= i < |cols| && !Fixed(cols[i].kind)
      ensures cols[i].size >= 4
    {
      assert cols[i].size == all[i].size && cols[i].kind == all[i].kind;
      if i < |given| {
        assert all[i] == Draft(given)[i];
      }
    }
  }

  const NARROW: seq<Column> := [
    Column(INTEGER32, ROW_ID, 0, 4, 0), Column(INTEGER32, ROW_VER, 4, 4, 1), Column(0x1F, 0x3001, 8, 2, 2),
      Column(INTEGER16, 0x3002, 10, 2, 3)]

  lemma NarrowOffsets()
    ensures Offsets(NARROW, 2) == [8, 10] && Offsets(NARROW, 8) == [] && Offsets(NARROW, 4) == [] &&
      Offsets(NARROW, 1) == []
  {
    var c3 := NARROW[..3];
    var c2 := c3[..2];
    var c1 := c2[..1];
    forall w | w in {1, 2, 4, 8}
      ensures Offsets(NARROW, w) == if w == 2 then [8, 10] else []
    {
      assert Offsets(c1[..0], w) == [];
      assert Offsets(c1, w) == [];
      assert Offsets(c2, w) == [];
      assert Offsets(c3, w) == if w == 2 then [8] else [];
    }
  }

  /** A two-byte cell for a string is accepted by the layout, but its four-byte reference runs into the next cell. */
  lemma NarrowReference()
    ensures LaidOut(NARROW, BoundsOf(0, 0, 2, 0, 4)) && !Fixed(NARROW[2].kind) && NARROW[2].size == 2
    ensures NARROW[2].offset < NARROW[3].offset < NARROW[2].offset + 4
  {
    NarrowOffsets();
    hide Offsets;
    assert IsRowId(NARROW[0]) && IsRowVer(NARROW[1]);
    assert PackedCells(8, 2, 2) == [8, 10];
  }

  // ---------- placing values ----------

  /** newSub. */
  method NewSub(h: Heap, data: Bytes) returns (nid: nat)
    requires h.Valid()
    modifies h`subs, h`nextSub
    ensures h.Valid() && h.nextSub == old(h.nextSub) + 1 && nid == SubNID(old(h.nextSub))
    ensures !IsHID(nid) && nid > 0 && Keeps(h.pages, old(h.subs), h.pages, h.subs) &&
      Stored(h.pages, h.subs, nid) == Some(data)
  {
    SubKeeps(h.pages, h.subs, h.nextSub, data);
    hide Stored, Keeps, SubsIssued;
    nid := SubNID(h.nextSub);
    h.subs := h.subs + [(nid, data)];
    h.nextSub := h.nextSub + 1;
  }

  /** Heap.Allocate, as a reader of the heap sees it. */
  method PlaceAny(h: Heap, data: Bytes) returns (r: Result<nat>)
    requires h.Valid()
    modifies h`pages, h`subs, h`nextSub
    ensures h.Valid() && h.nextSub >= old(h.nextSub) && Keeps(old(h.pages), old(h.subs), h.pages, h.subs)
    ensures r.Ok? ==> Stored(h.pages, h.subs, r.value) == Some(data) && r.value > 0
    ensures r.Ok? && h.nextSub <= MAX_SUBS ==> r.value < Blocks.U32
    ensures r.Ok? ==> (IsHID(r.value) <==> |data| <= MAX_ALLOCATION)
    ensures r.Ok? && IsHID(r.value) ==> Extends(old(h.pages), h.pages)
    ensures |data| <= MAX_ALLOCATION ==> h.subs == old(h.subs) && h.nextSub == old(h.nextSub)
    ensures r.Err? ==> |h.pages| == MAX_PAGE_INDEX + 1
  {
    ghost var pages, subs, next := h.pages, h.subs, h.nextSub;
    SubKeeps(pages, subs, next, data);
    KeepsSelf(pages, subs);
    hide Keeps, SubsIssued, Extends, Named;
    r := h.Allocate(data);
    if |data| <= MAX_ALLOCATION && r.Ok? {
      ExtendsKeeps(pages, h.pages, subs);
    }
    LtpParts(next);
    hide SubNamed;
  }

  lemma LtpParts(n: nat)
    ensures SubNID(n) % 32 == LTP_TYPE && !IsHID(SubNID(n)) && (n < MAX_SUBS ==> SubNID(n) < Blocks.U32)
  {
  }

  /** place: objects always become subnodes. */
  method Place(h: Heap, kind: nat, data: Bytes) returns (r: Result<nat>)
    requires h.Valid()
    modifies h`pages, h`subs, h`nextSub
    ensures h.Valid() && h.nextSub >= old(h.nextSub) && Keeps(old(h.pages), old(h.subs), h.pages, h.subs)
    ensures r.Ok? ==> Stored(h.pages, h.subs, r.value) == Some(data)
    ensures r.Ok? && h.nextSub <= MAX_SUBS ==> r.value < Blocks.U32
    ensures r.Ok? && kind == OBJECT ==> !IsHID(r.value) && r.value % 32 == LTP_TYPE
    ensures r.Err? ==> |h.pages| == MAX_PAGE_INDEX + 1
  {
    hide Keeps, Stored;
    if kind == OBJECT {
      LtpParts(h.nextSub);
      var nid := NewSub(h, data);
      return Ok(nid);
    }
    r := PlaceAny(h, data);
  }

  // ---------- one row ----------

  method Put(row: array<byte>, off: nat, data: Bytes)
    requires off + |data| <= row.Length
    modifies row
    ensures row[..] == Splice(old(row[..]), off, data)
  {
    ghost var was := row[..];
    for i := 0 to |data|
      invariant row[..] == Splice(was, off, data[..i])
    {
      row[off + i] := data[i];
      assert data[..i + 1] == data[..i] + [data[i]];
      assert row[..] == Splice(was, off, data[..i + 1]);
    }
    assert data[..|data|] == data;
  }

  method SetCeb(row: array<byte>, base: nat, bit: nat)
    requires base + bit / 8 < row.Length
    modifies row
    ensures row[..] == WithBit(old(row[..]), base, bit)
  {
    ghost var was := row[..];
    row[base + bit / 8] := SetByte(row[base + bit / 8], bit % 8);
    assert row[..] == WithBit(was, base, bit);
  }

  /** How far a row is encoded: columns before `k` hold their values, the rest are blank. */
  ghost predicate EncodedTo(pages: seq<Allocs>, subs: seq<(nat, Bytes)>, row: Bytes, b: Bounds, cols: seq<Column>,
                            r: Row, k: nat) {
    && |row| == b.bm && k <= |cols|
    && (forall i | 0 <= i < k :: CellHolds(pages, subs, row, b.b1, cols[i], CellOf(r, cols[i])))
    && forall i | k <= i < |cols| :: Blank(row, cols[i]) && !CebHas(row, b.b1, cols[i].bit)
  }

  lemma EncodeStart(pages: seq<Allocs>, subs: seq<(nat, Bytes)>, row: Bytes, b: Bounds, cols: seq<Column>, r: Row)
    requires LaidOut(cols, b) && row == Zeros(b.bm)
    ensures EncodedTo(pages, subs, row, b, cols, r, 0)
  {
    forall i | 0 <= i < |cols|
      ensures Blank(row, cols[i]) && !CebHas(row, b.b1, cols[i].bit)
    {
      CellInside(cols, b, i);
      ZeroBits(cols[i].bit % 8);
      hide Bit, LaidOut;
    }
    hide LaidOut, CebHas;
  }

  lemma EncodeKept(pages: seq<Allocs>, subs: seq<(nat, Bytes)>, pages': seq<Allocs>, subs': seq<(nat, Bytes)>,
                   row: Bytes, b: Bounds, cols: seq<Column>, r: Row, k: nat)
    requires Keeps(pages, subs, pages', subs') && EncodedTo(pages, subs, row, b, cols, r, k)
    ensures EncodedTo(pages', subs', row, b, cols, r, k)
  {
    hide Keeps, CellHolds, CellOf, Blank, CebHas;
    forall i | 0 <= i < k
      ensures CellHolds(pages', subs', row, b.b1, cols[i], CellOf(r, cols[i]))
    {
      CellKept(pages, subs, pages', subs', row, b.b1, cols[i], CellOf(r, cols[i]));
    }
  }

  /** A column without a value. */
  lemma EncodeSkip(pages: seq<Allocs>, subs: seq<(nat, Bytes)>, row: Bytes, b: Bounds, cols: seq<Column>, r: Row,
                   k: nat)
    requires EncodedTo(pages, subs, row, b, cols, r, k) && k < |cols| && CellOf(r, cols[k]) == None
    ensures EncodedTo(pages, subs, row, b, cols, r, k + 1)
  {
    hide CellOf, CebHas, Stored, Long;
  }

  /** A column whose bytes have just been written. */
  lemma EncodeStep(pages: seq<Allocs>, subs: seq<(nat, Bytes)>, row: Bytes, row': Bytes, b: Bounds, cols: seq<Column>,
                   r: Row, k: nat, data: Bytes)
    requires LaidOut(cols, b) && EncodedTo(pages, subs, row, b, cols, r, k) && k < |cols| && |data| <= cols[k].size
    requires cols[k].offset + |data| <= |row| && b.b1 + cols[k].bit / 8 < |row|
    requires row' == Splice(WithBit(row, b.b1, cols[k].bit), cols[k].offset, data)
    requires CellHolds(pages, subs, row', b.b1, cols[k], CellOf(r, cols[k]))
    ensures EncodedTo(pages, subs, row', b, cols, r, k + 1)
  {
    hide LaidOut, CellHolds, CellOf, Blank, CebHas, WithBit, Splice;
    forall i | 0 <= i < |cols| && i != k
      ensures i < k ==> CellHolds(pages, subs, row', b.b1, cols[i], CellOf(r, cols[i]))
      ensures i > k ==> Blank(row', cols[i]) && !CebHas(row', b.b1, cols[i].bit)
    {
      CellWritten(pages, subs, row, row', b, cols, k, data, i, CellOf(r, cols[i]));
      if i > k {
        BlankKept(row, row', b, cols, k, data, i);
      }
    }
  }

  lemma EncodeDone(pages: seq<Allocs>, subs: seq<(nat, Bytes)>, row: Bytes, b: Bounds, cols: seq<Column>, r: Row)
    requires EncodedTo(pages, subs, row, b, cols, r, |cols|)
    ensures RowHolds(pages, subs, row, b, cols, r)
  {
    hide CellHolds, CellOf, Blank, CebHas;
  }

  /** The value itself goes into the row: cut or padded to the cell. */
  lemma FixedStep(pages: seq<Allocs>, subs: seq<(nat, Bytes)>, row: Bytes, row': Bytes, b: Bounds, cols: seq<Column>,
                  r: Row, k: nat, data: Bytes)
    requires LaidOut(cols, b) && EncodedTo(pages, subs, row, b, cols, r, k) && k < |cols| && Fixed(cols[k].kind) &&
      CellOf(r, cols[k]) == Some(data)
    requires var d := if |data| > cols[k].size then data[..cols[k].size] else data;
      && cols[k].offset + |d| <= |row| && b.b1 + cols[k].bit / 8 < |row|
      && row' == Splice(WithBit(row, b.b1, cols[k].bit), cols[k].offset, d)
    ensures EncodedTo(pages, subs, row', b, cols, r, k + 1)
  {
    hide LaidOut, CellOf, CebHas, WithBit, Splice, Stored, Long, Fit;
    var d := if |data| > cols[k].size then data[..cols[k].size] else data;
    CellNow(pages, subs, row, row', b, cols, k, d);
    FitWritten(row, row', b, cols, k, data, cols[k].size);
    assert CellHolds(pages, subs, row', b.b1, cols[k], CellOf(r, cols[k]));
    hide CellHolds;
    EncodeStep(pages, subs, row, row', b, cols, r, k, d);
  }

  /** A reference goes into the row. */
  lemma ReferenceStep(pages: seq<Allocs>, subs: seq<(nat, Bytes)>, row: Bytes, row': Bytes, b: Bounds,
                      cols: seq<Column>, r: Row, k: nat, hnid: nat)
    requires LaidOut(cols, b) && EncodedTo(pages, subs, row, b, cols, r, k) && k < |cols| && !Fixed(cols[k].kind) &&
      cols[k].size >= 4
    requires CellOf(r, cols[k]).Some? && Stored(pages, subs, hnid) == CellOf(r, cols[k]) && hnid < Blocks.U32
    requires cols[k].kind == OBJECT ==> !IsHID(hnid) && hnid % 32 == LTP_TYPE
    requires cols[k].offset + 4 <= |row| && b.b1 + cols[k].bit / 8 < |row|
    requires row' == Splice(WithBit(row, b.b1, cols[k].bit), cols[k].offset, LE32(hnid))
    ensures EncodedTo(pages, subs, row', b, cols, r, k + 1)
  {
    hide LaidOut, CellOf, CebHas, WithBit, Splice, Stored, Long, Fit, LE32;
    CellNow(pages, subs, row, row', b, cols, k, LE32(hnid));
    LongIn(row', cols[k].offset, hnid);
    assert CellHolds(pages, subs, row', b.b1, cols[k], CellOf(r, cols[k]));
    hide CellHolds;
    EncodeStep(pages, subs, row, row', b, cols, r, k, LE32(hnid));
  }

  /** encodeRow: when every reference fits its cell, the row's bytes hold every cell the row has and mark the others
      absent. A reference is four bytes whatever its cell's size: it runs over what follows a narrow cell, and past
      the end of the row the code panics. */
  method EncodeRow(h: Heap, cols: seq<Column>, b: Bounds, r: Row) returns (res: Result<Bytes>)
    requires h.Valid() && LaidOut(cols, b)
    modifies h`pages, h`subs, h`nextSub
    ensures h.Valid() && h.nextSub >= old(h.nextSub) && Keeps(old(h.pages), old(h.subs), h.pages, h.subs)
    ensures res.Ok? && h.nextSub <= MAX_SUBS && RowRoomy(cols, r) ==> RowHolds(h.pages, h.subs, res.value, b, cols, r)
    ensures res.Ok? ==> |res.value| == b.bm
    ensures res.Err? ==> |h.pages| == MAX_PAGE_INDEX + 1 || !RowRoomy(cols, r)
  {
    hide LaidOut, EncodedTo, Keeps, RowHolds, Splice, WithBit, Stored, RowRoomy;
    var row := new byte[b.bm](_ => 0);
    assert row[..] == Zeros(b.bm);
    EncodeStart(h.pages, h.subs, row[..], b, cols, r);
    KeepsSelf(h.pages, h.subs);
    for k := 0 to |cols|
      invariant h.Valid() && h.nextSub >= old(h.nextSub) && Keeps(old(h.pages), old(h.subs), h.pages, h.subs)
      invariant row.Length == b.bm && fresh(row)
      invariant h.nextSub <= MAX_SUBS && RowRoomy(cols, r) ==> EncodedTo(h.pages, h.subs, row[..], b, cols, r, k)
    {
      var v := CellOf(r, cols[k]);
      ghost var pages, subs, was := h.pages, h.subs, row[..];
      if v.None? {
        if h.nextSub <= MAX_SUBS && RowRoomy(cols, r) {
          EncodeSkip(pages, subs, was, b, cols, r, k);
        }
      } else {
        var ok := EncodeCell(h, row, cols, b, r, k, v.value);
        KeepsTwice(old(h.pages), old(h.subs), pages, subs, h.pages, h.subs);
        if ok.Err? {
          return Err(ok.error);
        }
      }
    }
    if h.nextSub <= MAX_SUBS && RowRoomy(cols, r) {
      EncodeDone(h.pages, h.subs, row[..], b, cols, r);
    }
    return Ok(row[..]);
  }

  lemma RoomAt(cols: seq<Column>, r: Row, k: nat)
    requires RowRoomy(cols, r) && k < |cols| && CellOf(r, cols[k]).Some? && !Fixed(cols[k].kind)
    ensures cols[k].size >= 4
  {
    hide CellOf, Fixed;
  }

  /** One present cell. */
  method EncodeCell(h: Heap, row: array<byte>, cols: seq<Column>, b: Bounds, ghost r: Row, k: nat, data: Bytes)
    returns (res: Result<()>)
    requires h.Valid() && LaidOut(cols, b) && k < |cols| && CellOf(r, cols[k]) == Some(data) && row.Length == b.bm
    requires h.nextSub <= MAX_SUBS && RowRoomy(cols, r) ==> EncodedTo(h.pages, h.subs, row[..], b, cols, r, k)
    modifies h`pages, h`subs, h`nextSub, row
    ensures h.Valid() && h.nextSub >= old(h.nextSub) && Keeps(old(h.pages), old(h.subs), h.pages, h.subs)
    ensures res.Ok? && h.nextSub <= MAX_SUBS && RowRoomy(cols, r) ==>
      EncodedTo(h.pages, h.subs, row[..], b, cols, r, k + 1)
    ensures res.Err? ==> |h.pages| == MAX_PAGE_INDEX + 1 || !RowRoomy(cols, r)
  {
    CellInside(cols, b, k);
    hide LaidOut, EncodedTo, Keeps, Splice, WithBit, Stored, CellOf, LE32, RowRoomy;
    var c := cols[k];
    ghost var pages, subs, was := h.pages, h.subs, row[..];
    SetCeb(row, b.b1, c.bit);
    if !Fixed(c.kind) {
      if RowRoomy(cols, r) {
        RoomAt(cols, r, k);
      }
      var hnid := Place(h, c.kind, data);
      if hnid.Err? {
        return Err(hnid.error);
      }
      if c.offset + 4 > row.Length {
        return Err(InvariantBroken);
      }
      Put(row, c.offset, LE32(hnid.value));
      if h.nextSub <= MAX_SUBS && RowRoomy(cols, r) {
        EncodeKept(pages, subs, h.pages, h.subs, was, b, cols, r, k);
        ReferenceStep(h.pages, h.subs, was, row[..], b, cols, r, k, hnid.value);
      }
      return Ok(());
    }
    KeepsSelf(pages, subs);
    Put(row, c.offset, if |data| > c.size then data[..c.size] else data);
    if h.nextSub <= MAX_SUBS && RowRoomy(cols, r) {
      FixedStep(h.pages, h.subs, was, row[..], b, cols, r, k, data);
    }
    return Ok(());
  }

  // ---------- rows in memory ----------

  /** `byRow` finds every row by its identifier. */
  ghost predicate Indexed(rows: seq<Row>, byRow: map<nat, nat>) {
    && (forall i | 0 <= i < |rows| ::
        rows[i].id in byRow && byRow[rows[i].id] == i && 0 < rows[i].id < Blocks.U32 && rows[i].ver < Blocks.U32)
    && forall id | id in byRow :: byRow[id] < |rows| && rows[byRow[id]].id == id
  }

  /** Cells belong to ordinary columns. */
  ghost predicate Known(rows: seq<Row>, cols: seq<Column>) {
    forall i, p | 0 <= i < |rows| && p in rows[i].cells :: exists k | 0 <= k < |cols| ::
      cols[k].id == p && !Special(cols[k])
  }

  /** The table as a map from row identifiers. */
  ghost function TableOf(rows: seq<Row>, byRow: map<nat, nat>): map<nat, Row>
    requires Indexed(rows, byRow)
  {
    map id | id in byRow :: rows[byRow[id]]
  }

  lemma RowAdded(rows: seq<Row>, byRow: map<nat, nat>, id: nat)
    requires Indexed(rows, byRow) && 0 < id < Blocks.U32 && id !in byRow
    ensures Indexed(rows + [Row(id, 1, map[])], byRow[id := |rows|])
    ensures TableOf(rows + [Row(id, 1, map[])], byRow[id := |rows|]) == TableOf(rows, byRow)[id := Row(id, 1, map[])]
  {
  }

  lemma RowChanged(rows: seq<Row>, byRow: map<nat, nat>, i: nat, r: Row)
    requires Indexed(rows, byRow) && i < |rows| && r.id == rows[i].id && r.ver < Blocks.U32
    ensures Indexed(rows[i := r], byRow) && TableOf(rows[i := r], byRow) == TableOf(rows, byRow)[r.id := r]
  {
  }

  /** Deleting row `i`: later rows move up one place. */
  ghost predicate Renumbering(rows: seq<Row>, byRow: map<nat, nat>, now: map<nat, nat>, i: nat, j: nat)
    requires i < |rows|
  {
    && i <= j <= |rows| - 1 && now.Keys == byRow.Keys - {rows[i].id}
    && forall k | 0 <= k < |rows| && k != i :: rows[k].id in now && now[rows[k].id] == if i < k <= j then k - 1 else k
  }

  lemma RowsLeft(rows: seq<Row>, i: nat)
    requires i < |rows|
    ensures var left := rows[..i] + rows[i + 1..];
      |left| == |rows| - 1 && (forall k | 0 <= k < i :: left[k] == rows[k]) && forall k | i <= k < |left| ::
        left[k] == rows[k + 1]
  {
  }

  lemma FoundAfterDelete(rows: seq<Row>, byRow: map<nat, nat>, now: map<nat, nat>, i: nat, id: nat)
    requires Indexed(rows, byRow) && i < |rows| && Renumbering(rows, byRow, now, i, |rows| - 1) && id in now
    ensures var left := rows[..i] + rows[i + 1..];
      id in byRow && byRow[id] < |rows| && now[id] < |left| && left[now[id]] == rows[byRow[id]] &&
        left[now[id]].id == id
  {
    var k := byRow[id];
    assert rows[k].id == id;
    RowsLeft(rows, i);
  }

  lemma RowDeleted(rows: seq<Row>, byRow: map<nat, nat>, now: map<nat, nat>, i: nat)
    requires Indexed(rows, byRow) && i < |rows| && Renumbering(rows, byRow, now, i, |rows| - 1)
    ensures Indexed(rows[..i] + rows[i + 1..], now)
    ensures TableOf(rows[..i] + rows[i + 1..], now) == TableOf(rows, byRow) - {rows[i].id}
  {
    RowsLeft(rows, i);
    var left := rows[..i] + rows[i + 1..];
    forall id | id in now
      ensures id in byRow && byRow[id] < |rows| && now[id] < |left| && left[now[id]] == rows[byRow[id]] &&
        left[now[id]].id == id
    {
      FoundAfterDelete(rows, byRow, now, i, id);
    }
    IndexedAfterDelete(rows, byRow, now, i, left);
    hide Renumbering;
  }

  lemma IndexedAfterDelete(rows: seq<Row>, byRow: map<nat, nat>, now: map<nat, nat>, i: nat, left: seq<Row>)
    requires Indexed(rows, byRow) && i < |rows| && Renumbering(rows, byRow, now, i, |rows| - 1)
    requires |left| == |rows| - 1 && (forall k | 0 <= k < i :: left[k] == rows[k]) && forall k | i <= k < |left| ::
      left[k] == rows[k + 1]
    requires forall id | id in now :: now[id] < |left| && left[now[id]].id == id
    ensures Indexed(left, now)
  {
    forall k | 0 <= k < |left|
      ensures left[k].id in now && now[left[k].id] == k && 0 < left[k].id < Blocks.U32 && left[k].ver < Blocks.U32
    {
      if k < i {
        assert left[k] == rows[k];
        assert rows[k].id in now && now[rows[k].id] == k;
      } else {
        assert left[k] == rows[k + 1];
        assert rows[k + 1].id in now && now[rows[k + 1].id] == k;
      }
    }
  }

  /** A word read as a two's complement number. */
  function Signed(word: nat, span: nat): int {
    if word < span / 2 then word else word - span
  }

  /** Set's effect, whatever the value is: accepted on a known row and an ordinary column, one cell and the version
      change. */
  ghost predicate WroteCell(was: map<nat, Row>, now: map<nat, Row>, cols: seq<Column>, id: nat, prop: nat,
                            r: Result<()>) {
    && (r.Ok? <==> id in was && exists k | 0 <= k < |cols| :: cols[k].id == prop && !Special(cols[k]))
    && (r.Err? ==> now == was)
    && (r.Ok? ==> id in now && prop in now[id].cells
                  && now == was[id := Row(id, (was[id].ver + 1) % Blocks.U32,
                                          was[id].cells[prop := now[id].cells[prop]])])
  }

  /** A Table Context under construction. */
  class TC {
    const heap: Heap
    const cols: seq<Column>
    const bounds: Bounds
    var rows: seq<Row>
    var byRow: map<nat, nat>
    var nextId: nat

    ghost predicate Valid()
      reads this
    {
      Planned(cols, bounds) && Indexed(rows, byRow) && Known(rows, cols) && heap.sig == TC_SIG
      && nextId < Blocks.U32
    }

    /** The next identifier is above those of all rows; only the largest identifier of all breaks this. */
    ghost predicate Above()
      reads this
    {
      0 < nextId && forall i | 0 <= i < |rows| :: rows[i].id < nextId
    }

    ghost function Table(): map<nat, Row>
      requires Valid()
      reads this
    {
      TableOf(rows, byRow)
    }

    constructor (heap: Heap, cols: seq<Column>, bounds: Bounds)
      requires Planned(cols, bounds) && heap.sig == TC_SIG
      ensures Valid() && Table() == map[] && rows == [] && this.heap == heap && this.cols == cols &&
        this.bounds == bounds
      ensures Above()
    {
      this.heap, this.cols, this.bounds := heap, cols, bounds;
      rows, byRow, nextId := [], map[], 1;
      new;
      hide LaidOut, IdsDiffer;
    }

    /** Add: a row under the next identifier, which is free unless the identifiers have wrapped. */
    method Add() returns (r: Result<nat>)
      requires Valid()
      modifies `rows, `byRow, `nextId
      ensures Valid()
      ensures r.Ok? <==> old(nextId) != 0 && old(nextId) !in old(Table())
      ensures old(Above()) ==> r.Ok? && forall id | id in old(Table()) :: id < r.value
      ensures r.Ok? ==> r.value == old(nextId) && Table() == old(Table())[r.value := Row(r.value, 1, map[])]
      ensures r.Err? ==> Table() == old(Table())
    {
      hide LaidOut, IdsDiffer, Planned, Known;
      var id := nextId;
      var added := AddID(id);
      r := if added.Ok? then Ok(id) else Err(added.error);
    }

    /** AddID: any fresh non-zero identifier. */
    method AddID(id: nat) returns (r: Result<()>)
      requires Valid() && id < Blocks.U32
      modifies `rows, `byRow, `nextId
      ensures Valid()
      ensures r.Ok? <==> id != 0 && id !in old(Table())
      ensures |rows| == if r.Ok? then |old(rows)| + 1 else |old(rows)|
      ensures Table() == if r.Ok? then old(Table())[id := Row(id, 1, map[])] else old(Table())
      ensures r.Err? ==> nextId == old(nextId)
      ensures old(Above()) && id + 1 < Blocks.U32 ==> Above()
    {
      hide LaidOut, IdsDiffer, Planned;
      if id == 0 {
        return Err(InvalidArg);
      }
      if id in byRow {
        return Err(InvalidArg);
      }
      RowAdded(rows, byRow, id);
      hide Indexed;
      byRow := byRow[id := |rows|];
      rows := rows + [Row(id, 1, map[])];
      if id >= nextId {
        nextId := (id + 1) % Blocks.U32;
      }
      return Ok(());
    }

    /** The column with a property identifier, if the table has one. */
    method FindColumn(prop: nat) returns (k: nat)
      requires Valid()
      ensures k <= |cols| && (k < |cols| ==> cols[k].id == prop)
      ensures k == |cols| ==> forall i | 0 <= i < |cols| :: cols[i].id != prop
    {
      k := 0;
      while k < |cols|
        invariant k <= |cols| && forall i | 0 <= i < k :: cols[i].id != prop
      {
        if cols[k].id == prop {
          return;
        }
        k := k + 1;
      }
    }

    /** Set: one cell of one row, and the row's version. */
    method Set(id: nat, prop: nat, data: Bytes) returns (r: Result<()>)
      requires Valid()
      modifies `rows
      ensures Valid() && |rows| == |old(rows)|
      ensures r.Ok? <==> id in old(Table()) && exists k | 0 <= k < |cols| :: cols[k].id == prop && !Special(cols[k])
      ensures r.Ok? ==>
        Table() == old(Table())[id := Row(id, (old(Table())[id].ver + 1) % Blocks.U32,
                                          old(Table())[id].cells[prop := data])]
      ensures r.Err? ==> Table() == old(Table())
    {
      hide LaidOut, IdsDiffer, Planned, Special;
      if id !in byRow {
        return Err(InvalidArg);
      }
      var k := FindColumn(prop);
      if k == |cols| {
        return Err(InvalidArg);
      }
      if Special(cols[k]) {
        OneColumn(cols, bounds, k, prop);
        return Err(InvalidArg);
      }
      var i := byRow[id];
      var row := Row(id, (rows[i].ver + 1) % Blocks.U32, rows[i].cells[prop := data]);
      assert cols[k].id == prop && !Special(cols[k]);
      RowChanged(rows, byRow, i, row);
      KnownChanged(rows, cols, i, row);
      hide Indexed, Known;
      rows := rows[i := row];
      return Ok(());
    }

    /** SetInt32. */
    method SetInt32(id: nat, prop: nat, v: int) returns (r: Result<()>)
      requires Valid() && -0x8000_0000 <= v < 0x8000_0000
      modifies `rows
      ensures Valid() && |rows| == |old(rows)| && WroteCell(old(Table()), Table(), cols, id, prop, r)
      ensures r.Ok? ==> |Table()[id].cells[prop]| == 4 && Signed(Int(Table()[id].cells[prop]), 0x1_0000_0000) == v
    {
      hide LaidOut, IdsDiffer, Planned, Special, Indexed, Known, LEBytes;
      var word := if v < 0 then v + 0x1_0000_0000 else v;
      LEBytesBack(word, 4);
      r := Set(id, prop, LEBytes(word, 4));
    }

    /** SetInt64. */
    method SetInt64(id: nat, prop: nat, v: int) returns (r: Result<()>)
      requires Valid() && -0x8000_0000_0000_0000 <= v < 0x8000_0000_0000_0000
      modifies `rows
      ensures Valid() && |rows| == |old(rows)| && WroteCell(old(Table()), Table(), cols, id, prop, r)
      ensures r.Ok? ==>
        |Table()[id].cells[prop]| == 8 && Signed(Int(Table()[id].cells[prop]), 0x1_0000_0000_0000_0000) == v
    {
      hide LaidOut, IdsDiffer, Planned, Special, Indexed, Known, LEBytes;
      var word := if v < 0 then v + 0x1_0000_0000_0000_0000 else v;
      LEBytesBack(word, 8);
      r := Set(id, prop, LEBytes(word, 8));
    }

    /** SetTime. */
    method SetTime(id: nat, prop: nat, filetime: nat) returns (r: Result<()>)
      requires Valid() && filetime < Blocks.U64
      modifies `rows
      ensures Valid() && |rows| == |old(rows)| && WroteCell(old(Table()), Table(), cols, id, prop, r)
      ensures r.Ok? ==> |Table()[id].cells[prop]| == 8 && Int(Table()[id].cells[prop]) == filetime
    {
      hide LaidOut, IdsDiffer, Planned, Special, Indexed, Known, LEBytes;
      LEBytesBack(filetime, 8);
      r := Set(id, prop, LEBytes(filetime, 8));
    }

    /** SetBool. */
    method SetBool(id: nat, prop: nat, v: bool) returns (r: Result<()>)
      requires Valid()
      modifies `rows
      ensures Valid() && |rows| == |old(rows)| && WroteCell(old(Table()), Table(), cols, id, prop, r)
      ensures r.Ok? ==> Table()[id].cells[prop] == [if v then 1 else 0]
    {
      hide LaidOut, IdsDiffer, Planned, Special, Indexed, Known;
      r := Set(id, prop, [if v then 1 else 0]);
    }

    /** Clear: the cell is gone, the version counts on. */
    method Clear(id: nat, prop: nat) returns (r: Result<()>)
      requires Valid()
      modifies `rows
      ensures Valid() && |rows| == |old(rows)|
      ensures r.Ok? <==> id in old(Table()) && exists k | 0 <= k < |cols| :: cols[k].id == prop && !Special(cols[k])
      ensures r.Ok? ==>
        Table() == old(Table())[id := Row(id, (old(Table())[id].ver + 1) % Blocks.U32, old(Table())[id].cells - {prop})]
      ensures r.Err? ==> Table() == old(Table())
    {
      hide LaidOut, IdsDiffer, Planned, Special;
      if id !in byRow {
        return Err(InvalidArg);
      }
      var k := FindColumn(prop);
      if k == |cols| {
        return Err(InvalidArg);
      }
      if Special(cols[k]) {
        OneColumn(cols, bounds, k, prop);
        return Err(InvalidArg);
      }
      var i := byRow[id];
      var row := Row(id, (rows[i].ver + 1) % Blocks.U32, rows[i].cells - {prop});
      RowChanged(rows, byRow, i, row);
      KnownChanged(rows, cols, i, row);
      hide Indexed, Known;
      rows := rows[i := row];
      return Ok(());
    }

    /** Delete: the row goes, and the rows after it are renumbered. */
    method Delete(id: nat) returns (r: Result<()>)
      requires Valid()
      modifies `rows, `byRow
      ensures Valid()
      ensures r.Ok? <==> id in old(Table())
      ensures Table() == if r.Ok? then old(Table()) - {id} else old(Table())
    {
      hide LaidOut, IdsDiffer, Planned, Special;
      if id !in byRow {
        return Err(InvalidArg);
      }
      var i := byRow[id];
      ghost var before, index := rows, byRow;
      rows := rows[..i] + rows[i + 1..];
      byRow := byRow - {id};
      for j := i to |rows|
        invariant rows == before[..i] + before[i + 1..] && Renumbering(before, index, byRow, i, j)
      {
        assert rows[j] == before[j + 1];
        byRow := byRow[rows[j].id := j];
      }
      RowDeleted(before, index, byRow, i);
      KnownLess(before, cols, i);
      return Ok(());
    }
  }

  lemma SameId(cols: seq<Column>, i: nat, k: nat)
    requires IdsDiffer(cols) && i < |cols| && k < |cols| && cols[i].id == cols[k].id
    ensures i == k
  {
  }

  lemma OneColumn(cols: seq<Column>, b: Bounds, k: nat, prop: nat)
    requires Planned(cols, b) && k < |cols| && cols[k].id == prop && Special(cols[k])
    ensures forall i | 0 <= i < |cols| && cols[i].id == prop :: Special(cols[i])
  {
    hide LaidOut, Special;
    forall i | 0 <= i < |cols| && cols[i].id == prop
      ensures i == k
    {
      SameId(cols, i, k);
    }
  }

  lemma KnownChanged(rows: seq<Row>, cols: seq<Column>, i: nat, r: Row)
    requires Known(rows, cols) && i < |rows|
    requires forall p | p in r.cells :: p in rows[i].cells || exists k | 0 <= k < |cols| ::
      cols[k].id == p && !Special(cols[k])
    ensures Known(rows[i := r], cols)
  {
    hide Special;
  }

  lemma KnownLess(rows: seq<Row>, cols: seq<Column>, i: nat)
    requires Known(rows, cols) && i < |rows|
    ensures Known(rows[..i] + rows[i + 1..], cols)
  {
    hide Special;
    var left := rows[..i] + rows[i + 1..];
    forall k | 0 <= k < |left|
      ensures left[k] == if k < i then rows[k] else rows[k + 1]
    {
    }
  }
}
