/** TCINFO on the wire: writing a column layout and inspecting one (inspect_table.go). */
module TableInfo {
  import opened Common
  import opened HeapOnNode
  import opened BTreeOnHeap
  import opened TableLayout

  function Desc(c: Column): (r: Bytes)
    ensures |r| == DESC_SIZE
  {
    LE16(c.kind) + LE16(c.id) + LE16(c.offset) + [c.size % 256, c.bit % 256]
  }

  function Descs(cols: seq<Column>): (r: seq<Bytes>)
    ensures |r| == |cols| && Wide(r, DESC_SIZE)
  {
    seq(|cols|, k requires 0 <= k < |cols| => Desc(cols[k]))
  }

  function Head(n: nat, b: Bounds, rowIndex: nat, rowMatrix: nat): (r: Bytes)
    ensures |r| == INFO_FIXED
  {
    [TC_SIG, n % 256] + LE16(b.b4) + LE16(b.b2) + LE16(b.b1) + LE16(b.bm) + LE32(rowIndex) + LE32(rowMatrix) + LE32(0)
  }

  function InfoBytes(cols: seq<Column>, b: Bounds, rowIndex: nat, rowMatrix: nat): Bytes {
    Head(|cols|, b, rowIndex, rowMatrix) + Flat(Descs(cols))
  }

  lemma InfoSize(cols: seq<Column>, b: Bounds, rowIndex: nat, rowMatrix: nat)
    ensures |InfoBytes(cols, b, rowIndex, rowMatrix)| == INFO_FIXED + DESC_SIZE * |cols|
  {
    hide Flat, Head, Descs;
    FlatRows(Descs(cols), DESC_SIZE);
  }

  /** writeTCINFO: the columns in tag order, offsets and bits as they were laid out. */
  method WriteInfo(cols: seq<Column>, b: Bounds, rowIndex: nat, rowMatrix: nat)
    returns (r: Result<Bytes>, ghost sorted: seq<Column>)
    ensures r.Ok? <==> TagsDiffer(cols) && |cols| <= MAX_COLUMNS
    ensures r.Ok? ==>
      TagsRise(sorted) && multiset(sorted) == multiset(cols) && r.value == InfoBytes(sorted, b, rowIndex, rowMatrix)
  {
    hide Flat, Desc, Head, TagsRise, TagsDiffer;
    sorted := cols;
    var s := SortByTag(cols);
    if s.Err? {
      return Err(s.error), sorted;
    }
    sorted := s.value;
    SameLength(s.value, cols);
    var n := |s.value|;
    if n > MAX_COLUMNS {
      return Err(InvalidArg), sorted;
    }
    var buf := new byte[INFO_FIXED + DESC_SIZE * n];
    var off := Append(buf, 0, Head(n, b, rowIndex, rowMatrix));
    ghost var rows := Descs(s.value);
    NoRows();
    assert rows[..0] == [];
    for k := 0 to n
      invariant off == INFO_FIXED + DESC_SIZE * k && buf[..off] == Head(n, b, rowIndex, rowMatrix) + Flat(rows[..k])
    {
      off := Append(buf, off, Desc(s.value[k]));
      assert rows[..k + 1] == rows[..k] + [rows[k]];
      FlatSnoc(rows[..k], rows[k]);
      hide Descs;
    }
    assert rows[..n] == rows && buf[..off] == buf[..];
    return Ok(buf[..]), sorted;
  }

  lemma NoRows()
    ensures Flat([]) == []
  {
  }

  // ---------- reading it back ----------

  function ColumnAt(raw: Bytes, k: nat): Column
    requires INFO_FIXED + DESC_SIZE * k + DESC_SIZE <= |raw|
  {
    var o := INFO_FIXED + DESC_SIZE * k;
    Column(Word(raw, o), Word(raw, o + 2), Word(raw, o + 4), raw[o + 6], raw[o + 7])
  }

  function ColumnsAt(raw: Bytes, n: nat): (r: seq<Column>)
    requires INFO_FIXED + DESC_SIZE * n <= |raw|
    ensures |r| == n
  {
    seq(n, k requires 0 <= k < n => ColumnAt(raw, k))
  }

  function BoundsAt(raw: Bytes): Bounds
    requires |raw| >= INFO_FIXED
  {
    Bounds(Word(raw, 2), Word(raw, 4), Word(raw, 6), Word(raw, 8))
  }

  /** A TCINFO the format allows. */
  ghost predicate WellFormed(raw: Bytes) {
    && |raw| >= INFO_FIXED && raw[0] == TC_SIG && |raw| >= INFO_FIXED + DESC_SIZE * raw[1]
    && LaidOut(ColumnsAt(raw, raw[1]), BoundsAt(raw)) && Typed(ColumnsAt(raw, raw[1])) &&
       TagsRise(ColumnsAt(raw, raw[1]))
    && Long(raw, 18) == 0
  }

  datatype TableView = TableView(cols: seq<Column>, bounds: Bounds, rowIndex: nat, rowMatrix: nat)

  ghost predicate Views(raw: Bytes, v: TableView) {
    && WellFormed(raw) && v.cols == ColumnsAt(raw, raw[1]) && v.bounds == BoundsAt(raw)
    && v.rowIndex == Long(raw, 10) && v.rowMatrix == Long(raw, 14)
  }

  // ---------- the checks ----------

  ghost predicate Nondecreasing(s: seq<nat>) {
    forall i, j | 0 <= i < j < |s| :: s[i] <= s[j]
  }

  lemma {:induction false} SortedUnique(a: seq<nat>, b: seq<nat>)
    requires Nondecreasing(a) && Nondecreasing(b) && multiset(a) == multiset(b)
    ensures a == b
  {
    SameLength(a, b);
    if a != [] {
      var n := |a| - 1;
      SameMost(a, b);
      TakeOut(a, b, n);
      assert b[..n] + b[n + 1..] == b[..n];
      SortedUnique(a[..n], b[..n]);
      assert a == a[..n] + [a[n]] && b == b[..n] + [b[n]];
    }
  }

  lemma SameMost(a: seq<nat>, b: seq<nat>)
    requires Nondecreasing(a) && Nondecreasing(b) && multiset(a) == multiset(b) && |a| == |b| > 0
    ensures a[|a| - 1] == b[|b| - 1]
  {
    SameElements(a, b);
    var n := |a| - 1;
    assert a[n] in b && b[n] in a;
  }

  lemma SlideIn(s: seq<nat>, v: nat, k: nat)
    requires Nondecreasing(s) && k <= |s| && (forall i | 0 <= i < k :: s[i] <= v) && forall i | k <= i < |s| ::
      v <= s[i]
    ensures Nondecreasing(s[..k] + [v] + s[k..]) && multiset(s[..k] + [v] + s[k..]) == multiset(s) + multiset{v}
  {
    assert s == s[..k] + s[k..];
    var r := s[..k] + [v] + s[k..];
    forall i | 0 <= i < |r|
      ensures r[i] == if i < k then s[i] else if i == k then v else s[i - 1]
    {
    }
    assert multiset(r) == multiset(s[..k]) + multiset{v} + multiset(s[k..]);
  }

  method InsertSorted(s: seq<nat>, v: nat) returns (r: seq<nat>)
    requires Nondecreasing(s)
    ensures Nondecreasing(r) && multiset(r) == multiset(s) + multiset{v}
  {
    var k := |s|;
    while k > 0 && s[k - 1] > v
      invariant 0 <= k <= |s| && forall i | k <= i < |s| :: v <= s[i]
    {
      k := k - 1;
    }
    r := s[..k] + [v] + s[k..];
    SlideIn(s, v, k);
  }

  /** sortedOffsets of the columns of one width. */
  method SortedOffsets(cols: seq<Column>, w: nat) returns (s: seq<nat>)
    ensures Nondecreasing(s) && multiset(s) == multiset(Offsets(cols, w))
  {
    s := [];
    assert cols[..0] == [];
    for i := 0 to |cols|
      invariant Nondecreasing(s) && multiset(s) == multiset(Offsets(cols[..i], w))
    {
      assert cols[..i + 1] == cols[..i] + [cols[i]];
      OffsetsSnoc(cols[..i], cols[i], w);
      hide Offsets;
      if !Special(cols[i]) && cols[i].size == w {
        s := InsertSorted(s, cols[i].offset);
      }
    }
    assert cols[..|cols|] == cols;
  }

  /** One width is packed from `start`: sorted offsets against the expected ones. */
  method CheckGroup(cols: seq<Column>, start: nat, w: nat) returns (ok: bool, n: nat)
    requires w > 0
    ensures n == |Offsets(cols, w)| && (ok <==> PackedFrom(cols, start, w))
  {
    var got := SortedOffsets(cols, w);
    hide Offsets;
    SameLength(got, Offsets(cols, w));
    n := |got|;
    var want := PackedCells(start, w, n);
    PackedSorted(start, w, n);
    ok := true;
    for i := 0 to n
      invariant ok && forall j | 0 <= j < i :: got[j] == want[j]
    {
      if got[i] != want[i] {
        if PackedFrom(cols, start, w) {
          SortedUnique(got, want);
        }
        return false, n;
      }
    }
    assert got == want;
  }

  lemma PackedSorted(start: nat, w: nat, n: nat)
    requires w > 0
    ensures Nondecreasing(PackedCells(start, w, n))
  {
    forall i, j | 0 <= i < j < n
      ensures PackedCells(start, w, n)[i] <= PackedCells(start, w, n)[j]
    {
      Steps(w, i, j);
    }
  }

  /** validateIbDataGroups. */
  ghost predicate GroupsRight(cols: seq<Column>, b: Bounds) {
    var n8, n4, n2, n1 := |Offsets(cols, 8)|, |Offsets(cols, 4)|, |Offsets(cols, 2)|, |Offsets(cols, 1)|;
    && PackedFrom(cols, 8, 8) && PackedFrom(cols, 8 + 8 * n8, 4)
    && PackedFrom(cols, 8 + 8 * n8 + 4 * n4, 2) && PackedFrom(cols, 8 + 8 * n8 + 4 * n4 + 2 * n2, 1)
    && b == BoundsOf(n8, n4, n2, n1, |cols|)
  }

  method CheckGroups(cols: seq<Column>, b: Bounds) returns (ok: bool)
    ensures ok <==> GroupsRight(cols, b)
  {
    hide Offsets, PackedFrom;
    var ok8, n8 := CheckGroup(cols, 8, 8);
    if !ok8 {
      return false;
    }
    var ok4, n4 := CheckGroup(cols, 8 + 8 * n8, 4);
    if !ok4 {
      return false;
    }
    var ok2, n2 := CheckGroup(cols, 8 + 8 * n8 + 4 * n4, 2);
    if !ok2 {
      return false;
    }
    var ok1, n1 := CheckGroup(cols, 8 + 8 * n8 + 4 * n4 + 2 * n2, 1);
    return ok1 && b == BoundsOf(n8, n4, n2, n1, |cols|);
  }

  ghost predicate SpecialsRight(cols: seq<Column>) {
    && Typed(cols) && (forall i | 0 <= i < |cols| :: Placed2(cols[i]))
    && (exists i | 0 <= i < |cols| :: IsRowId(cols[i])) && exists i | 0 <= i < |cols| :: IsRowVer(cols[i])
  }

  /** validateSpecialColumns. */
  method CheckSpecials(cols: seq<Column>) returns (ok: bool)
    ensures ok <==> SpecialsRight(cols)
  {
    var hasId, hasVer := false, false;
    for i := 0 to |cols|
      invariant forall j | 0 <= j < i :: !WrongType(cols[j])
      invariant hasId <==> exists j | 0 <= j < i :: IsRowId(cols[j])
      invariant hasVer <==> exists j | 0 <= j < i :: IsRowVer(cols[j])
    {
      if WrongType(cols[i]) {
        return false;
      }
      if IsRowId(cols[i]) {
        hasId := true;
      }
      if IsRowVer(cols[i]) {
        hasVer := true;
      }
    }
    if !hasId || !hasVer {
      return false;
    }
    for i := 0 to |cols|
      invariant forall j | 0 <= j < i :: Placed2(cols[j])
    {
      if !Placed2(cols[i]) {
        return false;
      }
    }
    return true;
  }

  /** validateColumnLayout's first two checks: cell widths and rising tags. */
  method CheckShape(cols: seq<Column>) returns (ok: bool)
    ensures ok <==> (forall i | 0 <= i < |cols| :: Grouped(cols[i].size)) && TagsRise(cols)
  {
    hide Tag;
    for i := 0 to |cols|
      invariant forall j | 0 <= j < i :: Grouped(cols[j].size)
    {
      if !Grouped(cols[i].size) {
        return false;
      }
    }
    for i := 0 to |cols|
      invariant forall j, k | 0 <= j < k < i :: Tag(cols[j]) < Tag(cols[k])
    {
      if i > 0 && Tag(cols[i]) <= Tag(cols[i - 1]) {
        return false;
      }
    }
    return true;
  }

  /** The parsing loop: every column, its bit new and below the column count. */
  method ReadColumns(raw: Bytes, n: nat) returns (r: Result<seq<Column>>)
    requires INFO_FIXED + DESC_SIZE * n <= |raw|
    ensures r.Ok? ==> r.value == ColumnsAt(raw, n)
    ensures r.Ok? <==> Bits(ColumnsAt(raw, n)) && forall i | 0 <= i < n :: ColumnsAt(raw, n)[i].bit < n
  {
    hide ColumnAt;
    var cols: seq<Column> := [];
    var seen: set<nat> := {};
    for i := 0 to n
      invariant |cols| == i && cols == ColumnsAt(raw, n)[..i]
      invariant forall j | 0 <= j < i :: cols[j].bit in seen && cols[j].bit < n
      invariant forall b | b in seen :: exists j | 0 <= j < i :: cols[j].bit == b
      invariant forall j, k | 0 <= j < k < i :: cols[j].bit != cols[k].bit
    {
      var c := ColumnAt(raw, i);
      assert ColumnsAt(raw, n)[i] == c;
      if c.bit in seen {
        return Err(InvariantBroken);
      }
      if c.bit >= n {
        return Err(InvariantBroken);
      }
      seen := seen + {c.bit};
      cols := cols + [c];
    }
    assert ColumnsAt(raw, n)[..n] == ColumnsAt(raw, n);
    assert cols == ColumnsAt(raw, n) && Bits(cols);
    return Ok(cols);
  }

  /** InspectTable accepts exactly the well-formed TCINFOs, and so only columns whose cells cannot overlap. */
  method InspectTable(raw: Bytes) returns (r: Result<TableView>)
    ensures r.Ok? <==> WellFormed(raw)
    ensures r.Ok? ==> Views(raw, r.value)
  {
    hide ColumnAt, Offsets, PackedFrom, TagsRise, Placed2, Grouped, Long, Word;
    if |raw| < INFO_FIXED {
      return Err(InvariantBroken);
    }
    if raw[0] != TC_SIG {
      return Err(InvariantBroken);
    }
    var n: nat := raw[1];
    if |raw| < INFO_FIXED + DESC_SIZE * n {
      return Err(InvariantBroken);
    }
    var b := BoundsAt(raw);
    if b.b4 > b.b2 || b.b2 > b.b1 || b.b1 > b.bm {
      assert !LaidOut(ColumnsAt(raw, n), b);
      return Err(InvariantBroken);
    }
    var cols := ReadColumns(raw, n);
    if cols.Err? {
      return Err(InvariantBroken);
    }
    var shape := CheckShape(cols.value);
    if !shape {
      return Err(InvariantBroken);
    }
    var specials := CheckSpecials(cols.value);
    if !specials {
      return Err(InvariantBroken);
    }
    var groups := CheckGroups(cols.value, b);
    if !groups {
      return Err(InvariantBroken);
    }
    if Long(raw, 18) != 0 {
      return Err(InvariantBroken);
    }
    return Ok(TableView(cols.value, b, Long(raw, 10), Long(raw, 14)));
  }

  // ---------- what was written is what is read ----------

  lemma WordIn(raw: Bytes, at: nat, v: nat)
    requires at + 2 <= |raw| && v < 0x10000 && raw[at..at + 2] == LE16(v)
    ensures Word(raw, at) == v
  {
    var s := raw[at..at + 2];
    assert raw[at] == s[0] && raw[at + 1] == s[1];
  }

  lemma LongIn(raw: Bytes, at: nat, v: nat)
    requires at + 4 <= |raw| && v < 0x1_0000_0000 && raw[at..at + 4] == LE32(v)
    ensures Long(raw, at) == v
  {
    LongAt(raw[..at], v);
    var s := raw[at..at + 4];
    var p := raw[..at] + LE32(v);
    assert forall k | 0 <= k < 4 :: raw[at + k] == s[k] && p[at + k] == s[k];
    hide LE32;
  }

  lemma DescRead(raw: Bytes, k: nat, c: Column)
    requires INFO_FIXED + DESC_SIZE * k + DESC_SIZE <= |raw| && Narrow(c)
    requires raw[INFO_FIXED + DESC_SIZE * k..INFO_FIXED + DESC_SIZE * k + DESC_SIZE] == Desc(c)
    ensures ColumnAt(raw, k) == c
  {
    var o := INFO_FIXED + DESC_SIZE * k;
    var d := raw[o..o + DESC_SIZE];
    assert d[0..2] == LE16(c.kind) && d[2..4] == LE16(c.id) && d[4..6] == LE16(c.offset) && d[6] == c.size &&
      d[7] == c.bit;
    assert raw[o + 6] == d[6] && raw[o + 7] == d[7];
    hide LE16, Word, Desc;
    Within(raw, o, DESC_SIZE, 0, 2);
    Within(raw, o, DESC_SIZE, 2, 4);
    Within(raw, o, DESC_SIZE, 4, 6);
    WordIn(raw, o, c.kind);
    WordIn(raw, o + 2, c.id);
    WordIn(raw, o + 4, c.offset);
  }

  lemma Within(raw: Bytes, o: nat, w: nat, i: nat, j: nat)
    requires o + w <= |raw| && i <= j <= w
    ensures raw[o..o + w][i..j] == raw[o + i..o + j]
  {
    var a, b := raw[o..o + w][i..j], raw[o + i..o + j];
    forall k | 0 <= k < j - i
      ensures a[k] == b[k]
    {
      assert a[k] == raw[o..o + w][i + k] == raw[o + (i + k)];
      assert b[k] == raw[(o + i) + k];
    }
    assert a == b;
  }

  lemma HeadRead(n: nat, b: Bounds, rowIndex: nat, rowMatrix: nat, tail: Bytes)
    requires n < 256 && b.b4 < 0x10000 && b.b2 < 0x10000 && b.b1 < 0x10000 && b.bm < 0x10000
    requires rowIndex < 0x1_0000_0000 && rowMatrix < 0x1_0000_0000
    ensures var raw := Head(n, b, rowIndex, rowMatrix) + tail;
      && raw[0] == TC_SIG && raw[1] == n && BoundsAt(raw) == b
      && Long(raw, 10) == rowIndex && Long(raw, 14) == rowMatrix && Long(raw, 18) == 0
  {
    var h := Head(n, b, rowIndex, rowMatrix);
    var raw := h + tail;
    assert raw[2..4] == h[2..4] == LE16(b.b4);
    assert raw[4..6] == h[4..6] == LE16(b.b2);
    assert raw[6..8] == h[6..8] == LE16(b.b1);
    assert raw[8..10] == h[8..10] == LE16(b.bm);
    assert raw[10..14] == h[10..14] == LE32(rowIndex);
    assert raw[14..18] == h[14..18] == LE32(rowMatrix);
    assert raw[18..22] == h[18..22] == LE32(0);
    hide LE16, LE32, Word, Long;
    WordIn(raw, 2, b.b4);
    WordIn(raw, 4, b.b2);
    WordIn(raw, 6, b.b1);
    WordIn(raw, 8, b.bm);
    LongIn(raw, 10, rowIndex);
    LongIn(raw, 14, rowMatrix);
    LongIn(raw, 18, 0);
  }

  lemma ColumnsRead(cols: seq<Column>, b: Bounds, rowIndex: nat, rowMatrix: nat)
    requires forall i | 0 <= i < |cols| :: Narrow(cols[i])
    ensures |InfoBytes(cols, b, rowIndex, rowMatrix)| == INFO_FIXED + DESC_SIZE * |cols|
    ensures ColumnsAt(InfoBytes(cols, b, rowIndex, rowMatrix), |cols|) == cols
  {
    hide Head, Flat, Desc, Descs, Narrow;
    InfoSize(cols, b, rowIndex, rowMatrix);
    var raw := InfoBytes(cols, b, rowIndex, rowMatrix);
    var h, f := Head(|cols|, b, rowIndex, rowMatrix), Flat(Descs(cols));
    forall k | 0 <= k < |cols|
      ensures ColumnAt(raw, k) == cols[k]
    {
      RowAt(Descs(cols), DESC_SIZE, k);
      assert Descs(cols)[k] == Desc(cols[k]) by {
        DescsAt(cols, k);
      }
      assert raw[INFO_FIXED + DESC_SIZE * k..INFO_FIXED + DESC_SIZE * k + DESC_SIZE] ==
        f[k * DESC_SIZE..k * DESC_SIZE + DESC_SIZE];
      hide ColumnAt;
      DescRead(raw, k, cols[k]);
    }
    hide ColumnAt;
  }

  lemma DescsAt(cols: seq<Column>, k: nat)
    requires k < |cols|
    ensures Descs(cols)[k] == Desc(cols[k])
  {
  }

  /** A layout's numbers fit their fields. */
  lemma LaidOutNarrow(cols: seq<Column>, b: Bounds)
    requires LaidOut(cols, b) && |cols| <= MAX_COLUMNS && forall i | 0 <= i < |cols| ::
      cols[i].kind < 0x10000 && cols[i].id < 0x10000
    ensures b.b4 <= b.b2 <= b.b1 <= b.bm < 0x10000 && forall i | 0 <= i < |cols| :: Narrow(cols[i])
  {
    hide Offsets, PackedFrom, Placed2;
    forall i | 0 <= i < |cols|
      ensures Narrow(cols[i])
    {
      CellInside(cols, b, i);
    }
  }

  /** What writeTCINFO writes for a layout, InspectTable accepts and reads back. */
  lemma InfoReadsBack(cols: seq<Column>, sorted: seq<Column>, b: Bounds, rowIndex: nat, rowMatrix: nat)
    requires LaidOut(cols, b) && Typed(cols) && |cols| <= MAX_COLUMNS && TagsRise(sorted) &&
      multiset(sorted) == multiset(cols)
    requires forall i | 0 <= i < |cols| :: cols[i].kind < 0x10000 && cols[i].id < 0x10000
    requires rowIndex < 0x1_0000_0000 && rowMatrix < 0x1_0000_0000
    ensures Views(InfoBytes(sorted, b, rowIndex, rowMatrix), TableView(sorted, b, rowIndex, rowMatrix))
  {
    LaidOutPermutes(cols, sorted, b);
    SameLength(sorted, cols);
    SameElements(sorted, cols);
    assert forall i | 0 <= i < |sorted| :: sorted[i] in cols;
    assert Typed(sorted);
    LaidOutNarrow(sorted, b);
    hide LaidOut, TagsRise, Head, Flat, Narrow, ColumnsAt, Typed, Long, Word;
    ColumnsRead(sorted, b, rowIndex, rowMatrix);
    HeadRead(|sorted|, b, rowIndex, rowMatrix, Flat(Descs(sorted)));
  }
}
