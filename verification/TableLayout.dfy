/** Table Context columns: assigning row offsets, writing TCINFO and inspecting it (inspect_table.go). */
module TableLayout {
  import opened Common
  import opened HeapOnNode
  import opened BTreeOnHeap

  const INTEGER16: nat := 0x0002
  const INTEGER32: nat := 0x0003
  const FLOATING32: nat := 0x0004
  const FLOATING64: nat := 0x0005
  const CURRENCY: nat := 0x0006
  const ERROR_CODE: nat := 0x000A
  const BOOLEAN: nat := 0x000B
  const OBJECT: nat := 0x000D
  const INTEGER64: nat := 0x0014
  const TIME: nat := 0x0040
  const ROW_ID: nat := 0x67F2
  const ROW_VER: nat := 0x67F3
  const MAX_COLUMNS: nat := 255
  const TC_SIG: byte := 0x7C
  const INFO_FIXED: nat := 22
  const DESC_SIZE: nat := 8

  /** TCOLDESC. */
  datatype Column = Column(kind: nat, id: nat, offset: nat, size: nat, bit: nat)

  /** The fields are as wide as the format's. */
  predicate Narrow(c: Column) {
    c.kind < 0x10000 && c.id < 0x10000 && c.offset < 0x10000 && c.size < 256 && c.bit < 256
  }

  function Tag(c: Column): nat {
    c.kind + c.id * 0x10000
  }

  predicate IsRowId(c: Column) {
    c.kind == INTEGER32 && c.id == ROW_ID
  }

  predicate IsRowVer(c: Column) {
    c.kind == INTEGER32 && c.id == ROW_VER
  }

  predicate Special(c: Column) {
    IsRowId(c) || IsRowVer(c)
  }

  predicate WrongType(c: Column) {
    (c.id == ROW_ID || c.id == ROW_VER) && c.kind != INTEGER32
  }

  predicate Grouped(size: nat) {
    size == 8 || size == 4 || size == 2 || size == 1
  }

  // ---------- what a layout is ----------

  /** Offsets of the ordinary columns of one width, in column order. */
  function Offsets(cols: seq<Column>, w: nat): (r: seq<nat>)
    ensures |r| <= |cols|
  {
    if cols == [] then []
    else
      var c := cols[|cols| - 1];
      var rest := Offsets(cols[..|cols| - 1], w);
      if !Special(c) && c.size == w then rest + [c.offset] else rest
  }

  /** `n` cells of width `w` side by side. */
  function PackedCells(start: nat, w: nat, n: nat): (r: seq<nat>)
    ensures |r| == n && forall k | 0 <= k < n :: r[k] == start + w * k
  {
    seq(n, k requires 0 <= k < n => start + w * k)
  }

  function CebSize(n: nat): nat {
    (n + 7) / 8
  }

  /** The four group boundaries of TCINFO. */
  datatype Bounds = Bounds(b4: nat, b2: nat, b1: nat, bm: nat)

  function BoundsOf(n8: nat, n4: nat, n2: nat, n1: nat, n: nat): Bounds {
    var b4 := 8 + 8 * n8 + 4 * n4;
    Bounds(b4, b4 + 2 * n2, b4 + 2 * n2 + n1, b4 + 2 * n2 + n1 + CebSize(n))
  }

  /** One width's cells are packed from `start`, in some order. */
  ghost predicate PackedFrom(cols: seq<Column>, start: nat, w: nat) {
    multiset(Offsets(cols, w)) == multiset(PackedCells(start, w, |Offsets(cols, w)|))
  }

  /** The two row columns in their fixed places, everything else after them. */
  predicate Placed2(c: Column) {
    if IsRowId(c) then c.size == 4 && c.offset == 0 && c.bit == 0
    else if IsRowVer(c) then c.size == 4 && c.offset == 4 && c.bit == 1
    else c.bit != 0 && c.bit != 1 && c.offset >= 8
  }

  /** A row layout: existence bits all different, the row columns first, then the cells group by group without gaps. */
  ghost predicate LaidOut(cols: seq<Column>, b: Bounds) {
    && (forall i | 0 <= i < |cols| :: Grouped(cols[i].size) && Placed2(cols[i]) && cols[i].bit < |cols|)
    && (forall i, j | 0 <= i < j < |cols| :: cols[i].bit != cols[j].bit)
    && (exists i | 0 <= i < |cols| :: IsRowId(cols[i])) && (exists i | 0 <= i < |cols| :: IsRowVer(cols[i]))
    && var n8, n4, n2, n1 := |Offsets(cols, 8)|, |Offsets(cols, 4)|, |Offsets(cols, 2)|, |Offsets(cols, 1)|;
       && PackedFrom(cols, 8, 8) && PackedFrom(cols, 8 + 8 * n8, 4)
       && PackedFrom(cols, 8 + 8 * n8 + 4 * n4, 2) && PackedFrom(cols, 8 + 8 * n8 + 4 * n4 + 2 * n2, 1)
       && b == BoundsOf(n8, n4, n2, n1, |cols|)
  }

  /** The row columns have their right type. */
  ghost predicate Typed(cols: seq<Column>) {
    forall i | 0 <= i < |cols| :: !WrongType(cols[i])
  }

  ghost predicate TagsRise(cols: seq<Column>) {
    forall i, j | 0 <= i < j < |cols| :: Tag(cols[i]) < Tag(cols[j])
  }

  // ---------- cells never overlap ----------

  lemma {:induction false} OffsetsAt(cols: seq<Column>, w: nat, i: nat)
    requires i < |cols| && !Special(cols[i]) && cols[i].size == w
    ensures cols[i].offset in multiset(Offsets(cols, w)) && |Offsets(cols, w)| > 0
  {
    var n := |cols| - 1;
    if i < n {
      OffsetsAt(cols[..n], w, i);
    }
  }

  lemma {:induction false} OffsetsTwice(cols: seq<Column>, w: nat, i: nat, j: nat)
    requires i < j < |cols| && !Special(cols[i]) && !Special(cols[j]) && cols[i].size == w == cols[j].size
    requires cols[i].offset == cols[j].offset
    ensures multiset(Offsets(cols, w))[cols[i].offset] >= 2
  {
    var n := |cols| - 1;
    if j < n {
      OffsetsTwice(cols[..n], w, i, j);
    } else {
      OffsetsAt(cols[..n], w, i);
    }
  }

  lemma {:induction false} RisingOnce(s: seq<nat>, v: nat)
    requires forall i, j | 0 <= i < j < |s| :: s[i] < s[j]
    ensures multiset(s)[v] <= 1
  {
    if s != [] {
      var n := |s| - 1;
      RisingOnce(s[..n], v);
      assert s == s[..n] + [s[n]];
      if v == s[n] {
        assert v !in s[..n];
      }
    }
  }

  lemma Steps(w: nat, i: nat, j: nat)
    requires w > 0 && i < j
    ensures w * i + w <= w * j
  {
    assert w * j == w * (i + 1) + w * (j - i - 1);
  }

  lemma PackedOnce(start: nat, w: nat, n: nat, v: nat)
    requires w > 0
    ensures multiset(PackedCells(start, w, n))[v] <= 1
  {
    var s := PackedCells(start, w, n);
    forall i, j | 0 <= i < j < |s|
      ensures s[i] < s[j]
    {
      Steps(w, i, j);
    }
    RisingOnce(s, v);
  }

  /** Which of the packed cells of its width a column has. */
  lemma GroupSpan(cols: seq<Column>, start: nat, w: nat, i: nat) returns (k: nat)
    requires w > 0 && PackedFrom(cols, start, w) && i < |cols| && !Special(cols[i]) && cols[i].size == w
    ensures k < |Offsets(cols, w)| && cols[i].offset == start + w * k
    ensures start <= cols[i].offset && cols[i].offset + w <= start + w * |Offsets(cols, w)|
  {
    OffsetsAt(cols, w, i);
    var s := PackedCells(start, w, |Offsets(cols, w)|);
    assert cols[i].offset in s;
    k :| 0 <= k < |s| && s[k] == cols[i].offset;
    Steps(w, k, |s|);
  }

  lemma SameGroupApart(cols: seq<Column>, start: nat, w: nat, i: nat, j: nat)
    requires w > 0 && PackedFrom(cols, start, w) && i < j < |cols|
    requires !Special(cols[i]) && !Special(cols[j]) && cols[i].size == w == cols[j].size
    ensures cols[i].offset + w <= cols[j].offset || cols[j].offset + w <= cols[i].offset
  {
    var a := GroupSpan(cols, start, w, i);
    var b := GroupSpan(cols, start, w, j);
    if a < b {
      Steps(w, a, b);
    } else if b < a {
      Steps(w, b, a);
    } else {
      OffsetsTwice(cols, w, i, j);
      PackedOnce(start, w, |Offsets(cols, w)|, cols[i].offset);
    }
  }

  /** The stretch of the row that holds the cells of one width. */
  function SpanStart(cols: seq<Column>, w: nat): nat {
    if w == 8 then 8 else if w == 4 then 8 + 8 * |Offsets(cols, 8)|
    else if w == 2 then 8 + 8 * |Offsets(cols, 8)| + 4 * |Offsets(cols, 4)|
    else 8 + 8 * |Offsets(cols, 8)| + 4 * |Offsets(cols, 4)| + 2 * |Offsets(cols, 2)|
  }

  lemma ColumnSpan(cols: seq<Column>, b: Bounds, i: nat)
    requires LaidOut(cols, b) && i < |cols| && !Special(cols[i])
    ensures var w := cols[i].size;
      && Grouped(w) && SpanStart(cols, w) <= cols[i].offset &&
         cols[i].offset + w <= SpanStart(cols, w) + w * |Offsets(cols, w)|
  {
    hide Offsets;
    var k := GroupSpan(cols, SpanStart(cols, cols[i].size), cols[i].size, i);
  }

  /** Any two cells of a laid-out row occupy different bytes, and all of them come before the existence bits. */
  lemma CellsApart(cols: seq<Column>, b: Bounds, i: nat, j: nat)
    requires LaidOut(cols, b) && i < |cols| && j < |cols| && i != j
    ensures cols[i].offset + cols[i].size <= b.b1 && b.b1 + CebSize(|cols|) == b.bm
    ensures cols[i].offset + cols[i].size <= cols[j].offset || cols[j].offset + cols[j].size <= cols[i].offset
  {
    hide Offsets, Tag;
    assert cols[i].bit != cols[j].bit;
    if !Special(cols[i]) {
      ColumnSpan(cols, b, i);
    }
    if !Special(cols[j]) {
      ColumnSpan(cols, b, j);
    }
    if !Special(cols[i]) && !Special(cols[j]) && cols[i].size == cols[j].size {
      var w := cols[i].size;
      if i < j {
        SameGroupApart(cols, SpanStart(cols, w), w, i, j);
      } else {
        SameGroupApart(cols, SpanStart(cols, w), w, j, i);
      }
    }
    hide PackedFrom;
  }

  /** Every cell lies before the existence bits, and every bit inside them. */
  lemma CellInside(cols: seq<Column>, b: Bounds, i: nat)
    requires LaidOut(cols, b) && i < |cols|
    ensures cols[i].offset + cols[i].size <= b.b1 && b.b1 + CebSize(|cols|) == b.bm && b.b1 + cols[i].bit / 8 < b.bm
  {
    hide Offsets;
    if !Special(cols[i]) {
      ColumnSpan(cols, b, i);
    }
    hide PackedFrom;
  }

  // ---------- columns in another order ----------

  /** The contribution of one column. */
  function Own(c: Column, w: nat): (r: seq<nat>)
  {
    if !Special(c) && c.size == w then [c.offset] else []
  }

  lemma OffsetsSnoc(a: seq<Column>, c: Column, w: nat)
    ensures Offsets(a + [c], w) == Offsets(a, w) + Own(c, w)
  {
    assert (a + [c])[..|a|] == a;
  }

  lemma {:induction false} OffsetsAppend(a: seq<Column>, c: Column, b: seq<Column>, w: nat)
    ensures multiset(Offsets(a + [c] + b, w)) == multiset(Offsets(a + b, w)) + multiset(Own(c, w))
    decreases |b|
  {
    hide Offsets, Own;
    if b == [] {
      assert a + [c] + b == a + [c] && a + b == a;
      OffsetsSnoc(a, c, w);
    } else {
      var n := |b| - 1;
      OffsetsAppend(a, c, b[..n], w);
      OffsetsSnoc(a + [c] + b[..n], b[n], w);
      OffsetsSnoc(a + b[..n], b[n], w);
      assert a + [c] + b[..n] + [b[n]] == a + [c] + b && a + b[..n] + [b[n]] == a + b;
    }
  }

  lemma TakeOut<T>(a: seq<T>, b: seq<T>, k: nat)
    requires a != [] && multiset(a) == multiset(b) && k < |b| && b[k] == a[|a| - 1]
    ensures multiset(a[..|a| - 1]) == multiset(b[..k] + b[k + 1..])
  {
    assert a == a[..|a| - 1] + [b[k]];
    assert b == b[..k] + [b[k]] + b[k + 1..];
    assert multiset(b[..k] + b[k + 1..]) == multiset(b) - multiset{b[k]};
  }

  lemma OffsetsLast(a: seq<Column>, w: nat)
    requires a != []
    ensures multiset(Offsets(a, w)) == multiset(Offsets(a[..|a| - 1], w)) + multiset(Own(a[|a| - 1], w))
  {
    hide Offsets, Own;
    assert a[..|a| - 1] + [a[|a| - 1]] == a;
    OffsetsSnoc(a[..|a| - 1], a[|a| - 1], w);
  }

  lemma OffsetsMiddle(b: seq<Column>, k: nat, w: nat)
    requires k < |b|
    ensures multiset(Offsets(b, w)) == multiset(Offsets(b[..k] + b[k + 1..], w)) + multiset(Own(b[k], w))
  {
    hide Offsets, Own;
    assert b[..k] + [b[k]] + b[k + 1..] == b;
    OffsetsAppend(b[..k], b[k], b[k + 1..], w);
  }

  /** The offsets of one width do not depend on the order of the columns. */
  lemma {:induction false} OffsetsPermute(a: seq<Column>, b: seq<Column>, w: nat)
    requires multiset(a) == multiset(b)
    ensures multiset(Offsets(a, w)) == multiset(Offsets(b, w))
    decreases |a|
  {
    if a == [] {
      assert |multiset(b)| == 0;
    } else {
      hide Offsets;
      var n := |a| - 1;
      assert a[n] in multiset(b);
      var k :| 0 <= k < |b| && b[k] == a[n];
      TakeOut(a, b, k);
      OffsetsPermute(a[..n], b[..k] + b[k + 1..], w);
      OffsetsLast(a, w);
      OffsetsMiddle(b, k, w);
    }
  }

  lemma SameLength<T>(a: seq<T>, b: seq<T>)
    requires multiset(a) == multiset(b)
    ensures |a| == |b|
  {
    assert |multiset(a)| == |multiset(b)|;
  }

  ghost predicate Bits(cols: seq<Column>) {
    forall i, j | 0 <= i < j < |cols| :: cols[i].bit != cols[j].bit
  }

  lemma {:induction false} ColumnOnce(cols: seq<Column>, c: Column)
    requires Bits(cols)
    ensures multiset(cols)[c] <= 1
  {
    if cols != [] {
      var n := |cols| - 1;
      ColumnOnce(cols[..n], c);
      assert cols == cols[..n] + [cols[n]];
    }
  }

  lemma {:induction false} TwicePresent<T>(s: seq<T>, i: nat, j: nat)
    requires i < j < |s| && s[i] == s[j]
    ensures multiset(s)[s[i]] >= 2
  {
    assert s == s[..j] + [s[j]] + s[j + 1..];
    assert s[i] in s[..j];
  }

  lemma BitsPermute(a: seq<Column>, b: seq<Column>)
    requires multiset(a) == multiset(b) && Bits(a)
    ensures Bits(b)
  {
    SameElements(a, b);
    forall i, j | 0 <= i < j < |b|
      ensures b[i].bit != b[j].bit
    {
      assert b[i] in a && b[j] in a;
      ColumnOnce(a, b[i]);
      if b[i] == b[j] {
        TwicePresent(b, i, j);
      }
    }
  }

  lemma GroupPermutes(a: seq<Column>, b: seq<Column>, w: nat)
    requires multiset(a) == multiset(b)
    ensures multiset(Offsets(a, w)) == multiset(Offsets(b, w)) && |Offsets(a, w)| == |Offsets(b, w)|
  {
    hide Offsets;
    OffsetsPermute(a, b, w);
    SameLength(Offsets(a, w), Offsets(b, w));
  }

  lemma ColumnsPermute(a: seq<Column>, b: seq<Column>, bounds: Bounds)
    requires LaidOut(a, bounds) && multiset(a) == multiset(b)
    ensures forall i | 0 <= i < |b| :: Grouped(b[i].size) && Placed2(b[i]) && b[i].bit < |b|
    ensures (exists i | 0 <= i < |b| :: IsRowId(b[i])) && exists i | 0 <= i < |b| :: IsRowVer(b[i])
    ensures |a| == |b| && Bits(b)
  {
    hide Offsets, Placed2, Grouped, IsRowId, IsRowVer, PackedFrom;
    assert Bits(a);
    BitsPermute(a, b);
    SameLength(a, b);
    SameElements(a, b);
    var x :| 0 <= x < |a| && IsRowId(a[x]);
    var y :| 0 <= y < |a| && IsRowVer(a[y]);
    assert a[x] in b && a[y] in b;
    forall i | 0 <= i < |b|
      ensures Grouped(b[i].size) && Placed2(b[i]) && b[i].bit < |b|
    {
      assert b[i] in a;
    }
  }

  /** Sorting the columns by tag leaves the layout as it was. */
  lemma LaidOutPermutes(a: seq<Column>, b: seq<Column>, bounds: Bounds)
    requires LaidOut(a, bounds) && multiset(a) == multiset(b)
    ensures LaidOut(b, bounds)
  {
    hide Offsets, Placed2, Grouped, IsRowId, IsRowVer, PackedFrom;
    ColumnsPermute(a, b, bounds);
    GroupPermutes(a, b, 8);
    GroupPermutes(a, b, 4);
    GroupPermutes(a, b, 2);
    GroupPermutes(a, b, 1);
    PackedPermutes(a, b, SpanStart(a, 8), 8);
    PackedPermutes(a, b, SpanStart(a, 4), 4);
    PackedPermutes(a, b, SpanStart(a, 2), 2);
    PackedPermutes(a, b, SpanStart(a, 1), 1);
  }

  lemma PackedPermutes(a: seq<Column>, b: seq<Column>, start: nat, w: nat)
    requires multiset(Offsets(a, w)) == multiset(Offsets(b, w)) && |Offsets(a, w)| == |Offsets(b, w)| &&
      PackedFrom(a, start, w)
    ensures PackedFrom(b, start, w)
  {
    hide Offsets;
  }

  lemma SameElements<T>(a: seq<T>, b: seq<T>)
    requires multiset(a) == multiset(b)
    ensures forall x :: x in a <==> x in b
  {
    assert forall x :: x in a <==> x in multiset(a);
    assert forall x :: x in b <==> x in multiset(b);
  }

  // ---------- assigning a layout ----------

  /** Where the ordinary columns of one width stand. */
  function Positions(cols: seq<Column>, w: nat): (r: seq<nat>)
    ensures forall k | 0 <= k < |r| :: r[k] < |cols| && !Special(cols[r[k]]) && cols[r[k]].size == w
    ensures forall j, k | 0 <= j < k < |r| :: r[j] < r[k]
  {
    if cols == [] then []
    else
      var n := |cols| - 1;
      var rest := Positions(cols[..n], w);
      if !Special(cols[n]) && cols[n].size == w then rest + [n] else rest
  }

  lemma {:induction false} PositionsCover(cols: seq<Column>, w: nat, i: nat) returns (k: nat)
    requires i < |cols| && !Special(cols[i]) && cols[i].size == w
    ensures k < |Positions(cols, w)| && Positions(cols, w)[k] == i
  {
    var n := |cols| - 1;
    if i < n {
      k := PositionsCover(cols[..n], w, i);
    } else {
      k := |Positions(cols, w)| - 1;
    }
  }

  lemma {:induction false} OffsetsArePositions(cols: seq<Column>, w: nat)
    ensures |Offsets(cols, w)| == |Positions(cols, w)|
    ensures forall k | 0 <= k < |Positions(cols, w)| :: Offsets(cols, w)[k] == cols[Positions(cols, w)[k]].offset
  {
    if cols != [] {
      OffsetsArePositions(cols[..|cols| - 1], w);
    }
  }

  /** Offsets and bits may change; what a column is may not. */
  ghost predicate SameColumns(a: seq<Column>, b: seq<Column>) {
    |a| == |b| && forall i | 0 <= i < |a| :: b[i] == a[i].(offset := b[i].offset, bit := b[i].bit)
  }

  lemma {:induction false} SamePositions(a: seq<Column>, b: seq<Column>, w: nat)
    requires SameColumns(a, b)
    ensures Positions(a, w) == Positions(b, w)
  {
    if a != [] {
      var n := |a| - 1;
      SamePositions(a[..n], b[..n], w);
    }
  }

  /** Cells of one width, one after the other. */
  method AssignGroup(cols: seq<Column>, idxs: seq<nat>, w: nat, off: nat, bit: nat) returns (out: seq<Column>)
    requires forall k | 0 <= k < |idxs| :: idxs[k] < |cols|
    requires forall j, k | 0 <= j < k < |idxs| :: idxs[j] < idxs[k]
    ensures Grew(cols, out, idxs, w, off, bit) && |out| == |cols|
  {
    out := cols;
    var at := off;
    for k := 0 to |idxs|
      invariant SameColumns(cols, out) && at == off + w * k
      invariant forall j | 0 <= j < k :: out[idxs[j]].offset == off + w * j && out[idxs[j]].bit == bit + j
      invariant forall i | 0 <= i < |cols| && i !in idxs[..k] :: out[i] == cols[i]
    {
      var i := idxs[k];
      out := out[i := out[i].(offset := at, bit := bit + k)];
      assert idxs[..k + 1] == idxs[..k] + [i];
      BTreeOnHeap.Successor(k, w);
      assert w * (k + 1) == at - off + w;
      at := at + w;
    }
    assert idxs[..|idxs|] == idxs;
  }

  /** Every width is one of the four, and each row column is there once, four bytes wide. */
  ghost predicate Assignable(cols: seq<Column>) {
    && (forall i | 0 <= i < |cols| :: Grouped(cols[i].size) && (Special(cols[i]) ==> cols[i].size == 4))
    && (exists i | 0 <= i < |cols| :: IsRowId(cols[i])) && (exists i | 0 <= i < |cols| :: IsRowVer(cols[i]))
    && (forall i, j | 0 <= i < j < |cols| ::
        !(IsRowId(cols[i]) && IsRowId(cols[j])) && !(IsRowVer(cols[i]) && IsRowVer(cols[j])))
  }

  datatype Scan = Scan(rowId: int, rowVer: int, g8: seq<nat>, g4: seq<nat>, g2: seq<nat>, g1: seq<nat>)

  /** What the classification loop knows after `cols`. */
  ghost predicate Scanned(cols: seq<Column>, s: Scan) {
    && -1 <= s.rowId < |cols| && -1 <= s.rowVer < |cols|
    && (forall i | 0 <= i < |cols| :: IsRowId(cols[i]) <==> i == s.rowId)
    && (forall i | 0 <= i < |cols| :: IsRowVer(cols[i]) <==> i == s.rowVer)
    && (forall i | 0 <= i < |cols| :: Grouped(cols[i].size) && (Special(cols[i]) ==> cols[i].size == 4))
    && s.g8 == Positions(cols, 8) && s.g4 == Positions(cols, 4) && s.g2 == Positions(cols, 2) &&
       s.g1 == Positions(cols, 1)
    && |cols| == (if s.rowId >= 0 then 1 else 0) + (if s.rowVer >= 0 then 1 else 0) + |s.g8| + |s.g4| + |s.g2| + |s.g1|
  }

  lemma ScanStep(cols: seq<Column>, s: Scan, i: nat, s': Scan)
    requires i < |cols| && Scanned(cols[..i], s) && Grouped(cols[i].size)
    requires IsRowId(cols[i]) ==> s.rowId < 0 && cols[i].size == 4 && s' == s.(rowId := i)
    requires IsRowVer(cols[i]) ==> s.rowVer < 0 && cols[i].size == 4 && s' == s.(rowVer := i)
    requires !Special(cols[i]) ==> s' == s.(g8 := if cols[i].size == 8 then s.g8 + [i] else s.g8,
                                            g4 := if cols[i].size == 4 then s.g4 + [i] else s.g4,
                                            g2 := if cols[i].size == 2 then s.g2 + [i] else s.g2,
                                            g1 := if cols[i].size == 1 then s.g1 + [i] else s.g1)
    ensures Scanned(cols[..i + 1], s')
  {
    assert cols[..i + 1][..i] == cols[..i];
    PositionsSnoc(cols, i, 8);
    PositionsSnoc(cols, i, 4);
    PositionsSnoc(cols, i, 2);
    PositionsSnoc(cols, i, 1);
    hide Positions;
  }

  lemma PositionsSnoc(cols: seq<Column>, i: nat, w: nat)
    requires i < |cols|
    ensures Positions(cols[..i + 1], w) == Positions(cols[..i], w) +
      if !Special(cols[i]) && cols[i].size == w then [i] else []
  {
    assert cols[..i + 1][..i] == cols[..i];
  }

  /** The first pass of assignColumnLayout. */
  method Classify(cols: seq<Column>) returns (r: Result<Scan>)
    ensures r.Ok? ==> Scanned(cols, r.value) && r.value.rowId >= 0 && r.value.rowVer >= 0
    ensures r.Ok? <==> Assignable(cols)
  {
    hide Positions, Scanned;
    var s := Scan(-1, -1, [], [], [], []);
    ScanNone();
    assert cols[..0] == [];
    for i := 0 to |cols|
      invariant Scanned(cols[..i], s)
    {
      var c := cols[i];
      if !Grouped(c.size) {
        return Err(InvalidArg);
      }
      ghost var before := s;
      if IsRowId(c) {
        if s.rowId >= 0 || c.size != 4 {
          NotAssignable(cols, s, i);
          return Err(InvalidArg);
        }
        s := s.(rowId := i);
      } else if IsRowVer(c) {
        if s.rowVer >= 0 || c.size != 4 {
          NotAssignable(cols, s, i);
          return Err(InvalidArg);
        }
        s := s.(rowVer := i);
      } else if c.size == 8 {
        s := s.(g8 := s.g8 + [i]);
      } else if c.size == 4 {
        s := s.(g4 := s.g4 + [i]);
      } else if c.size == 2 {
        s := s.(g2 := s.g2 + [i]);
      } else {
        s := s.(g1 := s.g1 + [i]);
      }
      ScanStep(cols, before, i, s);
    }
    assert cols[..|cols|] == cols;
    ScanDone(cols, s);
    if s.rowId < 0 || s.rowVer < 0 {
      return Err(InvalidArg);
    }
    return Ok(s);
  }

  lemma ScanNone()
    ensures Scanned([], Scan(-1, -1, [], [], [], []))
  {
  }

  lemma NotAssignable(cols: seq<Column>, s: Scan, i: nat)
    requires i < |cols| && Scanned(cols[..i], s)
    requires (IsRowId(cols[i]) && s.rowId >= 0) || (IsRowVer(cols[i]) && s.rowVer >= 0) ||
      (Special(cols[i]) && cols[i].size != 4)
    ensures !Assignable(cols)
  {
    hide Positions;
    assert s.rowId >= 0 ==> IsRowId(cols[..i][s.rowId]);
    assert s.rowVer >= 0 ==> IsRowVer(cols[..i][s.rowVer]);
  }

  lemma ScanDone(cols: seq<Column>, s: Scan)
    requires Scanned(cols, s)
    ensures Assignable(cols) <==> s.rowId >= 0 && s.rowVer >= 0
  {
    hide Positions;
    assert s.rowId >= 0 ==> IsRowId(cols[s.rowId]);
    assert s.rowVer >= 0 ==> IsRowVer(cols[s.rowVer]);
  }

  /** The cells of one width are placed. */
  ghost predicate GroupDone(cols: seq<Column>, w: nat, off: nat, bit: nat) {
    var p := Positions(cols, w);
    forall k | 0 <= k < |p| :: cols[p[k]].offset == off + w * k && cols[p[k]].bit == bit + k
  }

  ghost predicate RowColumnsDone(cols: seq<Column>) {
    forall i | 0 <= i < |cols| && Special(cols[i]) :: Placed2(cols[i])
  }

  lemma GroupAssigned(a: seq<Column>, b: seq<Column>, idxs: seq<nat>, w: nat, off: nat, bit: nat)
    requires SameColumns(a, b) && idxs == Positions(a, w)
    requires forall k | 0 <= k < |idxs| :: b[idxs[k]].offset == off + w * k && b[idxs[k]].bit == bit + k
    ensures GroupDone(b, w, off, bit)
  {
    SamePositions(a, b, w);
    hide Positions;
  }

  /** Placing one width leaves the others and the row columns alone. */
  lemma OthersKept(a: seq<Column>, b: seq<Column>, w: nat, v: nat, off: nat, bit: nat)
    requires SameColumns(a, b) && v != w
    requires forall i | 0 <= i < |a| && i !in Positions(a, w) :: b[i] == a[i]
    ensures GroupDone(a, v, off, bit) ==> GroupDone(b, v, off, bit)
    ensures RowColumnsDone(a) ==> RowColumnsDone(b)
  {
    SamePositions(a, b, v);
    hide Positions;
  }

  lemma GroupPacked(cols: seq<Column>, w: nat, off: nat, bit: nat)
    requires GroupDone(cols, w, off, bit)
    ensures PackedFrom(cols, off, w) && |Offsets(cols, w)| == |Positions(cols, w)|
  {
    OffsetsArePositions(cols, w);
    hide Positions, Offsets;
    assert Offsets(cols, w) == PackedCells(off, w, |Offsets(cols, w)|);
  }

  /** Which bit a placed column has. */
  lemma BitOf(cols: seq<Column>, w: nat, off: nat, bit: nat, i: nat) returns (k: nat)
    requires GroupDone(cols, w, off, bit) && i < |cols| && !Special(cols[i]) && cols[i].size == w
    ensures k < |Positions(cols, w)| && Positions(cols, w)[k] == i && cols[i].offset == off + w * k &&
      cols[i].bit == bit + k
  {
    k := PositionsCover(cols, w, i);
    hide Positions;
  }

  /** All four widths placed one after the other, from bit 2 and offset 8 on. */
  ghost predicate AllDone(cols: seq<Column>, n8: nat, n4: nat, n2: nat, n1: nat) {
    && GroupDone(cols, 8, 8, 2) && GroupDone(cols, 4, 8 + 8 * n8, 2 + n8)
    && GroupDone(cols, 2, 8 + 8 * n8 + 4 * n4, 2 + n8 + n4) &&
       GroupDone(cols, 1, 8 + 8 * n8 + 4 * n4 + 2 * n2, 2 + n8 + n4 + n2)
    && RowColumnsDone(cols)
    && n8 == |Positions(cols, 8)| && n4 == |Positions(cols, 4)| && n2 == |Positions(cols, 2)| &&
       n1 == |Positions(cols, 1)|
    && |cols| == 2 + n8 + n4 + n2 + n1
  }

  lemma RankBase(cols: seq<Column>, n8: nat, n4: nat, n2: nat, n1: nat, i: nat) returns (base: nat, k: nat)
    requires AllDone(cols, n8, n4, n2, n1) && i < |cols| && !Special(cols[i]) && Grouped(cols[i].size)
    ensures var w := cols[i].size;
      && base == (if w == 8 then 2 else if w == 4 then 2 + n8 else if w == 2 then 2 + n8 + n4 else 2 + n8 + n4 + n2)
      && k < (if w == 8 then n8 else if w == 4 then n4 else if w == 2 then n2 else n1)
      && cols[i].bit == base + k && k < |Positions(cols, w)| && Positions(cols, w)[k] == i && cols[i].offset >= 8
  {
    hide Positions, GroupDone, Special;
    var w := cols[i].size;
    base := if w == 8 then 2 else if w == 4 then 2 + n8 else if w == 2 then 2 + n8 + n4 else 2 + n8 + n4 + n2;
    var off := if w == 8 then 8 else if w == 4 then 8 + 8 * n8 else if w == 2 then 8 + 8 * n8 + 4 * n4
      else 8 + 8 * n8 + 4 * n4 + 2 * n2;
    k := BitOf(cols, w, off, base, i);
  }

  lemma BitsDiffer(cols: seq<Column>, n8: nat, n4: nat, n2: nat, n1: nat, i: nat, j: nat)
    requires AllDone(cols, n8, n4, n2, n1) && i < j < |cols| && Grouped(cols[i].size) && Grouped(cols[j].size)
    requires !(IsRowId(cols[i]) && IsRowId(cols[j])) && !(IsRowVer(cols[i]) && IsRowVer(cols[j]))
    ensures cols[i].bit != cols[j].bit
  {
    hide Positions, GroupDone;
    if !Special(cols[i]) {
      var b, k := RankBase(cols, n8, n4, n2, n1, i);
      if !Special(cols[j]) {
        var c, l := RankBase(cols, n8, n4, n2, n1, j);
      }
    } else if !Special(cols[j]) {
      var c, l := RankBase(cols, n8, n4, n2, n1, j);
    }
  }

  lemma DoneIsLaidOut(cols: seq<Column>, n8: nat, n4: nat, n2: nat, n1: nat)
    requires AllDone(cols, n8, n4, n2, n1) && Assignable(cols)
    ensures LaidOut(cols, BoundsOf(n8, n4, n2, n1, |cols|))
  {
    hide Positions, Offsets, PackedFrom;
    GroupPacked(cols, 8, 8, 2);
    GroupPacked(cols, 4, 8 + 8 * n8, 2 + n8);
    GroupPacked(cols, 2, 8 + 8 * n8 + 4 * n4, 2 + n8 + n4);
    GroupPacked(cols, 1, 8 + 8 * n8 + 4 * n4 + 2 * n2, 2 + n8 + n4 + n2);
    hide GroupDone;
    forall i | 0 <= i < |cols|
      ensures Placed2(cols[i]) && cols[i].bit < |cols|
    {
      if !Special(cols[i]) {
        var b, k := RankBase(cols, n8, n4, n2, n1, i);
      }
    }
    forall i, j | 0 <= i < j < |cols|
      ensures cols[i].bit != cols[j].bit
    {
      BitsDiffer(cols, n8, n4, n2, n1, i, j);
    }
    hide AllDone;
  }

  /** assignColumnLayout: for any columns it accepts, the result is a row layout. */
  method AssignColumns(cols: seq<Column>) returns (r: Result<(seq<Column>, Bounds)>)
    ensures r.Ok? <==> Assignable(cols)
    ensures r.Ok? ==> SameColumns(cols, r.value.0) && LaidOut(r.value.0, r.value.1)
  {
    var c := Classify(cols);
    if c.Err? {
      return Err(c.error);
    }
    var s := c.value;
    var a := cols[s.rowId := cols[s.rowId].(offset := 0, bit := 0)];
    a := a[s.rowVer := a[s.rowVer].(offset := 4, bit := 1)];
    RowColumnsPlaced(cols, s, a);
    hide Positions, Scanned, GroupDone, RowColumnsDone, LaidOut, Assignable, SameColumns, AllDone;
    var out := PlaceGroups(a, s);
    SameTwice(cols, a, out);
    AssignableSame(cols, out);
    DoneIsLaidOut(out, |s.g8|, |s.g4|, |s.g2|, |s.g1|);
    return Ok((out, BoundsOf(|s.g8|, |s.g4|, |s.g2|, |s.g1|, |cols|)));
  }

  /** The 8-, 4-, 2- and 1-byte cells, in that order. */
  method PlaceGroups(a: seq<Column>, s: Scan) returns (out: seq<Column>)
    requires Scanned(a, s) && s.rowId >= 0 && s.rowVer >= 0 && RowColumnsDone(a)
    ensures AllDone(out, |s.g8|, |s.g4|, |s.g2|, |s.g1|) && SameColumns(a, out) && |out| == |a|
  {
    hide Positions, Scanned, GroupDone, RowColumnsDone, Grew, SameColumns, AllDone;
    ScanBounds(a, s);
    var o4: nat, b4: nat := 8 + 8 * |s.g8|, 2 + |s.g8|;
    var o2: nat, b2: nat := o4 + 4 * |s.g4|, b4 + |s.g4|;
    var o1: nat, b1: nat := o2 + 2 * |s.g2|, b2 + |s.g2|;
    out := PlaceFour(a, s, o4, b4, o2, b2, o1, b1);
    AllDoneFrom(out, |s.g8|, |s.g4|, |s.g2|, |s.g1|, o4, b4, o2, b2, o1, b1);
  }

  method PlaceFour(a: seq<Column>, s: Scan, o4: nat, b4: nat, o2: nat, b2: nat, o1: nat, b1: nat)
    returns (out: seq<Column>)
    requires Scanned(a, s) && RowColumnsDone(a)
    requires forall g | g in [s.g8, s.g4, s.g2, s.g1] ::
      && (forall k | 0 <= k < |g| :: g[k] < |a|) && forall j, k | 0 <= j < k < |g| :: g[j] < g[k]
    ensures GroupDone(out, 8, 8, 2) && GroupDone(out, 4, o4, b4) && GroupDone(out, 2, o2, b2) &&
      GroupDone(out, 1, o1, b1)
    ensures RowColumnsDone(out) && SameColumns(a, out) && |a| == |out|
    ensures Positions(out, 8) == s.g8 && Positions(out, 4) == s.g4 && Positions(out, 2) == s.g2 &&
      Positions(out, 1) == s.g1
  {
    assert s.g8 == Positions(a, 8) && s.g4 == Positions(a, 4) && s.g2 == Positions(a, 2) && s.g1 == Positions(a, 1);
    hide Positions, Scanned, GroupDone, RowColumnsDone, Grew, SameColumns;
    var a8 := AssignGroup(a, s.g8, 8, 8, 2);
    var a4 := AssignGroup(a8, s.g4, 4, o4, b4);
    var a2 := AssignGroup(a4, s.g2, 2, o2, b2);
    out := AssignGroup(a2, s.g1, 1, o1, b1);
    FourPlaced(a, a8, a4, a2, out, s, 2, o4, b4, o2, b2, o1, b1);
  }

  lemma AllDoneFrom(cols: seq<Column>, n8: nat, n4: nat, n2: nat, n1: nat, o4: nat, b4: nat, o2: nat, b2: nat, o1: nat,
                    b1: nat)
    requires GroupDone(cols, 8, 8, 2) && GroupDone(cols, 4, o4, b4) && GroupDone(cols, 2, o2, b2) &&
      GroupDone(cols, 1, o1, b1)
    requires o4 == 8 + 8 * n8 && b4 == 2 + n8 && o2 == o4 + 4 * n4 && b2 == b4 + n4 && o1 == o2 + 2 * n2 &&
      b1 == b2 + n2
    requires RowColumnsDone(cols) && |cols| == 2 + n8 + n4 + n2 + n1
    requires n8 == |Positions(cols, 8)| && n4 == |Positions(cols, 4)| && n2 == |Positions(cols, 2)| &&
      n1 == |Positions(cols, 1)|
    ensures AllDone(cols, n8, n4, n2, n1)
  {
    hide Positions, GroupDone, RowColumnsDone;
  }

  lemma ScanBounds(a: seq<Column>, s: Scan)
    requires Scanned(a, s)
    ensures s.rowId >= 0 && s.rowVer >= 0 ==> |a| == 2 + |s.g8| + |s.g4| + |s.g2| + |s.g1|
    ensures forall g | g in [s.g8, s.g4, s.g2, s.g1] ::
      && (forall k | 0 <= k < |g| :: g[k] < |a|) && forall j, k | 0 <= j < k < |g| :: g[j] < g[k]
  {
    hide Positions;
  }

  lemma SameTwice(a: seq<Column>, b: seq<Column>, c: seq<Column>)
    requires SameColumns(a, b) && SameColumns(b, c)
    ensures SameColumns(a, c)
  {
  }

  lemma AssignableSame(a: seq<Column>, b: seq<Column>)
    requires SameColumns(a, b) && Assignable(a)
    ensures Assignable(b)
  {
    var x :| 0 <= x < |a| && IsRowId(a[x]);
    var y :| 0 <= y < |a| && IsRowVer(a[y]);
    assert IsRowId(b[x]) && IsRowVer(b[y]);
  }

  lemma RowColumnsPlaced(cols: seq<Column>, s: Scan, a: seq<Column>)
    requires Scanned(cols, s) && s.rowId >= 0 && s.rowVer >= 0
    requires a == cols[s.rowId := cols[s.rowId].(offset := 0, bit := 0)][s.rowVer := cols[s.rowVer].(offset := 4,
        bit := 1)]
    ensures s.rowId != s.rowVer && SameColumns(cols, a) && RowColumnsDone(a) && Scanned(a, s)
  {
    assert IsRowId(cols[s.rowId]) && IsRowVer(cols[s.rowVer]);
    SamePositions(cols, a, 8);
    SamePositions(cols, a, 4);
    SamePositions(cols, a, 2);
    SamePositions(cols, a, 1);
    hide Positions;
  }

  /** One call of AssignGroup, as a fact. */
  ghost predicate Grew(a: seq<Column>, b: seq<Column>, idxs: seq<nat>, w: nat, off: nat, bit: nat) {
    && SameColumns(a, b) && (forall k | 0 <= k < |idxs| :: idxs[k] < |a|)
    && (forall k | 0 <= k < |idxs| :: b[idxs[k]].offset == off + w * k && b[idxs[k]].bit == bit + k)
    && forall i | 0 <= i < |a| && i !in idxs :: b[i] == a[i]
  }

  lemma GrewKeeps(a: seq<Column>, b: seq<Column>, idxs: seq<nat>, w: nat, off: nat, bit: nat)
    requires Grew(a, b, idxs, w, off, bit) && idxs == Positions(a, w)
    ensures SameColumns(a, b) && GroupDone(b, w, off, bit) && (RowColumnsDone(a) ==> RowColumnsDone(b))
    ensures forall v | v in {8, 4, 2, 1} :: Positions(b, v) == Positions(a, v)
    ensures |a| == |b|
  {
    forall v | v in {8, 4, 2, 1}
      ensures Positions(b, v) == Positions(a, v)
    {
      SamePositions(a, b, v);
    }
    hide Positions;
    GroupAssigned(a, b, idxs, w, off, bit);
    OthersKept(a, b, w, w + 1, off, bit);
  }

  lemma GrewOther(a: seq<Column>, b: seq<Column>, idxs: seq<nat>, w: nat, off: nat, bit: nat, v: nat, vOff: nat,
                  vBit: nat)
    requires Grew(a, b, idxs, w, off, bit) && idxs == Positions(a, w) && v != w && GroupDone(a, v, vOff, vBit)
    ensures GroupDone(b, v, vOff, vBit)
  {
    hide Positions, GroupDone;
    OthersKept(a, b, w, v, vOff, vBit);
  }

  /** Four placings in a row: each keeps the earlier ones. */
  lemma FourPlaced(a: seq<Column>, a8: seq<Column>, a4: seq<Column>, a2: seq<Column>, a1: seq<Column>, s: Scan,
                   b8: nat, o4: nat, b4: nat, o2: nat, b2: nat, o1: nat, b1: nat)
    requires RowColumnsDone(a) && s.g8 == Positions(a, 8) && s.g4 == Positions(a, 4) && s.g2 == Positions(a, 2) &&
      s.g1 == Positions(a, 1)
    requires Grew(a, a8, s.g8, 8, 8, b8) && Grew(a8, a4, s.g4, 4, o4, b4) && Grew(a4, a2, s.g2, 2, o2, b2) &&
      Grew(a2, a1, s.g1, 1, o1, b1)
    ensures GroupDone(a1, 8, 8, b8) && GroupDone(a1, 4, o4, b4) && GroupDone(a1, 2, o2, b2) && GroupDone(a1, 1, o1, b1)
    ensures RowColumnsDone(a1) && SameColumns(a, a1) && |a| == |a1|
    ensures Positions(a1, 8) == s.g8 && Positions(a1, 4) == s.g4 && Positions(a1, 2) == s.g2 && Positions(a1, 1) == s.g1
  {
    hide Positions, GroupDone, Grew, RowColumnsDone, SameColumns;
    GrewKeeps(a, a8, s.g8, 8, 8, b8);
    GrewKeeps(a8, a4, s.g4, 4, o4, b4);
    GrewOther(a8, a4, s.g4, 4, o4, b4, 8, 8, b8);
    GrewKeeps(a4, a2, s.g2, 2, o2, b2);
    GrewOther(a4, a2, s.g2, 2, o2, b2, 8, 8, b8);
    GrewOther(a4, a2, s.g2, 2, o2, b2, 4, o4, b4);
    GrewKeeps(a2, a1, s.g1, 1, o1, b1);
    GrewOther(a2, a1, s.g1, 1, o1, b1, 8, 8, b8);
    GrewOther(a2, a1, s.g1, 1, o1, b1, 4, o4, b4);
    GrewOther(a2, a1, s.g1, 1, o1, b1, 2, o2, b2);
    SameTwice(a, a8, a4);
    SameTwice(a, a4, a2);
    SameTwice(a, a2, a1);
  }

  // ---------- the required pair ----------

  const ROW_ID_COLUMN: Column := Column(INTEGER32, ROW_ID, 0, 4, 0)
  const ROW_VER_COLUMN: Column := Column(INTEGER32, ROW_VER, 0, 4, 0)

  /** The columns with whichever row columns were missing, at the end. */
  ghost function WithPair(cols: seq<Column>): (r: seq<Column>)
    ensures cols <= r && |r| <= |cols| + 2
  {
    cols + (if exists i | 0 <= i < |cols| :: IsRowId(cols[i]) then [] else [ROW_ID_COLUMN])
      + if exists i | 0 <= i < |cols| :: IsRowVer(cols[i]) then [] else [ROW_VER_COLUMN]
  }

  /** ensureSpecialPair: a wrongly typed row column is refused, a missing one added at the end. */
  method EnsurePair(cols: seq<Column>) returns (r: Result<seq<Column>>)
    ensures r.Ok? <==> Typed(cols)
    ensures r.Ok? ==> r.value == WithPair(cols)
  {
    var hasId, hasVer := false, false;
    for i := 0 to |cols|
      invariant forall j | 0 <= j < i :: !WrongType(cols[j])
      invariant hasId <==> exists j | 0 <= j < i :: IsRowId(cols[j])
      invariant hasVer <==> exists j | 0 <= j < i :: IsRowVer(cols[j])
    {
      if WrongType(cols[i]) {
        return Err(InvalidArg);
      }
      if IsRowId(cols[i]) {
        hasId := true;
      }
      if IsRowVer(cols[i]) {
        hasVer := true;
      }
    }
    var out := cols;
    if !hasId {
      out := out + [ROW_ID_COLUMN];
    }
    if !hasVer {
      out := out + [ROW_VER_COLUMN];
    }
    return Ok(out);
  }

  lemma PairPresent(cols: seq<Column>)
    requires Typed(cols)
    ensures var r := WithPair(cols);
      Typed(r) && (exists i | 0 <= i < |r| :: IsRowId(r[i])) && exists i | 0 <= i < |r| :: IsRowVer(r[i])
  {
    var r := WithPair(cols);
    if x :| 0 <= x < |cols| && IsRowId(cols[x]) {
      assert IsRowId(r[x]);
    } else {
      assert IsRowId(r[|cols|]);
    }
    if y :| 0 <= y < |cols| && IsRowVer(cols[y]) {
      assert IsRowVer(r[y]);
    } else {
      assert IsRowVer(r[|r| - 1]);
    }
  }

  // ---------- tag order ----------

  ghost predicate TagsDiffer(cols: seq<Column>) {
    forall i, j | 0 <= i < j < |cols| :: Tag(cols[i]) != Tag(cols[j])
  }

  lemma Slide(s: seq<Column>, c: Column, k: nat)
    requires TagsRise(s) && k <= |s| && (forall i | 0 <= i < k :: Tag(s[i]) < Tag(c)) && forall i | k <= i < |s| ::
      Tag(c) < Tag(s[i])
    ensures TagsRise(s[..k] + [c] + s[k..]) && multiset(s[..k] + [c] + s[k..]) == multiset(s) + multiset{c}
  {
    hide Tag;
    assert s == s[..k] + s[k..];
    var r := s[..k] + [c] + s[k..];
    forall i | 0 <= i < |r|
      ensures r[i] == if i < k then s[i] else if i == k then c else s[i - 1]
    {
    }
    assert multiset(r) == multiset(s[..k]) + multiset{c} + multiset(s[k..]);
  }

  /** Slides one column into a tag-sorted sequence. */
  method InsertByTag(s: seq<Column>, c: Column) returns (r: seq<Column>)
    requires TagsRise(s) && forall i | 0 <= i < |s| :: Tag(s[i]) != Tag(c)
    ensures TagsRise(r) && multiset(r) == multiset(s) + multiset{c}
  {
    hide Tag;
    var k := |s|;
    while k > 0 && Tag(s[k - 1]) > Tag(c)
      invariant 0 <= k <= |s| && forall i | k <= i < |s| :: Tag(c) < Tag(s[i])
    {
      k := k - 1;
    }
    assert forall i | 0 <= i < k :: Tag(s[i]) < Tag(c);
    r := s[..k] + [c] + s[k..];
    Slide(s, c, k);
  }

  /** sortColumnsByTag: equal tags are refused, otherwise the columns end up in rising tag order. */
  method SortByTag(cols: seq<Column>) returns (r: Result<seq<Column>>)
    ensures r.Ok? <==> TagsDiffer(cols)
    ensures r.Ok? ==> TagsRise(r.value) && multiset(r.value) == multiset(cols)
  {
    hide Tag;
    var seen: set<nat> := {};
    for i := 0 to |cols|
      invariant forall j | 0 <= j < i :: Tag(cols[j]) in seen
      invariant forall t | t in seen :: exists j | 0 <= j < i :: Tag(cols[j]) == t
      invariant TagsDiffer(cols[..i])
    {
      if Tag(cols[i]) in seen {
        return Err(InvalidArg);
      }
      seen := seen + {Tag(cols[i])};
    }
    assert cols[..|cols|] == cols;
    var out: seq<Column> := [];
    assert cols[..0] == [];
    for i := 0 to |cols|
      invariant TagsRise(out) && multiset(out) == multiset(cols[..i])
    {
      assert cols[..i + 1] == cols[..i] + [cols[i]];
      FreshTag(cols, i, out);
      out := InsertByTag(out, cols[i]);
    }
    return Ok(out);
  }

  lemma FreshTag(cols: seq<Column>, i: nat, out: seq<Column>)
    requires TagsDiffer(cols) && i < |cols| && multiset(out) == multiset(cols[..i])
    ensures forall k | 0 <= k < |out| :: Tag(out[k]) != Tag(cols[i])
  {
    hide Tag;
    SameElements(out, cols[..i]);
    forall k | 0 <= k < |out|
      ensures Tag(out[k]) != Tag(cols[i])
    {
      assert out[k] in cols[..i];
    }
  }
}
