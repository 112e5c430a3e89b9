/** BTree-on-Heap: insertion, building by levels and lookup by last-key separators (bth.go). */
module BTreeOnHeap {
  import opened Common
  import opened Arithmetic
  import opened HeapOnNode
  import TreeEncoder
  import Blocks

  const HEADER_SIG: byte := 0xB5

  datatype KV = KV(key: Bytes, val: Bytes)

  // ---------- keys are little-endian integers ----------

  function Int(key: Bytes): nat {
    if key == [] then 0 else key[0] + 256 * Int(key[1..])
  }

  lemma {:induction false} HighByteDecides(a: Bytes, b: Bytes, i: nat)
    requires |a| == |b| && i < |a| && a[i + 1..] == b[i + 1..] && a[i] < b[i]
    ensures Int(a) < Int(b)
    decreases i
  {
    if i > 0 {
      assert a[1..][i..] == a[i + 1..] && b[1..][i..] == b[i + 1..];
      HighByteDecides(a[1..], b[1..], i - 1);
    }
  }

  /** compareBTHKey on keys of one length: the order of the integers, and equal only when equal. */
  method Compare(a: Bytes, b: Bytes) returns (c: int)
    requires |a| == |b|
    ensures c < 0 <==> Int(a) < Int(b)
    ensures c == 0 <==> a == b
    ensures c > 0 <==> Int(a) > Int(b)
  {
    hide Int;
    var i: nat := |a|;
    while i > 0
      invariant i <= |a| && a[i..] == b[i..]
    {
      assert a[i - 1..] == [a[i - 1]] + a[i..] && b[i - 1..] == [b[i - 1]] + b[i..];
      i := i - 1;
      if a[i] != b[i] {
        if a[i] < b[i] {
          HighByteDecides(a, b, i);
          return -1;
        }
        HighByteDecides(b, a, i);
        return 1;
      }
    }
    assert a[0..] == a && b[0..] == b;
    return 0;
  }

  lemma IntInjective(a: Bytes, b: Bytes)
    requires |a| == |b| && Int(a) == Int(b)
    ensures a == b
  {
    if |a| > 0 {
      IntInjective(a[1..], b[1..]);
      assert a == [a[0]] + a[1..] && b == [b[0]] + b[1..];
    }
  }

  ghost predicate Sorted(es: seq<KV>) {
    forall i, j | 0 <= i < j < |es| :: Int(es[i].key) <= Int(es[j].key)
  }

  ghost predicate Sized(es: seq<KV>, ks: nat, vs: nat) {
    forall i | 0 <= i < |es| :: |es[i].key| == ks && |es[i].val| == vs
  }

  ghost predicate DistinctKeys(es: seq<KV>) {
    forall i, j | 0 <= i < j < |es| :: es[i].key != es[j].key
  }

  /** All in order but possibly the element at `j`, which is still sinking. */
  ghost predicate Sinking(es: seq<KV>, hi: nat, j: nat) {
    hi < |es| && j <= hi && forall p, q | 0 <= p < q <= hi && q != j :: Int(es[p].key) <= Int(es[q].key)
  }

  lemma SwapKeeps(es: seq<KV>, j: nat, ks: nat, vs: nat)
    requires 0 < j < |es| && Sized(es, ks, vs)
    ensures var es' := es[j := es[j - 1]][j - 1 := es[j]]; multiset(es') == multiset(es) && Sized(es', ks, vs)
  {
  }

  lemma SinkStep(es: seq<KV>, hi: nat, j: nat, ks: nat, vs: nat)
    requires Sinking(es, hi, j) && j > 0 && Int(es[j].key) < Int(es[j - 1].key) && Sized(es, ks, vs)
    ensures var es' := es[j := es[j - 1]][j - 1 := es[j]];
      Sinking(es', hi, j - 1) && multiset(es') == multiset(es) && Sized(es', ks, vs)
  {
    SwapKeeps(es, j, ks, vs);
    hide Int, Sized;
    var es' := es[j := es[j - 1]][j - 1 := es[j]];
    forall p, q | 0 <= p < q <= hi && q != j - 1
      ensures Int(es'[p].key) <= Int(es'[q].key)
    {
      if q == j && p < j - 1 {
        assert Int(es[p].key) <= Int(es[j - 1].key);
      }
    }
  }

  /** The inner loop of sortBTH: the element at `i` sinks to its place. */
  method Sink(a: array<KV>, i: nat, ks: nat, vs: nat)
    requires i < a.Length && Sized(a[..], ks, vs) && Sinking(a[..], i, i)
    modifies a
    ensures Ordered(a[..], i) && Sized(a[..], ks, vs) && multiset(a[..]) == multiset(old(a[..]))
  {
    hide Int, Sized, Sinking, Ordered;
    var j: nat := i;
    while j > 0
      invariant j <= i && Sized(a[..], ks, vs) && multiset(a[..]) == multiset(old(a[..])) && Sinking(a[..], i, j)
      decreases j
    {
      KeyLengths(a[..], ks, vs, j);
      var c := Compare(a[j].key, a[j - 1].key);
      if c >= 0 {
        break;
      }
      ghost var es := a[..];
      SinkStep(es, i, j, ks, vs);
      a[j], a[j - 1] := a[j - 1], a[j];
      assert a[..] == es[j := es[j - 1]][j - 1 := es[j]];
      j := j - 1;
    }
    Sunk(a[..], i, j);
  }

  lemma KeyLengths(es: seq<KV>, ks: nat, vs: nat, j: nat)
    requires Sized(es, ks, vs) && 0 < j < |es|
    ensures |es[j].key| == |es[j - 1].key|
  {
  }

  ghost predicate Ordered(es: seq<KV>, hi: nat) {
    hi < |es| && forall p, q | 0 <= p < q <= hi :: Int(es[p].key) <= Int(es[q].key)
  }

  /** sortBTH: insertion sort by adjacent swaps, in place. */
  method Sort(a: array<KV>, ks: nat, vs: nat)
    requires Sized(a[..], ks, vs)
    modifies a
    ensures Sorted(a[..]) && Sized(a[..], ks, vs) && multiset(a[..]) == multiset(old(a[..]))
  {
    hide Int, Sized;
    var i := 1;
    while i < a.Length
      invariant 1 <= i && Sized(a[..], ks, vs) && multiset(a[..]) == multiset(old(a[..]))
      invariant i <= a.Length ==> Ordered(a[..], i - 1)
      invariant a.Length > 0 ==> i <= a.Length
    {
      Sink(a, i, ks, vs);
      i := i + 1;
    }
  }

  lemma Sunk(es: seq<KV>, hi: nat, j: nat)
    requires Sinking(es, hi, j) && (j > 0 ==> Int(es[j].key) >= Int(es[j - 1].key))
    ensures Ordered(es, hi)
  {
    hide Int;
  }

  // ---------- fixed-width rows ----------

  ghost predicate Wide(rows: seq<Bytes>, w: nat) {
    forall i | 0 <= i < |rows| :: |rows[i]| == w
  }

  lemma {:induction false} FlatRows(rows: seq<Bytes>, w: nat)
    requires Wide(rows, w)
    ensures |Flat(rows)| == |rows| * w
  {
    if rows != [] {
      FlatRows(rows[..|rows| - 1], w);
      Successor(|rows| - 1, w);
    }
  }

  lemma RowAt(rows: seq<Bytes>, w: nat, i: nat)
    requires Wide(rows, w) && i < |rows|
    ensures i * w + w <= |Flat(rows)| == |rows| * w && Flat(rows)[i * w..i * w + w] == rows[i]
  {
    hide Flat;
    FlatRows(rows, w);
    FlatRows(rows[..i], w);
    FlatRows(rows[..i + 1], w);
    FlatPrefix(rows, i);
    FlatPrefix(rows, i + 1);
    assert rows[..i + 1] == rows[..i] + [rows[i]];
    FlatSnoc(rows[..i], rows[i]);
    Successor(i, w);
    assert Flat(rows)[i * w..i * w + w] == Flat(rows)[..i * w + w][i * w..];
  }

  lemma Successor(i: nat, w: nat)
    ensures (i + 1) * w == i * w + w
  {
  }

  /** A multiple of the row width splits back into its rows. */
  lemma RowCount(rows: seq<Bytes>, w: nat)
    requires Wide(rows, w) && w > 0
    ensures |Flat(rows)| % w == 0 && |Flat(rows)| / w == |rows|
  {
    FlatRows(rows, w);
    UniqueMod(|rows| * w, w, |rows|, 0);
  }

  // ---------- trees on a heap ----------

  datatype Tree = Leaf(hid: nat, ents: seq<KV>) | Index(hid: nat, kids: seq<Tree>)

  function Pairs(t: Tree): seq<KV>
    decreases t, 1
  {
    match t
    case Leaf(_, ents) => ents
    case Index(_, kids) => PairsAll(kids)
  }

  function PairsAll(ts: seq<Tree>): seq<KV>
    decreases ts, 0
  {
    if ts == [] then [] else Pairs(ts[0]) + PairsAll(ts[1..])
  }

  function LastKey(t: Tree): Bytes {
    if Pairs(t) == [] then [] else Pairs(t)[|Pairs(t)| - 1].key
  }

  function LeafRows(ents: seq<KV>): (r: seq<Bytes>)
    ensures |r| == |ents|
  {
    seq(|ents|, i requires 0 <= i < |ents| => ents[i].key + ents[i].val)
  }

  function IndexRows(keys: seq<Bytes>, hids: seq<nat>): (r: seq<Bytes>)
    requires |keys| == |hids|
    ensures |r| == |keys|
  {
    seq(|keys|, i requires 0 <= i < |keys| => keys[i] + LE32(hids[i]))
  }

  function LastKeys(ts: seq<Tree>): (r: seq<Bytes>)
    ensures |r| == |ts|
  {
    seq(|ts|, i requires 0 <= i < |ts| => LastKey(ts[i]))
  }

  function Hids(ts: seq<Tree>): (r: seq<nat>)
    ensures |r| == |ts|
  {
    seq(|ts|, i requires 0 <= i < |ts| => ts[i].hid)
  }

  /** The heap holds the tree: packed entries in the leaves, last keys and children above, all leaves `level` down. */
  ghost predicate On(pages: seq<Allocs>, t: Tree, level: nat, ks: nat, vs: nat)
    decreases t
  {
    && 0 < t.hid < Blocks.U32
    && match t
       case Leaf(hid, ents) => level == 0 && ents != [] && Sized(ents, ks, vs) &&
         Named(pages, hid) == Some(Flat(LeafRows(ents)))
       case Index(hid, kids) =>
         && level > 0 && kids != [] && Named(pages, hid) == Some(Flat(IndexRows(LastKeys(kids), Hids(kids))))
         && forall i | 0 <= i < |kids| :: On(pages, kids[i], level - 1, ks, vs)
  }

  ghost predicate AllOn(pages: seq<Allocs>, ts: seq<Tree>, level: nat, ks: nat, vs: nat) {
    forall i | 0 <= i < |ts| :: On(pages, ts[i], level, ks, vs)
  }

  lemma {:induction false} OnKept(pages: seq<Allocs>, pages': seq<Allocs>, t: Tree, level: nat, ks: nat, vs: nat)
    requires On(pages, t, level, ks, vs) && Extends(pages, pages')
    ensures On(pages', t, level, ks, vs)
    decreases t
  {
    hide Flat, LeafRows, IndexRows, LastKeys, Hids, Sized, Named;
    match t {
      case Leaf(hid, ents) =>
      case Index(hid, kids) =>
        forall i | 0 <= i < |kids|
          ensures On(pages', kids[i], level - 1, ks, vs)
        {
          OnKept(pages, pages', kids[i], level - 1, ks, vs);
        }
    }
  }

  lemma AllOnKept(pages: seq<Allocs>, pages': seq<Allocs>, ts: seq<Tree>, level: nat, ks: nat, vs: nat)
    requires AllOn(pages, ts, level, ks, vs) && Extends(pages, pages')
    ensures AllOn(pages', ts, level, ks, vs)
  {
    hide On, Extends;
    forall i | 0 <= i < |ts|
      ensures On(pages', ts[i], level, ks, vs)
    {
      OnKept(pages, pages', ts[i], level, ks, vs);
    }
  }

  lemma PairsCons(t: Tree, ts: seq<Tree>)
    ensures PairsAll([t] + ts) == Pairs(t) + PairsAll(ts)
  {
    assert ([t] + ts)[0] == t && ([t] + ts)[1..] == ts;
    hide Pairs;
  }

  lemma PairsNone()
    ensures PairsAll([]) == []
  {
  }

  lemma {:induction false} PairsAppend(a: seq<Tree>, b: seq<Tree>)
    ensures PairsAll(a + b) == PairsAll(a) + PairsAll(b)
  {
    hide PairsAll;
    if a == [] {
      PairsNone();
      assert a + b == b;
    } else {
      PairsAppend(a[1..], b);
      PairsCons(a[0], a[1..]);
      PairsCons(a[0], a[1..] + b);
      assert [a[0]] + a[1..] == a && [a[0]] + (a[1..] + b) == a + b;
    }
  }

  lemma PairsPart(ts: seq<Tree>, i: nat)
    requires i < |ts|
    ensures PairsAll(ts) == PairsAll(ts[..i]) + Pairs(ts[i]) + PairsAll(ts[i + 1..])
  {
    hide PairsAll, Pairs;
    Halved(ts, i);
    PairsAppend(ts[..i], ts[i..]);
    PairsCons(ts[i], ts[i + 1..]);
  }

  lemma Halved(ts: seq<Tree>, i: nat)
    requires i < |ts|
    ensures ts[..i] + ts[i..] == ts && ts[i..] == [ts[i]] + ts[i + 1..]
  {
  }

  /** Trees on a heap are not empty and hold entries of the right sizes. */
  lemma {:induction false} OnPairs(pages: seq<Allocs>, t: Tree, level: nat, ks: nat, vs: nat)
    requires On(pages, t, level, ks, vs)
    ensures Pairs(t) != [] && Sized(Pairs(t), ks, vs) && |LastKey(t)| == ks
    decreases t, 1
  {
    hide Flat, LeafRows, IndexRows, LastKeys, Hids, Named;
    match t {
      case Leaf(hid, ents) =>
      case Index(hid, kids) =>
        assert Pairs(t) == PairsAll(kids);
        OnPairsAll(pages, kids, level - 1, ks, vs);
    }
  }

  lemma {:induction false} OnPairsAll(pages: seq<Allocs>, ts: seq<Tree>, level: nat, ks: nat, vs: nat)
    requires AllOn(pages, ts, level, ks, vs)
    ensures Sized(PairsAll(ts), ks, vs) && (ts != [] ==> PairsAll(ts) != [])
    decreases ts, 0
  {
    hide On;
    if ts != [] {
      OnPairs(pages, ts[0], level, ks, vs);
      assert forall i | 0 <= i < |ts| - 1 :: ts[1..][i] == ts[i + 1];
      OnPairsAll(pages, ts[1..], level, ks, vs);
    }
  }

  lemma LeafOn(pages: seq<Allocs>, hid: nat, ents: seq<KV>, ks: nat, vs: nat)
    requires 0 < hid < Blocks.U32 && ents != [] && Sized(ents, ks, vs) &&
      Named(pages, hid) == Some(Flat(LeafRows(ents)))
    ensures On(pages, Leaf(hid, ents), 0, ks, vs) && Pairs(Leaf(hid, ents)) == ents &&
      LastKey(Leaf(hid, ents)) == ents[|ents| - 1].key
  {
    hide Flat, LeafRows, Sized, Named;
  }

  lemma IndexOn(pages: seq<Allocs>, hid: nat, kids: seq<Tree>, level: nat, ks: nat, vs: nat)
    requires 0 < hid < Blocks.U32 && kids != [] && AllOn(pages, kids, level, ks, vs)
    requires Named(pages, hid) == Some(Flat(IndexRows(LastKeys(kids), Hids(kids))))
    ensures On(pages, Index(hid, kids), level + 1, ks, vs) && Pairs(Index(hid, kids)) == PairsAll(kids)
    ensures LastKey(Index(hid, kids)) == LastKey(kids[|kids| - 1])
  {
    hide Flat, IndexRows, LastKeys, Hids, Named;
    assert Pairs(Index(hid, kids)) == PairsAll(kids);
    var n := |kids| - 1;
    OnPairs(pages, kids[n], level, ks, vs);
    PairsPart(kids, n);
    PairsNone();
    assert kids[n + 1..] == [];
  }

  // ---------- building ----------

  lemma CapFits(n: nat, w: nat)
    requires 0 < w <= MAX_ALLOCATION && n <= MAX_ALLOCATION / w
    ensures n * w <= MAX_ALLOCATION && MAX_ALLOCATION / w >= 1
  {
    assert n * w <= MAX_ALLOCATION / w * w;
  }

  /** packLeaf. */
  method PackLeaf(ents: seq<KV>, ghost ks: nat, ghost vs: nat) returns (buf: Bytes)
    requires Sized(ents, ks, vs)
    ensures buf == Flat(LeafRows(ents)) && |buf| == |ents| * (ks + vs)
  {
    buf := [];
    ghost var rows := LeafRows(ents);
    assert Wide(rows, ks + vs);
    for i := 0 to |ents|
      invariant buf == Flat(rows[..i])
    {
      hide Flat;
      assert rows[..i + 1] == rows[..i] + [rows[i]];
      FlatSnoc(rows[..i], rows[i]);
      buf := buf + (ents[i].key + ents[i].val);
    }
    assert rows[..|ents|] == rows;
    FlatRows(rows, ks + vs);
  }

  method PackIndex(keys: seq<Bytes>, hids: seq<nat>, ghost ks: nat) returns (buf: Bytes)
    requires |keys| == |hids| && forall i | 0 <= i < |keys| :: |keys[i]| == ks
    ensures buf == Flat(IndexRows(keys, hids)) && |buf| == |keys| * (ks + 4)
  {
    buf := [];
    ghost var rows := IndexRows(keys, hids);
    assert Wide(rows, ks + 4);
    for i := 0 to |keys|
      invariant buf == Flat(rows[..i])
    {
      hide Flat, LE32;
      assert rows[..i + 1] == rows[..i] + [rows[i]];
      FlatSnoc(rows[..i], rows[i]);
      buf := buf + (keys[i] + LE32(hids[i]));
    }
    assert rows[..|keys|] == rows;
    FlatRows(rows, ks + 4);
  }

  lemma ExtendsSelf(pages: seq<Allocs>)
    ensures Extends(pages, pages)
  {
  }

  lemma ExtendsTwice(a: seq<Allocs>, b: seq<Allocs>, c: seq<Allocs>)
    requires Extends(a, b) && Extends(b, c)
    ensures Extends(a, c)
  {
    hide Named;
  }

  /** Finished trees of one level: their identifiers, last keys, and the entries they list. */
  ghost predicate Shelf(pages: seq<Allocs>, ts: seq<Tree>, level: nat, ks: nat, vs: nat, hids: seq<nat>,
                        keys: seq<Bytes>, es: seq<KV>) {
    AllOn(pages, ts, level, ks, vs) && hids == Hids(ts) && keys == LastKeys(ts) && PairsAll(ts) == es
  }

  lemma ShelfKept(pages: seq<Allocs>, pages': seq<Allocs>, ts: seq<Tree>, level: nat, ks: nat, vs: nat, hids: seq<nat>,
                  keys: seq<Bytes>, es: seq<KV>)
    requires Shelf(pages, ts, level, ks, vs, hids, keys, es) && Extends(pages, pages')
    ensures Shelf(pages', ts, level, ks, vs, hids, keys, es)
  {
    hide On, Extends, Hids, LastKeys;
    AllOnKept(pages, pages', ts, level, ks, vs);
  }

  lemma ShelfSnoc(pages: seq<Allocs>, ts: seq<Tree>, level: nat, ks: nat, vs: nat, hids: seq<nat>, keys: seq<Bytes>,
                  es: seq<KV>, t: Tree)
    requires Shelf(pages, ts, level, ks, vs, hids, keys, es) && On(pages, t, level, ks, vs)
    ensures Shelf(pages, ts + [t], level, ks, vs, hids + [t.hid], keys + [LastKey(t)], es + Pairs(t))
  {
    hide On, LastKey;
    PairsAppend(ts, [t]);
    PairsCons(t, []);
    PairsNone();
    assert [t] + [] == [t];
  }

  lemma NoShelf(pages: seq<Allocs>, level: nat, ks: nat, vs: nat)
    ensures Shelf(pages, [], level, ks, vs, [], [], [])
  {
    PairsNone();
  }

  /** The leaves over sorted entries. */
  method BuildLeaves(h: Heap, sorted: seq<KV>, ks: nat, vs: nat)
    returns (r: Result<(seq<nat>, seq<Bytes>)>, ghost ts: seq<Tree>)
    requires h.Valid() && sorted != [] && Sized(sorted, ks, vs) && ks <= 16 && 0 < vs < 256
    modifies h`pages, h`subs, h`nextSub
    ensures h.Valid() && Extends(old(h.pages), h.pages) && h.subs == old(h.subs) && h.nextSub == old(h.nextSub)
    ensures r.Ok? ==> Shelf(h.pages, ts, 0, ks, vs, r.value.0, r.value.1, sorted) && 0 < |ts| <= |sorted|
    ensures r.Err? ==> r.error == LimitExceeded && |h.pages| == MAX_PAGE_INDEX + 1
  {
    hide Shelf, Extends, Named, Flat, LeafRows;
    var cap := MAX_ALLOCATION / (ks + vs);
    CapFits(0, ks + vs);
    var hids: seq<nat>, keys: seq<Bytes> := [], [];
    ts := [];
    var i := 0;
    NoShelf(h.pages, 0, ks, vs);
    ExtendsSelf(h.pages);
    assert sorted[..0] == [];
    while i < |sorted|
      invariant h.subs == old(h.subs) && h.nextSub == old(h.nextSub)
      invariant i <= |sorted| && h.Valid() && Extends(old(h.pages), h.pages) && |ts| <= i && (i > 0 ==> |ts| > 0)
      invariant Shelf(h.pages, ts, 0, ks, vs, hids, keys, sorted[..i])
      decreases |sorted| - i
    {
      var end := if i + cap > |sorted| then |sorted| else i + cap;
      var chunk := sorted[i..end];
      assert Sized(chunk, ks, vs);
      var packed := PackLeaf(chunk, ks, vs);
      CapFits(|chunk|, ks + vs);
      ghost var before := h.pages;
      var hid := h.Allocate(packed);
      if hid.Err? {
        return Err(hid.error), ts;
      }
      ExtendsTwice(old(h.pages), before, h.pages);
      ShelfKept(before, h.pages, ts, 0, ks, vs, hids, keys, sorted[..i]);
      LeafOn(h.pages, hid.value, chunk, ks, vs);
      ShelfSnoc(h.pages, ts, 0, ks, vs, hids, keys, sorted[..i], Leaf(hid.value, chunk));
      assert sorted[..i] + chunk == sorted[..end];
      ts := ts + [Leaf(hid.value, chunk)];
      hids := hids + [hid.value];
      keys := keys + [sorted[end - 1].key];
      i := end;
    }
    assert sorted[..i] == sorted;
    return Ok((hids, keys)), ts;
  }

  lemma ShelfPart(pages: seq<Allocs>, ts: seq<Tree>, level: nat, ks: nat, vs: nat, hids: seq<nat>, keys: seq<Bytes>,
                  es: seq<KV>, lo: nat, hi: nat)
    requires Shelf(pages, ts, level, ks, vs, hids, keys, es) && lo <= hi <= |ts|
    ensures |hids| == |ts| == |keys| &&
      Shelf(pages, ts[lo..hi], level, ks, vs, hids[lo..hi], keys[lo..hi], PairsAll(ts[lo..hi]))
    ensures PairsAll(ts[..lo]) + PairsAll(ts[lo..hi]) == PairsAll(ts[..hi])
  {
    hide On, LastKey, PairsAll;
    PairsAppend(ts[..lo], ts[lo..hi]);
    assert ts[..lo] + ts[lo..hi] == ts[..hi];
    assert forall i | 0 <= i < hi - lo :: ts[lo..hi][i] == ts[lo + i];
  }

  lemma ShelfKeys(pages: seq<Allocs>, ts: seq<Tree>, level: nat, ks: nat, vs: nat, hids: seq<nat>, keys: seq<Bytes>,
                  es: seq<KV>)
    requires Shelf(pages, ts, level, ks, vs, hids, keys, es)
    ensures |hids| == |ts| == |keys| && forall i | 0 <= i < |keys| :: |keys[i]| == ks
    ensures PairsAll(ts) == es
  {
    hide On, LastKey, PairsAll;
    forall i | 0 <= i < |keys|
      ensures |keys[i]| == ks
    {
      OnPairs(pages, ts[i], level, ks, vs);
    }
  }

  /** One index node over a run of trees. */
  method IndexNode(h: Heap, hids: seq<nat>, keys: seq<Bytes>, ghost ts: seq<Tree>, ghost level: nat, ghost ks: nat,
                   ghost vs: nat, ghost es: seq<KV>)
    returns (r: Result<nat>, ghost t: Tree)
    requires h.Valid() && hids != [] && Shelf(h.pages, ts, level, ks, vs, hids, keys, es) && 2 <= ks <= 16
    requires |hids| <= MAX_ALLOCATION / (ks + 4)
    modifies h`pages, h`subs, h`nextSub
    ensures h.Valid() && Extends(old(h.pages), h.pages) && h.subs == old(h.subs) && h.nextSub == old(h.nextSub)
    ensures r.Ok? ==>
      On(h.pages, t, level + 1, ks, vs) && Pairs(t) == es && t.hid == r.value && LastKey(t) == keys[|keys| - 1]
    ensures r.Err? ==> r.error == LimitExceeded && |h.pages| == MAX_PAGE_INDEX + 1
  {
    t := Leaf(0, []);
    ShelfKeys(h.pages, ts, level, ks, vs, hids, keys, es);
    hide Shelf, Extends, Named, Flat, IndexRows, LastKeys, Hids, Pairs, PairsAll, LastKey, On;
    var packed := PackIndex(keys, hids, ks);
    CapFits(|hids|, ks + 4);
    ghost var before := h.pages;
    ExtendsSelf(before);
    var hid := h.Allocate(packed);
    if hid.Err? {
      return Err(hid.error), t;
    }
    ShelfKept(before, h.pages, ts, level, ks, vs, hids, keys, es);
    ShelfParts(h.pages, ts, level, ks, vs, hids, keys, es);
    IndexOn(h.pages, hid.value, ts, level, ks, vs);
    return Ok(hid.value), Index(hid.value, ts);
  }

  lemma ShelfParts(pages: seq<Allocs>, ts: seq<Tree>, level: nat, ks: nat, vs: nat, hids: seq<nat>, keys: seq<Bytes>,
                   es: seq<KV>)
    requires Shelf(pages, ts, level, ks, vs, hids, keys, es)
    ensures AllOn(pages, ts, level, ks, vs) && hids == Hids(ts) && keys == LastKeys(ts) && PairsAll(ts) == es
    ensures ts != [] ==> keys[|keys| - 1] == LastKey(ts[|ts| - 1])
  {
    hide On, LastKey, PairsAll;
  }

  /** One pass of buildIndex: runs of `cap` children get a parent each. */
  method GroupUp(h: Heap, hids: seq<nat>, keys: seq<Bytes>, cap: nat, ghost ts: seq<Tree>, ghost level: nat,
                 ghost ks: nat, ghost vs: nat, ghost es: seq<KV>)
    returns (r: Result<(seq<nat>, seq<Bytes>)>, ghost next: seq<Tree>)
    requires h.Valid() && Shelf(h.pages, ts, level, ks, vs, hids, keys, es) && 2 <= ks <= 16
    requires |hids| == |keys| && 4 <= cap == MAX_ALLOCATION / (ks + 4) < |hids|
    modifies h`pages, h`subs, h`nextSub
    ensures h.Valid() && Extends(old(h.pages), h.pages) && h.subs == old(h.subs) && h.nextSub == old(h.nextSub)
    ensures r.Ok? ==> Shelf(h.pages, next, level + 1, ks, vs, r.value.0, r.value.1, es)
    ensures r.Ok? ==> |r.value.0| == |r.value.1| == |next| > 0 && 2 * |r.value.0| <= |hids|
    ensures r.Err? ==> r.error == LimitExceeded && |h.pages| == MAX_PAGE_INDEX + 1
  {
    hide Shelf, Extends, On, Pairs, PairsAll, LastKey;
    var outHids: seq<nat>, outKeys: seq<Bytes> := [], [];
    next := [];
    var i := 0;
    NoShelf(h.pages, level + 1, ks, vs);
    ExtendsSelf(h.pages);
    ShelfKeys(h.pages, ts, level, ks, vs, hids, keys, es);
    PairsNone();
    assert ts[..0] == [];
    while i < |hids|
      invariant h.subs == old(h.subs) && h.nextSub == old(h.nextSub)
      invariant i <= |hids| && h.Valid() && Extends(old(h.pages), h.pages) &&
        Shelf(h.pages, ts, level, ks, vs, hids, keys, es)
      invariant |hids| == |ts| && Shelf(h.pages, next, level + 1, ks, vs, outHids, outKeys, PairsAll(ts[..i]))
      invariant |outHids| == |outKeys| == |next| && (i > 0 ==> next != [])
      invariant 4 * |next| <= i + 3 && (i < |hids| ==> 4 * |next| <= i)
      decreases |hids| - i
    {
      var end := if i + cap > |hids| then |hids| else i + cap;
      ghost var before := h.pages;
      ShelfPart(before, ts, level, ks, vs, hids, keys, es, i, end);
      var hid;
      ghost var t;
      hid, t := IndexNode(h, hids[i..end], keys[i..end], ts[i..end], level, ks, vs, PairsAll(ts[i..end]));
      ExtendsTwice(old(h.pages), before, h.pages);
      if hid.Err? {
        return Err(hid.error), next;
      }
      ShelfKept(before, h.pages, ts, level, ks, vs, hids, keys, es);
      ShelfKept(before, h.pages, next, level + 1, ks, vs, outHids, outKeys, PairsAll(ts[..i]));
      ShelfSnoc(h.pages, next, level + 1, ks, vs, outHids, outKeys, PairsAll(ts[..i]), t);
      assert keys[i..end][|keys[i..end]| - 1] == keys[end - 1];
      outHids := outHids + [hid.value];
      outKeys := outKeys + [keys[end - 1]];
      next := next + [t];
      i := end;
    }
    ShelfKeys(h.pages, ts, level, ks, vs, hids, keys, es);
    assert ts[..i] == ts;
    return Ok((outHids, outKeys)), next;
  }

  /** buildIndex: levels are added until one node is left. */
  method BuildIndex(h: Heap, hids0: seq<nat>, keys0: seq<Bytes>, ks: nat, ghost ts0: seq<Tree>, ghost vs: nat,
                    ghost es: seq<KV>)
    returns (r: Result<(nat, nat)>, ghost t: Tree)
    requires h.Valid() && Shelf(h.pages, ts0, 0, ks, vs, hids0, keys0, es) && 2 <= ks <= 16 && |hids0| > 1 &&
      |hids0| == |keys0| <= |es|
    modifies h`pages, h`subs, h`nextSub
    ensures h.Valid() && Extends(old(h.pages), h.pages) && h.subs == old(h.subs) && h.nextSub == old(h.nextSub)
    ensures r.Ok? ==> On(h.pages, t, r.value.1, ks, vs) && Pairs(t) == es && t.hid == r.value.0 && r.value.1 > 0
    ensures r.Ok? && |es| < Blocks.U64 ==> r.value.1 <= 64
    ensures r.Err? ==> r.error == LimitExceeded && |h.pages| == MAX_PAGE_INDEX + 1
  {
    hide Shelf, Extends, On, Pairs, PairsAll, LastKey;
    t := Leaf(0, []);
    var cap := MAX_ALLOCATION / (ks + 4);
    IndexCap(ks);
    var hids, keys := hids0, keys0;
    ghost var ts := ts0;
    var level := 0;
    ExtendsSelf(h.pages);
    assert TreeEncoder.Pow2(0) == 1;
    while true
      invariant h.subs == old(h.subs) && h.nextSub == old(h.nextSub)
      invariant h.Valid() && Extends(old(h.pages), h.pages) && Shelf(h.pages, ts, level, ks, vs, hids, keys, es)
      invariant |hids| > 0 && |hids| == |keys| && |hids| * TreeEncoder.Pow2(level) <= |es|
      decreases |hids|
    {
      ghost var before := h.pages;
      if |hids| <= cap {
        var hid;
        hid, t := IndexNode(h, hids, keys, ts, level, ks, vs, es);
        ExtendsTwice(old(h.pages), before, h.pages);
        if hid.Err? {
          return Err(hid.error), t;
        }
        DepthBound(level, |es|, |hids|);
        return Ok((hid.value, level + 1)), t;
      }
      var up;
      ghost var next;
      up, next := GroupUp(h, hids, keys, cap, ts, level, ks, vs, es);
      ExtendsTwice(old(h.pages), before, h.pages);
      if up.Err? {
        return Err(up.error), t;
      }
      TreeEncoder.LevelBound(|hids|, |up.value.0|, level, |es|);
      hids, keys, ts := up.value.0, up.value.1, next;
      level := level + 1;
    }
  }

  lemma IndexCap(ks: nat)
    requires 2 <= ks <= 16
    ensures 4 <= MAX_ALLOCATION / (ks + 4)
  {
    var w := ks + 4;
    assert MAX_ALLOCATION / w >= MAX_ALLOCATION / 20;
  }

  lemma DepthBound(level: nat, n: nat, count: nat)
    requires count > 0 && count * TreeEncoder.Pow2(level) <= n
    ensures n < Blocks.U64 ==> level < 64
  {
    if level >= 64 {
      TreeEncoder.Pow2Grows(64, level);
      TreeEncoder.Pow2Word();
      AtLeast(count, TreeEncoder.Pow2(level));
    }
    hide TreeEncoder.Pow2;
  }

  lemma AtLeast(count: nat, p: nat)
    requires count > 0
    ensures count * p >= p
  {
  }

  function HeaderBytes(ks: nat, vs: nat, levels: nat, root: nat): (r: Bytes)
    ensures |r| == 8
  {
    [HEADER_SIG, ks % 256, vs % 256, levels % 256] + LE32(root)
  }

  /** A finished BTH behind header `hid`, listing `es`. */
  ghost predicate Built(pages: seq<Allocs>, hid: nat, ks: nat, vs: nat, es: seq<KV>, t: Tree, levels: nat) {
    && 2 <= ks <= 16 && 0 < vs < 256 && levels < 256
    && Named(pages, hid) == Some(HeaderBytes(ks, vs, levels, if es == [] then 0 else t.hid))
    && (es != [] ==> On(pages, t, levels, ks, vs) && Pairs(t) == es)
  }

  /** Strictly rising keys: what distinct keys become once sorted. */
  ghost predicate Ascending(es: seq<KV>) {
    forall i, j | 0 <= i < j < |es| :: Int(es[i].key) < Int(es[j].key)
  }

  lemma SortedDistinct(es: seq<KV>, given: seq<KV>, ks: nat, vs: nat)
    requires Sorted(es) && multiset(es) == multiset(given) && Sized(es, ks, vs) && DistinctKeys(given)
    ensures Ascending(es)
  {
    hide Int;
    forall i, j | 0 <= i < j < |es|
      ensures Int(es[i].key) < Int(es[j].key)
    {
      if es[i].key == es[j].key {
        TwiceThere(es, given, i, j);
      } else if Int(es[i].key) == Int(es[j].key) {
        IntInjective(es[i].key, es[j].key);
      }
    }
  }

  lemma {:induction false} CountOnce(given: seq<KV>, e: KV)
    requires DistinctKeys(given)
    ensures multiset(given)[e] <= 1
  {
    if given != [] {
      var n := |given| - 1;
      CountOnce(given[..n], e);
      assert given == given[..n] + [given[n]];
      if e == given[n] {
        assert e !in given[..n];
      }
    }
  }

  lemma KeysDistinct(given: seq<KV>, a: KV, b: KV)
    requires DistinctKeys(given) && a in given && b in given && a.key == b.key
    ensures a == b
  {
  }

  lemma TwiceThere(es: seq<KV>, given: seq<KV>, i: nat, j: nat)
    requires multiset(es) == multiset(given) && DistinctKeys(given) && i < j < |es|
    ensures es[i].key != es[j].key
  {
    if es[i].key == es[j].key {
      assert es[i] in multiset(es) && es[j] in multiset(es);
      KeysDistinct(given, es[i], es[j]);
      assert es == es[..j] + [es[j]] + es[j + 1..];
      assert es[i] in es[..j];
      CountOnce(given, es[i]);
    }
  }

  class BTH {
    const heap: Heap
    const keySize: nat
    const valSize: nat
    var ents: seq<KV>

    ghost predicate Valid()
      reads this
    {
      && (keySize == 2 || keySize == 4 || keySize == 8 || keySize == 16) && 0 < valSize < 256
      && Sized(ents, keySize, valSize) && DistinctKeys(ents)
    }

    constructor (heap: Heap, keySize: nat, valSize: nat)
      requires (keySize == 2 || keySize == 4 || keySize == 8 || keySize == 16) && 0 < valSize < 256
      ensures Valid() && this.heap == heap && this.keySize == keySize && this.valSize == valSize && ents == []
    {
      this.heap, this.keySize, this.valSize, ents := heap, keySize, valSize, [];
    }

    /** Keys are unique; sizes are fixed. */
    method Insert(key: Bytes, val: Bytes) returns (r: Result<()>)
      requires Valid()
      modifies `ents
      ensures Valid()
      ensures r.Ok? <==> |key| == keySize && |val| == valSize && forall e | e in old(ents) :: e.key != key
      ensures ents == if r.Ok? then old(ents) + [KV(key, val)] else old(ents)
    {
      if |key| != keySize || |val| != valSize {
        return Err(InvalidArg);
      }
      for i := 0 to |ents|
        invariant forall k | 0 <= k < i :: ents[k].key != key
      {
        if ents[i].key == key {
          assert ents[i] in ents;
          return Err(InvalidArg);
        }
      }
      ents := ents + [KV(key, val)];
      return Ok(());
    }

    /** Build: the header's HID becomes the heap's root; fails only when the heap is out of page indexes. */
    method Build() returns (r: Result<nat>, ghost es: seq<KV>, ghost t: Tree, ghost levels: nat)
      requires Valid() && heap.Valid()
      modifies heap`pages, heap`subs, heap`nextSub, heap`root
      ensures heap.Valid() && Extends(old(heap.pages), heap.pages) && heap.subs == old(heap.subs) &&
        heap.nextSub == old(heap.nextSub)
      ensures multiset(es) == multiset(ents) && Ascending(es) && Sized(es, keySize, valSize)
      ensures r.Ok? && |ents| < Blocks.U64 ==>
        Built(heap.pages, r.value, keySize, valSize, es, t, levels) && heap.root == r.value && 0 < r.value < Blocks.U32
      ensures r.Err? ==> r == Err(LimitExceeded) && |heap.pages| == MAX_PAGE_INDEX + 1
    {
      hide On, Extends, Pairs, PairsAll, Named, HeaderBytes, Int;
      var a := new KV[|ents|](i requires 0 <= i < |ents| reads this => ents[i]);
      assert a[..] == ents;
      Sort(a, keySize, valSize);
      var sorted := a[..];
      es, t, levels := sorted, Leaf(0, []), 0;
      SortedDistinct(sorted, ents, keySize, valSize);
      assert |multiset(sorted)| == |multiset(ents)|;
      ExtendsSelf(heap.pages);
      var root, depth := 0, 0;
      if |ents| > 0 {
        var top;
        top, t := BuildTree(sorted);
        if top.Err? {
          return Err(top.error), es, t, levels;
        }
        root, depth := top.value.0, top.value.1;
        levels := depth;
      }
      ghost var mid := heap.pages;
      ExtendsSelf(mid);
      var hh := heap.Allocate(HeaderBytes(keySize, valSize, depth, root));
      ExtendsTwice(old(heap.pages), mid, heap.pages);
      if hh.Err? {
        return Err(hh.error), es, t, levels;
      }
      if |ents| > 0 {
        OnKept(mid, heap.pages, t, levels, keySize, valSize);
      }
      heap.root := hh.value;
      return Ok(hh.value), es, t, levels;
    }

    method BuildTree(sorted: seq<KV>) returns (r: Result<(nat, nat)>, ghost t: Tree)
      requires Valid() && heap.Valid() && sorted != [] && Sized(sorted, keySize, valSize)
      modifies heap`pages, heap`subs, heap`nextSub
      ensures heap.Valid() && Extends(old(heap.pages), heap.pages) && heap.subs == old(heap.subs) &&
        heap.nextSub == old(heap.nextSub)
      ensures r.Ok? ==> On(heap.pages, t, r.value.1, keySize, valSize) && Pairs(t) == sorted && t.hid == r.value.0
      ensures r.Ok? && |sorted| < Blocks.U64 ==> r.value.1 <= 64
      ensures r.Err? ==> r == Err(LimitExceeded) && |heap.pages| == MAX_PAGE_INDEX + 1
    {
      hide On, Extends, Pairs, PairsAll, Shelf, LastKey;
      var leaves;
      ghost var ts;
      leaves, ts := BuildLeaves(heap, sorted, keySize, valSize);
      if leaves.Err? {
        return Err(leaves.error), Leaf(0, []);
      }
      ShelfKeys(heap.pages, ts, 0, keySize, valSize, leaves.value.0, leaves.value.1, sorted);
      if |leaves.value.0| == 1 {
        OneTree(heap.pages, ts, keySize, valSize, leaves.value.0, leaves.value.1, sorted);
        return Ok((leaves.value.0[0], 0)), ts[0];
      }
      ghost var mid := heap.pages;
      r, t := BuildIndex(heap, leaves.value.0, leaves.value.1, keySize, ts, valSize, sorted);
      ExtendsTwice(old(heap.pages), mid, heap.pages);
    }
  }

  lemma OneTree(pages: seq<Allocs>, ts: seq<Tree>, ks: nat, vs: nat, hids: seq<nat>, keys: seq<Bytes>, es: seq<KV>)
    requires Shelf(pages, ts, 0, ks, vs, hids, keys, es) && |ts| == 1
    ensures On(pages, ts[0], 0, ks, vs) && Pairs(ts[0]) == es && hids[0] == ts[0].hid
  {
    hide On, LastKey;
    assert ts == [ts[0]] + [];
    PairsCons(ts[0], []);
    PairsNone();
  }

  // ---------- reading ----------

  /** An opened BTH. */
  datatype BthView = BthView(keySize: nat, valSize: nat, levels: nat, root: nat)

  function Long(raw: Bytes, off: nat): nat
    requires off + 4 <= |raw|
  {
    Word(raw, off) + 65536 * Word(raw, off + 2)
  }

  lemma LongAt(pre: Bytes, v: nat)
    requires v < Blocks.U32
    ensures Long(pre + LE32(v), |pre|) == v
  {
    var d := pre + LE32(v);
    assert d == pre + LE16(v % 65536) + LE16(v / 65536);
    WordAt(pre, v % 65536, LE16(v / 65536));
    assert d == (pre + LE16(v % 65536)) + LE16(v / 65536) + [];
    WordAt(pre + LE16(v % 65536), v / 65536, []);
    hide LE16, Word;
  }

  method OpenBTH(pages: seq<Allocs>, headerHid: nat, heapRoot: nat,
                 ghost ks: nat, ghost vs: nat, ghost es: seq<KV>, ghost t: Tree, ghost levels: nat)
                   returns (r: Result<BthView>)
    requires Built(pages, if headerHid == 0 then heapRoot else headerHid, ks, vs, es, t, levels)
    ensures r == Ok(BthView(ks, vs, levels, if es == [] then 0 else t.hid))
  {
    var hid := if headerHid == 0 then heapRoot else headerHid;
    hide On, Named, LE32, Long;
    RootFits(pages, es, t, levels, ks, vs);
    LongAt([HEADER_SIG, ks, vs, levels], if es == [] then 0 else t.hid);
    var raw := Named(pages, hid);
    if raw.None? {
      return Err(InvalidArg);
    }
    if |raw.value| < 8 {
      return Err(InvariantBroken);
    }
    if raw.value[0] != HEADER_SIG {
      return Err(InvariantBroken);
    }
    return Ok(BthView(raw.value[1], raw.value[2], raw.value[3], Long(raw.value, 4)));
  }

  lemma RootFits(pages: seq<Allocs>, es: seq<KV>, t: Tree, levels: nat, ks: nat, vs: nat)
    requires es != [] ==> On(pages, t, levels, ks, vs)
    ensures (if es == [] then 0 else t.hid) < Blocks.U32
  {
    hide Named, Flat, LeafRows, IndexRows, Sized;
  }

  /** What a lookup of `key` among `es` has to answer. */
  ghost predicate Found(es: seq<KV>, key: Bytes, r: Result<Bytes>) {
    && (r.Ok? ==> KV(key, r.value) in es)
    && (r.Err? ==> forall e | e in es :: e.key != key)
  }

  lemma RowParts(raw: Bytes, at: nat, a: Bytes, b: Bytes)
    requires at + |a| + |b| <= |raw| && raw[at..at + |a| + |b|] == a + b
    ensures raw[at..at + |a|] == a && raw[at + |a|..at + |a| + |b|] == b
  {
    var row := raw[at..at + |a| + |b|];
    assert raw[at..at + |a|] == row[..|a|] && raw[at + |a|..at + |a| + |b|] == row[|a|..];
  }

  lemma LeafRow(ents: seq<KV>, ks: nat, vs: nat, i: nat, x: nat)
    requires Sized(ents, ks, vs) && i < |ents| && x == i * (ks + vs)
    ensures var raw := Flat(LeafRows(ents));
      x + ks + vs <= |raw| && raw[x..x + ks] == ents[i].key && raw[x + ks..x + (ks + vs)] == ents[i].val
  {
    hide Flat;
    assert Wide(LeafRows(ents), ks + vs);
    RowAt(LeafRows(ents), ks + vs, i);
    RowParts(Flat(LeafRows(ents)), x, ents[i].key, ents[i].val);
  }

  lemma LeafSize(ents: seq<KV>, ks: nat, vs: nat)
    requires Sized(ents, ks, vs) && ks > 0
    ensures |Flat(LeafRows(ents))| == |ents| * (ks + vs) && |Flat(LeafRows(ents))| % (ks + vs) == 0
  {
    assert Wide(LeafRows(ents), ks + vs);
    RowCount(LeafRows(ents), ks + vs);
    FlatRows(LeafRows(ents), ks + vs);
  }

  /** The scan of a leaf. */
  method ScanLeaf(raw: Bytes, ks: nat, vs: nat, key: Bytes, ghost ents: seq<KV>) returns (r: Result<Bytes>)
    requires Sized(ents, ks, vs) && ks > 0 && raw == Flat(LeafRows(ents))
    ensures Found(ents, key, r)
  {
    var es := ks + vs;
    LeafSize(ents, ks, vs);
    hide Flat, LeafRows, Sized;
    if |raw| % es != 0 {
      return Err(InvariantBroken);
    }
    var off := 0;
    ghost var i := 0;
    while off < |raw|
      invariant i <= |ents| && off == i * es && forall k | 0 <= k < i :: ents[k].key != key
      decreases |raw| - off
    {
      Before(i, |ents|, es);
      LeafRow(ents, ks, vs, i, off);
      if raw[off..off + ks] == key {
        assert ents[i] == KV(key, raw[off + ks..off + es]);
        return Ok(raw[off + ks..off + es]);
      }
      Successor(i, es);
      off := off + es;
      i := i + 1;
    }
    After(i, |ents|, es);
    return Err(InvalidArg);
  }

  lemma Before(i: nat, n: nat, w: nat)
    requires i * w < n * w && i <= n
    ensures i < n
  {
  }

  lemma After(i: nat, n: nat, w: nat)
    requires i * w >= n * w && i <= n && w > 0
    ensures i == n
  {
    MultipleBounds(w, n - i);
  }

  lemma SeparatorAt(rows: seq<Bytes>, ks: nat, i: nat, x: nat, key: Bytes, hid: nat)
    requires Wide(rows, ks + 4) && i < |rows| && x == i * (ks + 4) && |key| == ks && hid < Blocks.U32 &&
      rows[i] == key + LE32(hid)
    ensures var raw := Flat(rows); x + ks + 4 <= |raw| && raw[x..x + ks] == key && Long(raw[x..x + (ks + 4)], ks) == hid
  {
    hide LE32, Long, Flat;
    RowAt(rows, ks + 4, i);
    hide Wide;
    RowParts(Flat(rows), x, key, LE32(hid));
    LongAt(key, hid);
  }

  lemma IndexSize(kids: seq<Tree>, ks: nat)
    requires forall k | 0 <= k < |kids| :: |LastKey(kids[k])| == ks
    ensures var raw := Flat(IndexRows(LastKeys(kids), Hids(kids))); |raw| == |kids| * (ks + 4) && |raw| % (ks + 4) == 0
  {
    IndexWide(kids, ks);
    RowCount(IndexRows(LastKeys(kids), Hids(kids)), ks + 4);
    FlatRows(IndexRows(LastKeys(kids), Hids(kids)), ks + 4);
    hide Flat, IndexRows, LastKeys, Hids, LastKey, Wide;
  }

  lemma IndexRow(kids: seq<Tree>, ks: nat, i: nat, x: nat)
    requires i < |kids| && forall k | 0 <= k < |kids| :: |LastKey(kids[k])| == ks && kids[k].hid < Blocks.U32
    requires x == i * (ks + 4)
    ensures var raw := Flat(IndexRows(LastKeys(kids), Hids(kids)));
      x + ks + 4 <= |raw| && raw[x..x + ks] == LastKey(kids[i]) && Long(raw[x..x + (ks + 4)], ks) == kids[i].hid
  {
    IndexWide(kids, ks);
    IndexRowIs(kids, i);
    hide LE32, LastKey, Long, Flat, IndexRows, Wide, LastKeys, Hids;
    SeparatorAt(IndexRows(LastKeys(kids), Hids(kids)), ks, i, x, LastKey(kids[i]), kids[i].hid);
  }

  lemma IndexWide(kids: seq<Tree>, ks: nat)
    requires forall k | 0 <= k < |kids| :: |LastKey(kids[k])| == ks
    ensures Wide(IndexRows(LastKeys(kids), Hids(kids)), ks + 4)
  {
    hide LE32, LastKey;
  }

  lemma IndexRowIs(kids: seq<Tree>, i: nat)
    requires i < |kids|
    ensures IndexRows(LastKeys(kids), Hids(kids))[i] == LastKey(kids[i]) + LE32(kids[i].hid)
  {
    hide LE32, LastKey;
  }

  /** The child a lookup descends to: the first whose last key is not smaller, else the last one. */
  ghost predicate Chosen(kids: seq<Tree>, key: Bytes, c: nat) {
    && c < |kids| && (forall j | 0 <= j < c :: Int(LastKey(kids[j])) < Int(key))
    && (c < |kids| - 1 ==> Int(key) <= Int(LastKey(kids[c])))
  }

  method ChooseChild(raw: Bytes, ks: nat, key: Bytes, ghost kids: seq<Tree>) returns (child: nat, ghost c: nat)
    requires kids != [] && |key| == ks && forall k | 0 <= k < |kids| ::
      |LastKey(kids[k])| == ks && kids[k].hid < Blocks.U32
    requires raw == Flat(IndexRows(LastKeys(kids), Hids(kids)))
    ensures Chosen(kids, key, c) && child == kids[c].hid
  {
    hide Flat, IndexRows, LastKeys, Hids, LastKey, Int, Long;
    var es := ks + 4;
    child, c := 0, 0;
    IndexSize(kids, ks);
    var off := 0;
    ghost var i := 0;
    while off < |raw|
      invariant i <= |kids| && off == i * es && (i > 0 ==> c == i - 1 && child == kids[c].hid)
      invariant forall j | 0 <= j < i :: Int(LastKey(kids[j])) < Int(key)
      decreases |raw| - off
    {
      Before(i, |kids|, es);
      IndexRow(kids, ks, i, off);
      child, c := Long(raw[off..off + es], ks), i;
      var cmp := Compare(key, raw[off..off + ks]);
      if cmp <= 0 {
        return;
      }
      Successor(i, es);
      off := off + es;
      i := i + 1;
    }
    After(i, |kids|, es);
  }

  lemma AscendingParts(a: seq<KV>, b: seq<KV>)
    requires Ascending(a + b)
    ensures Ascending(a) && Ascending(b)
    ensures forall x, y | x in a && y in b :: Int(x.key) < Int(y.key)
  {
    hide Int;
    var c := a + b;
    assert forall i | 0 <= i < |a| :: c[i] == a[i];
    assert forall i | 0 <= i < |b| :: c[|a| + i] == b[i];
    forall i, j | 0 <= i < j < |b|
      ensures Int(b[i].key) < Int(b[j].key)
    {
      assert Int(c[|a| + i].key) < Int(c[|a| + j].key);
    }
    forall i, j | 0 <= i < |a| && 0 <= j < |b|
      ensures Int(a[i].key) < Int(b[j].key)
    {
      assert Int(c[i].key) < Int(c[|a| + j].key);
    }
  }

  lemma LastIsMost(es: seq<KV>)
    requires Ascending(es) && es != []
    ensures forall e | e in es :: Int(e.key) <= Int(es[|es| - 1].key)
  {
    hide Int;
  }

  lemma PairsStep(ts: seq<Tree>, i: nat)
    requires i < |ts|
    ensures PairsAll(ts[..i + 1]) == PairsAll(ts[..i]) + Pairs(ts[i])
  {
    hide Pairs, PairsAll;
    assert ts[..i + 1] == ts[..i] + [ts[i]];
    PairsAppend(ts[..i], [ts[i]]);
    PairsCons(ts[i], []);
    assert [ts[i]] + [] == [ts[i]];
    PairsNone();
  }

  /** Entries left of the chosen child lie below the key. */
  lemma LeftOf(kids: seq<Tree>, key: Bytes, c: nat)
    requires Chosen(kids, key, c) && Ascending(PairsAll(kids[..c])) && forall k | 0 <= k < |kids| ::
      Pairs(kids[k]) != []
    ensures forall e | e in PairsAll(kids[..c]) :: Int(e.key) < Int(key)
  {
    hide Pairs, PairsAll, Int, Ascending;
    PairsNone();
    if c > 0 {
      var a, before := PairsAll(kids[..c]), Pairs(kids[c - 1]);
      PairsStep(kids, c - 1);
      LastIsMost(a);
      assert a[|a| - 1] == before[|before| - 1];
      assert Int(LastKey(kids[c - 1])) < Int(key);
    } else {
      assert kids[..c] == [];
    }
  }

  /** The chosen child has every entry with the key. */
  lemma Descends(kids: seq<Tree>, key: Bytes, c: nat)
    requires Chosen(kids, key, c) && Ascending(PairsAll(kids)) && forall k | 0 <= k < |kids| :: Pairs(kids[k]) != []
    ensures Ascending(Pairs(kids[c])) && forall e | e in PairsAll(kids) && e.key == key :: e in Pairs(kids[c])
    ensures forall e | e in Pairs(kids[c]) :: e in PairsAll(kids)
  {
    hide Pairs, PairsAll, Int, Ascending;
    var a, m, z := PairsAll(kids[..c]), Pairs(kids[c]), PairsAll(kids[c + 1..]);
    PairsPart(kids, c);
    AscendingParts(a + m, z);
    AscendingParts(a, m);
    LeftOf(kids, key, c);
    PairsNone();
    assert c == |kids| - 1 ==> kids[c + 1..] == [];
    RightOf(m, z, key);
    InThree(a, m, z);
  }

  lemma RightOf(m: seq<KV>, z: seq<KV>, key: Bytes)
    requires m != [] && forall x, y | x in m && y in z :: Int(x.key) < Int(y.key)
    requires z != [] ==> Int(key) <= Int(m[|m| - 1].key)
    ensures forall e | e in z :: Int(key) < Int(e.key)
  {
    hide Int;
    assert m[|m| - 1] in m;
  }

  lemma InThree(a: seq<KV>, m: seq<KV>, z: seq<KV>)
    ensures forall e :: e in a + m + z <==> e in a || e in m || e in z
    ensures forall e :: e in a + m <==> e in a || e in m
  {
  }

  lemma OnParts(pages: seq<Allocs>, t: Tree, level: nat, ks: nat, vs: nat)
    requires On(pages, t, level, ks, vs)
    ensures Named(pages, t.hid).Some? && t.hid != 0 && (level == 0 <==> t.Leaf?)
    ensures t.Leaf? ==>
      Sized(t.ents, ks, vs) && Named(pages, t.hid).value == Flat(LeafRows(t.ents)) && Pairs(t) == t.ents
    ensures t.Index? ==> t.kids != [] && Named(pages, t.hid).value == Flat(IndexRows(LastKeys(t.kids), Hids(t.kids)))
    ensures t.Index? ==> Pairs(t) == PairsAll(t.kids)
    ensures t.Index? ==> forall k | 0 <= k < |t.kids| ::
      && On(pages, t.kids[k], level - 1, ks, vs) && |LastKey(t.kids[k])| == ks && 0 < t.kids[k].hid < Blocks.U32 &&
         Pairs(t.kids[k]) != []
  {
    hide Named, Flat, LeafRows, IndexRows, LastKeys, Hids, Sized, LastKey, PairsAll;
    if t.Index? {
      forall k | 0 <= k < |t.kids|
        ensures |LastKey(t.kids[k])| == ks && 0 < t.kids[k].hid < Blocks.U32 && Pairs(t.kids[k]) != []
      {
        OnPairs(pages, t.kids[k], level - 1, ks, vs);
      }
    }
  }

  /** Lookup below one node. */
  method LookupAt(pages: seq<Allocs>, hid: nat, level: nat, ks: nat, vs: nat, key: Bytes, ghost t: Tree)
    returns (r: Result<Bytes>)
    requires On(pages, t, level, ks, vs) && t.hid == hid && |key| == ks > 0 && Ascending(Pairs(t))
    ensures Found(Pairs(t), key, r)
    decreases level
  {
    OnParts(pages, t, level, ks, vs);
    hide On, Named, Flat, LeafRows, IndexRows, LastKeys, Hids, Pairs, PairsAll, LastKey, Int, Ascending, Sized;
    var raw := Named(pages, hid);
    if raw.None? {
      return Err(InvalidArg);
    }
    if level == 0 {
      r := ScanLeaf(raw.value, ks, vs, key, t.ents);
      return;
    }
    var child;
    ghost var c;
    child, c := ChooseChild(raw.value, ks, key, t.kids);
    if child == 0 {
      return Err(InvariantBroken);
    }
    Descends(t.kids, key, c);
    r := LookupAt(pages, child, level - 1, ks, vs, key, t.kids[c]);
  }

  /** BTHView.Lookup refines the inserted map: the value of every inserted key, failure for every other. */
  method Lookup(pages: seq<Allocs>, v: BthView, key: Bytes, ghost hid: nat, ghost es: seq<KV>, ghost t: Tree)
    returns (r: Result<Bytes>)
    requires Built(pages, hid, v.keySize, v.valSize, es, t, v.levels) && v.root == (if es == [] then 0 else t.hid)
    requires Ascending(es)
    ensures |key| != v.keySize ==> r.Err?
    ensures |key| == v.keySize ==> Found(es, key, r)
  {
    if |key| != v.keySize {
      return Err(InvalidArg);
    }
    if v.root == 0 {
      RootZero(pages, es, t, v.levels, v.keySize, v.valSize);
      return Err(InvalidArg);
    }
    hide On, Pairs, Int;
    r := LookupAt(pages, v.root, v.levels, v.keySize, v.valSize, key, t);
  }

  lemma RootZero(pages: seq<Allocs>, es: seq<KV>, t: Tree, levels: nat, ks: nat, vs: nat)
    requires es != [] ==> On(pages, t, levels, ks, vs)
    ensures es != [] ==> t.hid != 0
  {
    hide Named, Flat, LeafRows, IndexRows, Sized;
  }

  /** collect: all entries below a node, in order. */
  method Collect(pages: seq<Allocs>, hid: nat, level: nat, ks: nat, vs: nat, ghost t: Tree) returns (r: Result<seq<KV>>)
    requires On(pages, t, level, ks, vs) && t.hid == hid && ks > 0
    ensures r == Ok(Pairs(t))
    decreases level
  {
    OnParts(pages, t, level, ks, vs);
    hide On, Named, Flat, LeafRows, IndexRows, LastKeys, Hids, Pairs, PairsAll, LastKey, Sized, Long;
    var raw := Named(pages, hid);
    if level == 0 {
      r := CollectLeaf(raw.value, ks, vs, t.ents);
      return;
    }
    var es := ks + 4;
    IndexSize(t.kids, ks);
    if |raw.value| % es != 0 {
      return Err(InvariantBroken);
    }
    var out: seq<KV> := [];
    var off := 0;
    ghost var i := 0;
    PairsNone();
    assert t.kids[..0] == [];
    while off < |raw.value|
      invariant i <= |t.kids| && off == i * es && out == PairsAll(t.kids[..i])
      decreases |raw.value| - off
    {
      Before(i, |t.kids|, es);
      Successor(i, es);
      IndexRow(t.kids, ks, i, off);
      var sub := Collect(pages, Long(raw.value[off..off + es], ks), level - 1, ks, vs, t.kids[i]);
      PairsStep(t.kids, i);
      out := out + sub.value;
      off := off + es;
      i := i + 1;
    }
    After(i, |t.kids|, es);
    assert t.kids[..i] == t.kids;
    return Ok(out);
  }

  method CollectLeaf(raw: Bytes, ks: nat, vs: nat, ghost ents: seq<KV>) returns (r: Result<seq<KV>>)
    requires Sized(ents, ks, vs) && ks > 0 && raw == Flat(LeafRows(ents))
    ensures r == Ok(ents)
  {
    var es := ks + vs;
    LeafSize(ents, ks, vs);
    hide Flat, LeafRows, Sized;
    if |raw| % es != 0 {
      return Err(InvariantBroken);
    }
    var out: seq<KV> := [];
    var off := 0;
    ghost var i := 0;
    while off < |raw|
      invariant i <= |ents| && off == i * es && out == ents[..i]
      decreases |raw| - off
    {
      Before(i, |ents|, es);
      LeafRow(ents, ks, vs, i, off);
      out := out + [KV(raw[off..off + ks], raw[off + ks..off + es])];
      Successor(i, es);
      off := off + es;
      i := i + 1;
    }
    After(i, |ents|, es);
    assert ents[..i] == ents;
    return Ok(out);
  }

  lemma SameFound(es: seq<KV>, given: seq<KV>, key: Bytes, r: Result<Bytes>)
    requires multiset(es) == multiset(given) && Found(es, key, r)
    ensures Found(given, key, r)
  {
    assert forall e :: e in es <==> e in multiset(es);
    assert forall e :: e in given <==> e in multiset(given);
  }

  /** Build, reopen and look up: the inserted pairs, whatever their number, and nothing else. */
  method BuildAndLookup(b: BTH, key: Bytes) returns (r: Option<Result<Bytes>>, all: Option<Result<seq<KV>>>)
    requires b.Valid() && b.heap.Valid() && |b.ents| < Blocks.U64
    modifies b.heap`pages, b.heap`subs, b.heap`nextSub, b.heap`root
    ensures r.None? ==> |b.heap.pages| == MAX_PAGE_INDEX + 1
    ensures r.Some? && |key| == b.keySize ==> Found(b.ents, key, r.value)
    ensures all.Some? ==> all.value.Ok? && multiset(all.value.value) == multiset(b.ents) && Ascending(all.value.value)
    ensures r.Some? ==> all.Some?
  {
    hide On, Pairs, Int, Extends, Named, Ascending, DistinctKeys, Sized, HeaderBytes;
    ghost var es, t, levels;
    var hid;
    hid, es, t, levels := b.Build();
    if hid.Err? {
      return None, None;
    }
    var v := OpenBTH(b.heap.pages, 0, b.heap.root, b.keySize, b.valSize, es, t, levels);
    var found := Lookup(b.heap.pages, v.value, key, hid.value, es, t);
    if |key| == b.keySize {
      SameFound(es, b.ents, key, found);
    }
    var entries := Entries(b.heap.pages, v.value, hid.value, es, t);
    return Some(found), Some(entries);
  }

  /** BTHView.Entries: the sorted pairs. */
  method Entries(pages: seq<Allocs>, v: BthView, ghost hid: nat, ghost es: seq<KV>, ghost t: Tree)
    returns (r: Result<seq<KV>>)
    requires Built(pages, hid, v.keySize, v.valSize, es, t, v.levels) && v.root == (if es == [] then 0 else t.hid)
    ensures r == Ok(es)
  {
    RootZero(pages, es, t, v.levels, v.keySize, v.valSize);
    hide On, Pairs;
    if v.root == 0 {
      return Ok([]);
    }
    r := Collect(pages, v.root, v.levels, v.keySize, v.valSize, t);
  }
}
