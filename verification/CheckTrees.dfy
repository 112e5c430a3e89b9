/** CheckTrees and the walks that trust it (ndb.go). */
module TreeChecker {
  import opened Common
  import opened Geometry
  import opened Blocks
  import opened Allocation
  import opened Catalog
  import opened NodeDatabase
  import opened BTree
  import opened TreeEncoder
  import opened CatalogEncoder

  ghost predicate DistinctBIDs(refs: seq<BREF>) {
    forall i, j | 0 <= i < j < |refs| :: refs[i].bid != refs[j].bid
  }

  ghost function BIDs(refs: seq<BREF>): set<nat> {
    set r | r in refs :: r.bid
  }

  predicate RefFine(r: BREF) {
    r.ib % PAGE_SIZE == 0 && !MetadataPage(r.ib) && r.bid != r.ib
  }

  /** None of the pages was met before, none is met twice, and each has an acceptable place. */
  ghost predicate Unmet(refs: seq<BREF>, seenIB: set<nat>, seenBID: set<nat>) {
    && DistinctIBs(refs) && IBs(refs) !! seenIB && DistinctBIDs(refs) && BIDs(refs) !! seenBID
    && forall r | r in refs :: RefFine(r)
  }

  /** The tree below `ref` as check accepts it. */
  ghost predicate Checked(img: Image, ptype: PType, ref: BREF, s: Shape, seenIB: set<nat>, seenBID: set<nat>) {
    s.ref == ref && In(img, ptype, s) && Unmet(Refs(s), seenIB, seenBID)
  }

  lemma BidsSplit(a: seq<BREF>, b: seq<BREF>)
    ensures BIDs(a + b) == BIDs(a) + BIDs(b)
    ensures DistinctBIDs(a + b) <==> DistinctBIDs(a) && DistinctBIDs(b) && BIDs(a) !! BIDs(b)
  {
    var c := a + b;
    assert forall i | 0 <= i < |a| :: c[i] == a[i];
    assert forall i | 0 <= i < |b| :: c[|a| + i] == b[i];
    assert forall r | r in c :: r in a || r in b;
    if DistinctBIDs(c) {
      forall i, j | 0 <= i < |a| && 0 <= j < |b|
        ensures a[i].bid != b[j].bid
      {
        assert c[i].bid != c[|a| + j].bid;
      }
      forall i, j | 0 <= i < j < |b|
        ensures b[i].bid != b[j].bid
      {
        assert c[|a| + i].bid != c[|a| + j].bid;
      }
    }
    if DistinctBIDs(a) && DistinctBIDs(b) && BIDs(a) !! BIDs(b) {
      forall i, j | 0 <= i < j < |c|
        ensures c[i].bid != c[j].bid
      {
        if i < |a| <= j {
          assert c[i].bid in BIDs(a) && c[j].bid in BIDs(b);
        }
      }
    }
  }

  /** Meeting one list and then another is meeting both. */
  lemma UnmetSplit(a: seq<BREF>, b: seq<BREF>, seenIB: set<nat>, seenBID: set<nat>)
    ensures Unmet(a + b, seenIB, seenBID) <==> Unmet(a, seenIB, seenBID) && Unmet(b, seenIB + IBs(a), seenBID + BIDs(a))
    ensures IBs(a + b) == IBs(a) + IBs(b) && BIDs(a + b) == BIDs(a) + BIDs(b)
  {
    hide DistinctIBs, DistinctBIDs, RefFine;
    DistinctSplit(a, b);
    BidsSplit(a, b);
    assert forall r :: r in a + b <==> r in a || r in b;
    hide IBs, BIDs;
  }

  lemma UnmetOne(r: BREF, seenIB: set<nat>, seenBID: set<nat>)
    ensures Unmet([r], seenIB, seenBID) <==> RefFine(r) && r.ib !in seenIB && r.bid !in seenBID
    ensures IBs([r]) == {r.ib} && BIDs([r]) == {r.bid}
  {
    hide RefFine;
  }

  /** An image determines the tree below a reference. */
  lemma {:induction false} InUnique(img: Image, ptype: PType, s: Shape, t: Shape)
    requires In(img, ptype, s) && In(img, ptype, t) && s.ref == t.ref
    ensures s == t
    decreases s
  {
    hide PageOk, FirstKey;
    if s.level > 0 {
      forall i | 0 <= i < |s.kids|
        ensures s.kids[i] == t.kids[i]
      {
        KidKeys(img, ptype, s);
        KidKeys(img, ptype, t);
        InUnique(img, ptype, s.kids[i], t.kids[i]);
      }
    }
  }

  lemma NodeRefs(s: Shape)
    requires s.level > 0
    ensures Refs(s) == [s.ref] + RefsAll(s.kids)
  {
  }

  lemma KidsPrefix(img: Image, ptype: PType, s: Shape, kids: seq<Shape>)
    requires In(img, ptype, s) && s.level > 0 && |kids| <= |s.kids| && InAll(img, ptype, kids)
    requires forall j | 0 <= j < |kids| :: kids[j].ref == s.kids[j].ref
    ensures s.kids[..|kids|] == kids
  {
    KidKeys(img, ptype, s);
    hide In, FirstKey;
    forall j | 0 <= j < |kids|
      ensures s.kids[j] == kids[j]
    {
      InUnique(img, ptype, kids[j], s.kids[j]);
    }
  }

  /** Whatever tree could be accepted below `s.ref`, its first children are the ones already checked. */
  lemma NextKid(img: Image, ptype: PType, s: Shape, kids: seq<Shape>, seenIB: set<nat>, seenBID: set<nat>)
    requires In(img, ptype, s) && s.level > 0 && |kids| < |s.kids| && InAll(img, ptype, kids)
    requires forall j | 0 <= j < |kids| :: kids[j].ref == s.kids[j].ref
    requires Unmet(Refs(s), seenIB, seenBID)
    ensures Checked(img, ptype, s.kids[|kids|].ref, s.kids[|kids|],
                    seenIB + IBs([s.ref] + RefsAll(kids)), seenBID + BIDs([s.ref] + RefsAll(kids)))
  {
    hide Unmet, In, FirstKey, IBs, BIDs, RefsAll, FlatAll, Flat, Refs;
    KidKeys(img, ptype, s);
    NodeRefs(s);
    var i := |kids|;
    KidsPrefix(img, ptype, s, kids);
    FlatAllPart(s.kids, i);
    var a, b, c := [s.ref] + RefsAll(kids), Refs(s.kids[i]), RefsAll(s.kids[i + 1..]);
    Regroup(s.ref, RefsAll(kids), b, c);
    UnmetMiddle(a, b, c, seenIB, seenBID);
  }

  lemma Regroup(r: BREF, x: seq<BREF>, y: seq<BREF>, z: seq<BREF>)
    ensures [r] + (x + y + z) == ([r] + x) + (y + z)
  {
  }

  lemma UnmetMiddle(a: seq<BREF>, b: seq<BREF>, c: seq<BREF>, seenIB: set<nat>, seenBID: set<nat>)
    requires Unmet(a + (b + c), seenIB, seenBID)
    ensures Unmet(b, seenIB + IBs(a), seenBID + BIDs(a))
  {
    hide Unmet, IBs, BIDs;
    UnmetSplit(a, b + c, seenIB, seenBID);
    UnmetSplit(b, c, seenIB + IBs(a), seenBID + BIDs(a));
  }

  lemma LeafChecked(img: Image, ptype: PType, ref: BREF, seenIB: set<nat>, seenBID: set<nat>)
    requires ref.ib in img && PageOk(img[ref.ib]) && img[ref.ib].bid == ref.bid && img[ref.ib].ptype == ptype &&
      img[ref.ib].level == 0
    requires RefFine(ref) && ref.ib !in seenIB && ref.bid !in seenBID
    ensures var s := Shape(ref, 0, img[ref.ib].leaves, []);
      && Checked(img, ptype, ref, s, seenIB, seenBID) && IBs(Refs(s)) == {ref.ib} && BIDs(Refs(s)) == {ref.bid}
  {
    UnmetOne(ref, seenIB, seenBID);
    assert Refs(Shape(ref, 0, img[ref.ib].leaves, [])) == [ref];
    hide Unmet, PageOk, RefFine, IBs, BIDs;
  }

  lemma NodeChecked(img: Image, ptype: PType, ref: BREF, kids: seq<Shape>, seenIB: set<nat>, seenBID: set<nat>)
    requires ref.ib in img && PageOk(img[ref.ib]) && img[ref.ib].bid == ref.bid && img[ref.ib].ptype == ptype &&
      img[ref.ib].level > 0
    requires InAll(img, ptype, kids) && |img[ref.ib].kids| == |kids|
    requires forall i | 0 <= i < |kids| :: img[ref.ib].kids[i] == BTEntry(FirstKey(kids[i]), kids[i].ref)
    requires Unmet([ref] + RefsAll(kids), seenIB, seenBID)
    ensures var s := Shape(ref, img[ref.ib].level, [], kids);
      Checked(img, ptype, ref, s, seenIB, seenBID) && Refs(s) == [ref] + RefsAll(kids)
  {
    var s := Shape(ref, img[ref.ib].level, [], kids);
    assert Refs(s) == [ref] + RefsAll(kids);
    hide Unmet, FirstKey, RefsAll, Refs;
    assert In(img, ptype, s) by {
      NodeIn(img, ptype, ref, kids);
    }
  }

  lemma NodeIn(img: Image, ptype: PType, ref: BREF, kids: seq<Shape>)
    requires ref.ib in img && PageOk(img[ref.ib]) && img[ref.ib].bid == ref.bid && img[ref.ib].ptype == ptype &&
      img[ref.ib].level > 0
    requires InAll(img, ptype, kids) && |img[ref.ib].kids| == |kids|
    requires forall i | 0 <= i < |kids| :: img[ref.ib].kids[i] == BTEntry(FirstKey(kids[i]), kids[i].ref)
    ensures In(img, ptype, Shape(ref, img[ref.ib].level, [], kids))
  {
    assert img[ref.ib].leaves == [];
    hide PageOk, FirstKey;
  }

  /** The page itself fails a check, so no tree below it is acceptable. */
  lemma PageRejected(img: Image, ptype: PType, ref: BREF, t: Shape, seenIB: set<nat>, seenBID: set<nat>)
    requires Checked(img, ptype, ref, t, seenIB, seenBID)
    ensures RefFine(ref) && ref.ib !in seenIB && ref.bid !in seenBID
    ensures ref.ib in img && PageOk(img[ref.ib]) && img[ref.ib].bid == ref.bid && img[ref.ib].ptype == ptype &&
      img[ref.ib].level == t.level
  {
    assert ref in Refs(t) && Refs(t)[0] == ref;
    InHere(img, ptype, t);
    hide In, PageOk, RefFine, Refs;
    assert ref.ib in IBs(Refs(t)) && ref.bid in BIDs(Refs(t));
  }

  lemma KidsSnoc(kids: seq<Shape>, k: Shape)
    ensures RefsAll(kids + [k]) == RefsAll(kids) + Refs(k)
  {
    FlatAllAppend(kids, [k]);
    FlatAllOne(k);
    hide RefsAll, FlatAll, Refs, Flat;
  }

  class TreeCheck {
    const img: Image
    var seenIB: set<nat>
    var seenBID: set<nat>

    constructor (img: Image)
      ensures this.img == img && seenIB == {} && seenBID == {}
    {
      this.img, seenIB, seenBID := img, {}, {};
    }

    /** Follows a root reference; accepts exactly when there is a finite tree of pages not met before. */
    method Check(ref: BREF, wantType: PType) returns (r: Result<nat>, ghost s: Shape)
      modifies this
      ensures r.Ok? ==> Checked(img, wantType, ref, s, old(seenIB), old(seenBID)) && r.value == FirstKey(s)
      ensures r.Ok? ==> seenIB == old(seenIB) + IBs(Refs(s)) && seenBID == old(seenBID) + BIDs(Refs(s))
      ensures r.Err? ==> forall t: Shape :: !Checked(img, wantType, ref, t, old(seenIB), old(seenBID))
      decreases |img.Keys - seenIB|
    {
      hide In, Refs, RefsAll, FirstKey, PageOk, Unmet, IBs, BIDs, RefFine, MetadataPage;
      s := Shape(ref, 0, [], []);
      ghost var ib0, bid0 := seenIB, seenBID;
      forall t: Shape | Checked(img, wantType, ref, t, ib0, bid0)
        ensures RefFine(ref) && ref.ib !in ib0 && ref.bid !in bid0
        ensures ref.ib in img && PageOk(img[ref.ib]) && img[ref.ib].bid == ref.bid && img[ref.ib].ptype == wantType &&
          img[ref.ib].level == t.level
      {
        PageRejected(img, wantType, ref, t, ib0, bid0);
      }
      FineParts(ref);
      if ref.ib % PAGE_SIZE != 0 {
        return Err(InvariantBroken), s;
      }
      if MetadataPage(ref.ib) {
        return Err(InvariantBroken), s;
      }
      if ref.ib in seenIB {
        return Err(InvariantBroken), s;
      }
      seenIB := seenIB + {ref.ib};
      var page := PageAt(img, ref);
      if page.Err? {
        return Err(InvariantBroken), s;
      }
      var v := page.value;
      if v.ptype != wantType {
        return Err(InvariantBroken), s;
      }
      if v.bid == ref.ib {
        return Err(InvariantBroken), s;
      }
      if v.bid in seenBID {
        return Err(InvariantBroken), s;
      }
      seenBID := seenBID + {v.bid};
      if v.level == 0 {
        s := Shape(ref, 0, v.leaves, []);
        LeafChecked(img, wantType, ref, ib0, bid0);
        LeafFirst(ref, v);
        return Ok(if |v.leaves| == 0 then 0 else Key(v.leaves[0])), s;
      }
      var childFirst := 0;
      ghost var kids: seq<Shape> := [];
      NoKids(ref, ib0, bid0);
      assert img.Keys - seenIB < img.Keys - ib0;
      SmallerSet(img.Keys - seenIB, img.Keys - ib0);
      for i := 0 to |v.kids|
        invariant |kids| == i && InAll(img, wantType, kids)
        invariant forall j | 0 <= j < i :: v.kids[j] == BTEntry(FirstKey(kids[j]), kids[j].ref)
        invariant Unmet([ref] + RefsAll(kids), ib0, bid0)
        invariant seenIB == ib0 + IBs([ref] + RefsAll(kids)) && seenBID == bid0 + BIDs([ref] + RefsAll(kids))
        invariant |img.Keys - seenIB| < |img.Keys - ib0|
        invariant childFirst == if i == 0 then 0 else FirstKey(kids[0])
      {
        ghost var before := seenIB;
        forall t: Shape | Checked(img, wantType, ref, t, ib0, bid0)
          ensures |t.kids| == |v.kids| && v.kids[i] == BTEntry(FirstKey(t.kids[i]), t.kids[i].ref)
          ensures Checked(img, wantType, v.kids[i].ref, t.kids[i], seenIB, seenBID)
        {
          KidKeys(img, wantType, t);
          NextKid(img, wantType, t, kids, ib0, bid0);
        }
        var fk;
        ghost var k;
        fk, k := Check(v.kids[i].ref, wantType);
        if fk.Err? {
          return Err(InvariantBroken), s;
        }
        if v.kids[i].key != fk.value {
          SameKid(img, wantType, k);
          return Err(InvariantBroken), s;
        }
        if i == 0 {
          childFirst := fk.value;
        }
        KidsSnoc(kids, k);
        assert [ref] + RefsAll(kids + [k]) == ([ref] + RefsAll(kids)) + Refs(k);
        UnmetSplit([ref] + RefsAll(kids), Refs(k), ib0, bid0);
        FewerLeft(img, before, seenIB);
        kids := kids + [k];
      }
      NodeChecked(img, wantType, ref, kids, ib0, bid0);
      s := Shape(ref, v.level, [], kids);
      NodeFirst(s);
      return Ok(childFirst), s;
    }
  }

  lemma FineParts(ref: BREF)
    ensures RefFine(ref) <==> ref.ib % PAGE_SIZE == 0 && !MetadataPage(ref.ib) && ref.bid != ref.ib
  {
  }

  lemma LeafFirst(ref: BREF, v: Page)
    ensures FirstKey(Shape(ref, 0, v.leaves, [])) == if |v.leaves| == 0 then 0 else Key(v.leaves[0])
  {
  }

  lemma NodeFirst(s: Shape)
    requires s.level > 0
    ensures FirstKey(s) == if s.kids == [] then 0 else FirstKey(s.kids[0])
  {
  }

  lemma NoKids(ref: BREF, seenIB: set<nat>, seenBID: set<nat>)
    requires RefFine(ref) && ref.ib !in seenIB && ref.bid !in seenBID
    ensures Unmet([ref] + RefsAll([]), seenIB, seenBID)
    ensures IBs([ref] + RefsAll([])) == {ref.ib} && BIDs([ref] + RefsAll([])) == {ref.bid}
  {
    FlatAllNone();
    assert [ref] + [] == [ref];
    UnmetOne(ref, seenIB, seenBID);
    hide Unmet, RefFine, IBs, BIDs;
  }

  lemma SmallerSet(a: set<nat>, b: set<nat>)
    requires a < b
    ensures |a| < |b|
  {
    assert b == a + (b - a);
    assert b - a != {};
  }

  lemma FewerLeft(img: Image, a: set<nat>, b: set<nat>)
    requires a <= b
    ensures |img.Keys - b| <= |img.Keys - a|
  {
    SubsetSize(img.Keys - b, img.Keys - a);
  }

  lemma SameKid(img: Image, ptype: PType, k: Shape)
    requires In(img, ptype, k)
    ensures forall t | In(img, ptype, t) && t.ref == k.ref :: t == k
  {
    forall t | In(img, ptype, t) && t.ref == k.ref
      ensures t == k
    {
      InUnique(img, ptype, t, k);
    }
  }

  // ---------- walks without a visited set ----------

  /** walkLeaves: on a checked tree the recursion ends and visits the entries in order, whatever the page levels say. */
  method WalkLeaves(img: Image, root: BREF, ghost ptype: PType, ghost s: Shape) returns (r: Result<seq<Entry>>)
    requires In(img, ptype, s) && s.ref == root
    ensures r == Ok(Flat(s))
    decreases s
  {
    hide PageOk, FirstKey;
    InHere(img, ptype, s);
    var page := PageAt(img, root);
    var v := page.value;
    if v.level == 0 {
      return Ok(v.leaves);
    }
    KidKeys(img, ptype, s);
    hide In;
    var out: seq<Entry> := [];
    NoGroup(img, ptype, 0, s.kids);
    FlatAllNone();
    for i := 0 to |v.kids|
      invariant out == FlatAll(s.kids[..i])
    {
      hide FlatAll, Flat;
      var sub := WalkLeaves(img, v.kids[i].ref, ptype, s.kids[i]);
      assert s.kids[..i + 1] == s.kids[..i] + [s.kids[i]];
      FlatAllAppend(s.kids[..i], [s.kids[i]]);
      FlatAllOne(s.kids[i]);
      out := out + sub.value;
    }
    assert s.kids[..|v.kids|] == s.kids;
    return Ok(out);
  }

  function Offsets(refs: seq<BREF>): seq<nat> {
    seq(|refs|, i requires 0 <= i < |refs| => refs[i].ib)
  }

  lemma OffsetsAppend(a: seq<BREF>, b: seq<BREF>)
    ensures Offsets(a + b) == Offsets(a) + Offsets(b)
  {
  }

  lemma RefsOf(s: Shape)
    ensures Refs(s) == [s.ref] + (if s.level == 0 then [] else RefsAll(s.kids)) && Offsets([s.ref]) == [s.ref.ib]
  {
  }

  /** collectPageIBs of one tree: the offsets of its pages, parents first. */
  method CollectPages(img: Image, root: BREF, ghost ptype: PType, ghost s: Shape) returns (r: Result<seq<nat>>)
    requires In(img, ptype, s) && s.ref == root
    ensures r == Ok(Offsets(Refs(s)))
    decreases s
  {
    hide PageOk, FirstKey, Refs, RefsAll, Offsets;
    InHere(img, ptype, s);
    RefsOf(s);
    var page := PageAt(img, root);
    var v := page.value;
    if v.level == 0 {
      return Ok([root.ib]);
    }
    KidKeys(img, ptype, s);
    hide In;
    var out: seq<nat> := [root.ib];
    FlatAllNone();
    assert s.kids[..0] == [] && [root] + [] == [root];
    for i := 0 to |v.kids|
      invariant out == Offsets([root] + RefsAll(s.kids[..i]))
    {
      var sub := CollectPages(img, v.kids[i].ref, ptype, s.kids[i]);
      assert s.kids[..i + 1] == s.kids[..i] + [s.kids[i]];
      FlatAllAppend(s.kids[..i], [s.kids[i]]);
      FlatAllOne(s.kids[i]);
      OffsetsAppend([root] + RefsAll(s.kids[..i]), Refs(s.kids[i]));
      assert [root] + (RefsAll(s.kids[..i]) + Refs(s.kids[i])) == [root] + RefsAll(s.kids[..i]) + Refs(s.kids[i]);
      out := out + sub.value;
    }
    assert s.kids[..|v.kids|] == s.kids;
    return Ok(out);
  }

  lemma {:induction false} EntriesTyped(img: Image, ptype: PType, s: Shape)
    requires In(img, ptype, s)
    ensures forall e | e in Flat(s) :: EntryOk(ptype, e)
    decreases s, 1
  {
    hide EntryOk, FirstKey;
    if s.level > 0 {
      hide PageOk;
      EntriesTypedAll(img, ptype, s.kids);
    }
  }

  lemma {:induction false} EntriesTypedAll(img: Image, ptype: PType, ss: seq<Shape>)
    requires InAll(img, ptype, ss)
    ensures forall e | e in FlatAll(ss) :: EntryOk(ptype, e)
    decreases ss, 0
  {
    hide EntryOk, In;
    if ss != [] {
      EntriesTyped(img, ptype, ss[0]);
      assert forall i | 0 <= i < |ss| - 1 :: ss[1..][i] == ss[i + 1];
      EntriesTypedAll(img, ptype, ss[1..]);
    }
  }

  // ---------- the leaf scans ----------

  /** References to `bid` from the listed nodes. */
  function NodeCount(es: seq<Entry>, bid: nat): nat {
    if es == [] then 0
    else
      var e := es[|es| - 1];
      NodeCount(es[..|es| - 1], bid) + (if e.N? && bid != 0 && e.n.data == bid then 1 else 0) +
        if e.N? && bid != 0 && e.n.sub == bid then 1 else 0
  }

  ghost predicate Lists(bs: seq<Entry>, bid: nat) {
    exists i | 0 <= i < |bs| :: Key(bs[i]) == bid
  }

  ghost predicate OnceEach(bs: seq<Entry>) {
    forall i, j | 0 <= i < j < |bs| :: Key(bs[i]) != Key(bs[j])
  }

  predicate Named(e: Entry, bid: nat) {
    e.N? && bid != 0 && (e.n.data == bid || e.n.sub == bid)
  }

  /** Blocks once each and owned; every node reference names one; counts at least 1 plus the node references. */
  ghost predicate Covered(ns: seq<Entry>, bs: seq<Entry>) {
    && OnceEach(bs)
    && (forall i | 0 <= i < |bs| :: bs[i].B? && bs[i].b.refs >= 2)
    && (forall i, bid | 0 <= i < |ns| && Named(ns[i], bid) :: Lists(bs, bid))
    && (forall i | 0 <= i < |bs| :: bs[i].b.refs >= (1 + NodeCount(ns, bs[i].b.bid)) % U16)
  }

  method ScanBlocks(bs: seq<Entry>) returns (r: Option<map<nat, BBTEntry>>)
    requires forall i | 0 <= i < |bs| :: bs[i].B?
    ensures r.Some? <==> OnceEach(bs) && forall i | 0 <= i < |bs| :: bs[i].b.refs >= 2
    ensures r.Some? ==>
      (forall bid :: bid in r.value <==> Lists(bs, bid)) && forall i | 0 <= i < |bs| ::
      bs[i].b.bid in r.value && r.value[bs[i].b.bid] == bs[i].b
  {
    var bbt: map<nat, BBTEntry> := map[];
    for i := 0 to |bs|
      invariant OnceEach(bs[..i]) && forall k | 0 <= k < i :: bs[k].b.refs >= 2
      invariant forall k | 0 <= k < i :: bs[k].b.bid in bbt && bbt[bs[k].b.bid] == bs[k].b
      invariant forall bid | bid in bbt :: Lists(bs[..i], bid)
    {
      ScanStep(bs, i);
      if bs[i].b.bid in bbt {
        assert Lists(bs[..i], Key(bs[i]));
        return None;
      }
      if bs[i].b.refs < 2 {
        return None;
      }
      bbt := bbt[bs[i].b.bid := bs[i].b];
    }
    assert bs[..|bs|] == bs;
    return Some(bbt);
  }

  lemma ScanStep(bs: seq<Entry>, i: nat)
    requires i < |bs|
    ensures OnceEach(bs[..i + 1]) <==> OnceEach(bs[..i]) && !Lists(bs[..i], Key(bs[i]))
    ensures OnceEach(bs) ==> OnceEach(bs[..i + 1])
    ensures forall bid :: Lists(bs[..i + 1], bid) <==> Lists(bs[..i], bid) || Key(bs[i]) == bid
  {
    hide Key;
    var a, b := bs[..i], bs[..i + 1];
    assert b[i] == bs[i] && forall k | 0 <= k < i :: b[k] == a[k] == bs[k];
  }

  method ScanNodes(ns: seq<Entry>, bbt: map<nat, BBTEntry>) returns (r: Option<map<nat, nat>>)
    requires forall i | 0 <= i < |ns| :: ns[i].N?
    ensures r.Some? <==> forall i, bid | 0 <= i < |ns| && Named(ns[i], bid) :: bid in bbt
    ensures r.Some? ==> forall bid :: Get(r.value, bid) == NodeCount(ns, bid)
  {
    var refs: map<nat, nat> := map[];
    for i := 0 to |ns|
      invariant forall k, bid | 0 <= k < i && Named(ns[k], bid) :: bid in bbt
      invariant forall bid :: Get(refs, bid) == NodeCount(ns[..i], bid)
    {
      var e := ns[i].n;
      assert ns[..i + 1][..i] == ns[..i];
      if e.data != 0 {
        if e.data !in bbt {
          assert Named(ns[i], e.data);
          return None;
        }
        refs := refs[e.data := Get(refs, e.data) + 1];
      }
      if e.sub != 0 {
        if e.sub !in bbt {
          assert Named(ns[i], e.sub);
          return None;
        }
        refs := refs[e.sub := Get(refs, e.sub) + 1];
      }
    }
    assert ns[..|ns|] == ns;
    return Some(refs);
  }

  method CheckCover(ns: seq<Entry>, bs: seq<Entry>) returns (ok: bool)
    requires (forall i | 0 <= i < |ns| :: ns[i].N?) && forall i | 0 <= i < |bs| :: bs[i].B?
    ensures ok <==> Covered(ns, bs)
  {
    hide OnceEach, Lists, NodeCount;
    var bbt := ScanBlocks(bs);
    if bbt.None? {
      return false;
    }
    var refs := ScanNodes(ns, bbt.value);
    if refs.None? {
      return false;
    }
    var todo := bbt.value.Keys;
    while todo != {}
      invariant todo <= bbt.value.Keys
      invariant forall i | 0 <= i < |bs| && bs[i].b.bid !in todo ::
        bs[i].b.refs >= (1 + NodeCount(ns, bs[i].b.bid)) % U16
      decreases |todo|
    {
      var bid :| bid in todo;
      if bbt.value[bid].refs < (1 + Get(refs.value, bid)) % U16 {
        ListedEntry(bs, bid);
        return false;
      }
      todo := todo - {bid};
    }
    return true;
  }

  lemma ListedEntry(bs: seq<Entry>, bid: nat)
    requires Lists(bs, bid) && forall i | 0 <= i < |bs| :: bs[i].B?
    ensures exists i | 0 <= i < |bs| :: bs[i].b.bid == bid
  {
    var i :| 0 <= i < |bs| && Key(bs[i]) == bid;
    assert bs[i].b.bid == bid;
  }

  /** An image CheckTrees accepts: two finite trees sharing no page, and a covered catalog. */
  ghost predicate Sound(t: Trees, ns: Shape, bs: Shape) {
    && Checked(t.img, NBT, t.nbt, ns, {}, {})
    && Checked(t.img, BBT, t.bbt, bs, IBs(Refs(ns)), BIDs(Refs(ns)))
    && Covered(Flat(ns), Flat(bs))
  }

  /** Accepts exactly the sound images, and terminates on every image at all. */
  method CheckTrees(t: Trees) returns (r: Result<()>, ghost ns: Shape, ghost bs: Shape)
    ensures r.Ok? ==> Sound(t, ns, bs)
    ensures r.Err? ==> forall ns', bs' :: !Sound(t, ns', bs')
  {
    hide Unmet, IBs, BIDs, Covered, Flat, Refs, In, EntryOk;
    bs := Shape(t.bbt, 0, [], []);
    var c := new TreeCheck(t.img);
    var first;
    first, ns := c.Check(t.nbt, NBT);
    if first.Err? {
      return Err(first.error), ns, bs;
    }
    OnlyChecked(t.img, NBT, ns, {}, {});
    assert {} + IBs(Refs(ns)) == IBs(Refs(ns)) && {} + BIDs(Refs(ns)) == BIDs(Refs(ns));
    first, bs := c.Check(t.bbt, BBT);
    if first.Err? {
      return Err(first.error), ns, bs;
    }
    OnlyChecked(t.img, BBT, bs, IBs(Refs(ns)), BIDs(Refs(ns)));
    var blockList := WalkLeaves(t.img, t.bbt, BBT, bs);
    var nodeList := WalkLeaves(t.img, t.nbt, NBT, ns);
    LeafTypes(t.img, ns, bs);
    var ok := CheckCover(nodeList.value, blockList.value);
    if !ok {
      return Err(InvariantBroken), ns, bs;
    }
    return Ok(()), ns, bs;
  }

  lemma OnlyChecked(img: Image, ptype: PType, s: Shape, seenIB: set<nat>, seenBID: set<nat>)
    requires Checked(img, ptype, s.ref, s, seenIB, seenBID)
    ensures forall t, a, b | Checked(img, ptype, s.ref, t, a, b) :: t == s
  {
    hide Unmet;
    SameKid(img, ptype, s);
  }

  lemma LeafTypes(img: Image, ns: Shape, bs: Shape)
    requires In(img, NBT, ns) && In(img, BBT, bs)
    ensures (forall i | 0 <= i < |Flat(ns)| :: Flat(ns)[i].N?) && forall i | 0 <= i < |Flat(bs)| :: Flat(bs)[i].B?
  {
    EntriesTyped(img, NBT, ns);
    EntriesTyped(img, BBT, bs);
    hide In, Flat;
    assert forall i | 0 <= i < |Flat(ns)| :: EntryOk(NBT, Flat(ns)[i]);
    assert forall i | 0 <= i < |Flat(bs)| :: EntryOk(BBT, Flat(bs)[i]);
  }

  // ---------- every successful Encode is accepted ----------

  lemma IssuedUnmet(img: Image, next: nat, refs: seq<BREF>)
    requires PagesIssued(img, next) && DistinctIBs(refs) && forall r | r in refs ::
      r.ib in img && img[r.ib].bid == r.bid
    ensures Unmet(refs, {}, {})
  {
    hide MetadataPage;
    forall i, j | 0 <= i < j < |refs|
      ensures refs[i].bid != refs[j].bid
    {
      assert refs[i] in refs && refs[j] in refs && refs[i].ib != refs[j].ib;
    }
  }

  ghost function DataIn(es: seq<Entry>, bid: nat): set<nat> {
    set e | e in es && e.N? && e.n.data == bid :: e.n.nid
  }

  ghost function SubIn(es: seq<Entry>, bid: nat): set<nat> {
    set e | e in es && e.N? && e.n.sub == bid :: e.n.nid
  }

  lemma DataStep(init: seq<Entry>, e: Entry, bid: nat)
    requires e.N? && forall x | x in init :: x.N? && x.n.nid != e.n.nid
    ensures |DataIn(init + [e], bid)| == |DataIn(init, bid)| + if e.n.data == bid then 1 else 0
  {
    assert forall x :: x in init + [e] <==> x in init || x == e;
    assert DataIn(init + [e], bid) == DataIn(init, bid) + if e.n.data == bid then {e.n.nid} else {};
  }

  lemma SubStep(init: seq<Entry>, e: Entry, bid: nat)
    requires e.N? && forall x | x in init :: x.N? && x.n.nid != e.n.nid
    ensures |SubIn(init + [e], bid)| == |SubIn(init, bid)| + if e.n.sub == bid then 1 else 0
  {
    assert forall x :: x in init + [e] <==> x in init || x == e;
    assert SubIn(init + [e], bid) == SubIn(init, bid) + if e.n.sub == bid then {e.n.nid} else {};
  }

  lemma {:induction false} CountIsRefs(es: seq<Entry>, bid: nat)
    requires Sorted(es, false) && bid != 0 && forall e | e in es :: e.N?
    ensures NodeCount(es, bid) == |DataIn(es, bid)| + |SubIn(es, bid)|
  {
    hide DataIn, SubIn, Sorted;
    if es == [] {
      NoCount(bid);
    } else {
      var init, e := es[..|es| - 1], es[|es| - 1];
      SortedInit(es);
      CountIsRefs(init, bid);
      assert es == init + [e] && e in es && forall x | x in init :: x in es;
      forall x | x in init
        ensures x.N? && x.n.nid != e.n.nid
      {
        assert x in es && Key(x) < Key(e);
      }
      DataStep(init, e, bid);
      SubStep(init, e, bid);
    }
  }

  lemma NoCount(bid: nat)
    ensures DataIn([], bid) == {} && SubIn([], bid) == {}
  {
  }

  lemma BlockIds(w: World, pages: set<nat>)
    requires Holds(w, {}, {}, pages)
    ensures forall b | b in w.c.blocks :: b != 0 && w.c.blocks[b].bid == b
  {
    hide Space, Edges, LiveRefs, Used, Meta, Counted, Closed, RefCounts;
  }

  lemma CountsNodes(es: seq<Entry>, nodes: map<nat, NBTEntry>, bid: nat)
    requires Sorted(es, false) && ListsNodes(es, nodes) && bid != 0
    ensures NodeCount(es, bid) == NbtRefs(nodes, bid)
  {
    CountIsRefs(es, bid);
    assert DataIn(es, bid) == WithData(nodes, bid) by {
      forall k | k in WithData(nodes, bid)
        ensures k in DataIn(es, bid)
      {
        assert N(nodes[k]) in es;
      }
    }
    assert SubIn(es, bid) == WithSub(nodes, bid) by {
      forall k | k in WithSub(nodes, bid)
        ensures k in SubIn(es, bid)
      {
        assert N(nodes[k]) in es;
      }
    }
  }

  /** The stored counts pass the scans: at least one reference, and none of the node references lost. */
  ghost predicate CountsFit(c: Cat) {
    forall b | b in c.blocks :: c.blocks[b].refs >= 2 && c.blocks[b].refs >= (1 + NbtRefs(c.nodes, b)) % U16
  }

  lemma ListedBlock(bs: seq<Entry>, blocks: map<nat, BBTEntry>, b: nat)
    requires ListsBlocks(bs, blocks) && b in blocks
    ensures Lists(bs, b) && exists i | 0 <= i < |bs| :: bs[i] == B(blocks[b])
  {
    var i :| 0 <= i < |bs| && bs[i] == B(blocks[b]);
    assert Key(bs[i]) == b;
  }

  lemma SortedOnce(bs: seq<Entry>)
    requires Sorted(bs, false)
    ensures OnceEach(bs)
  {
    hide Key;
    forall i, j | 0 <= i < j < |bs|
      ensures Key(bs[i]) != Key(bs[j])
    {
      assert View(false, Key(bs[i])) < View(false, Key(bs[j]));
    }
  }

  lemma CatalogCovered(ns: seq<Entry>, bs: seq<Entry>, w: World, pages: set<nat>)
    requires Holds(w, {}, {}, pages) && Sorted(ns, false) && Sorted(bs, false)
    requires ListsNodes(ns, w.c.nodes) && ListsBlocks(bs, w.c.blocks)
    ensures Covered(ns, bs) <==> CountsFit(w.c)
  {
    hide Own, LiveRefs, Space, Edges, Used, Meta, NbtRefs, NodeCount, Holds, OnceEach, Lists, Sorted;
    BlockIds(w, pages);
    HoldsChecks(w, pages);
    SortedOnce(bs);
    forall b | b in w.c.blocks
      ensures Lists(bs, b) && NodeCount(ns, b) == NbtRefs(w.c.nodes, b)
      ensures exists i | 0 <= i < |bs| :: bs[i] == B(w.c.blocks[b])
    {
      CountsNodes(ns, w.c.nodes, b);
      ListedBlock(bs, w.c.blocks, b);
    }
    assert forall i | 0 <= i < |bs| :: bs[i] in bs;
    assert forall i | 0 <= i < |ns| :: ns[i] in ns;
    if Covered(ns, bs) {
      forall b | b in w.c.blocks
        ensures w.c.blocks[b].refs >= 2 && w.c.blocks[b].refs >= (1 + NbtRefs(w.c.nodes, b)) % U16
      {
        var i :| 0 <= i < |bs| && bs[i] == B(w.c.blocks[b]);
      }
    }
  }

  /** CheckTrees accepts what Encode produced exactly when no stored count was truncated below the scans' bounds. */
  lemma EncodeAccepted(t: Trees, w: World, ns: Shape, bs: Shape, livePages: seq<nat>, next: nat)
    requires Holds(w, {}, {}, PageSet(livePages)) && Mirrors(t, w.c, ns, bs)
    requires Accounted(Refs(ns) + Refs(bs), livePages, []) && PagesIssued(t.img, next)
    ensures Sound(t, ns, bs) <==> CountsFit(w.c)
  {
    hide Holds, In, Refs, Flat, Full, Sorted, Unmet, PagesIssued, IBs, BIDs, DistinctIBs, ListsNodes, ListsBlocks,
         Covered, CountsFit;
    RefsIn(t.img, NBT, ns);
    RefsIn(t.img, BBT, bs);
    IssuedUnmet(t.img, next, Refs(ns) + Refs(bs));
    UnmetSplit(Refs(ns), Refs(bs), {}, {});
    assert {} + IBs(Refs(ns)) == IBs(Refs(ns)) && {} + BIDs(Refs(ns)) == BIDs(Refs(ns));
    CatalogCovered(Flat(ns), Flat(bs), w, PageSet(livePages));
  }

  /** With fewer than 65535 references to any block nothing is truncated, so acceptance is unconditional. */
  lemma SmallCountsFit(w: World, pages: set<nat>)
    requires Holds(w, {}, {}, pages) && Orphans(w.c) == {} && forall b | b in w.c.blocks :: LiveRefs(w.c, b) < U16 - 1
    ensures CountsFit(w.c)
  {
    hide Holds, NbtRefs, Orphans;
    HoldsChecks(w, pages);
    forall b | b in w.c.blocks
      ensures w.c.blocks[b].refs >= 2 && w.c.blocks[b].refs >= (1 + NbtRefs(w.c.nodes, b)) % U16
    {
      NotOrphan(w.c, b);
    }
  }

  /** 65536 references truncate to a count of one: such a catalog is refused on reopening. */
  lemma TruncatedCountRefused(w: World, pages: set<nat>, b: nat)
    requires Holds(w, {}, {}, pages) && b in w.c.blocks && LiveRefs(w.c, b) % U16 == 0
    ensures !CountsFit(w.c)
  {
    hide Holds, LiveRefs;
    HoldsChecks(w, pages);
    assert w.c.blocks[b].refs == 1;
  }
}
