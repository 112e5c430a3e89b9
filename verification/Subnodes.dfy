/** Subnode trees: SLBLOCK leaves, one optional SIBLOCK level, and their validator and walker (subnode.go). */
module Subnodes {
  import opened Common
  import opened Geometry
  import opened Blocks
  import opened Allocation
  import opened Catalog
  import opened NodeDatabase
  import opened DataTrees
  import opened DataTreeBuilder

  predicate SLOk(entries: seq<SLEntry>) {
    && 0 < |entries| <= MAX_SL_ENTRIES
    && (forall i | 0 <= i < |entries| ::
        0 < entries[i].nid < U32 && !HasReserved(entries[i].data) && !HasReserved(entries[i].sub))
    && forall i | 0 < i < |entries| :: entries[i - 1].nid < entries[i].nid
  }

  predicate SIOk(kids: seq<SIEntry>) {
    && 0 < |kids| <= MAX_SI_ENTRIES
    && (forall i | 0 <= i < |kids| ::
        0 < kids[i].key < U32 && kids[i].ref != 0 && !HasReserved(kids[i].ref) && IsInternal(kids[i].ref))
    && forall i | 0 < i < |kids| :: kids[i - 1].key < kids[i].key
  }

  /** Block `bid` is an SLBLOCK. */
  predicate IsLeafBlock(blocks: Catalogue, spool: Spool, bid: nat) {
    && bid in blocks && IsInternal(bid)
    && match Payload(blocks, spool, bid) case Ok(SubLeaf(entries)) => SLOk(entries) case _ => false
  }

  predicate IsIndexBlock(blocks: Catalogue, spool: Spool, bid: nat) {
    && bid in blocks && IsInternal(bid)
    && match Payload(blocks, spool, bid) case Ok(SubIndex(kids)) => SIOk(kids) case _ => false
  }

  function LeafEntries(blocks: Catalogue, spool: Spool, bid: nat): seq<SLEntry> {
    match Payload(blocks, spool, bid) case Ok(SubLeaf(entries)) => entries case _ => []
  }

  function IndexKids(blocks: Catalogue, spool: Spool, bid: nat): seq<SIEntry> {
    match Payload(blocks, spool, bid) case Ok(SubIndex(kids)) => kids case _ => []
  }

  function KidEntries(blocks: Catalogue, spool: Spool, kids: seq<SIEntry>): seq<SLEntry> {
    if kids == [] then []
    else KidEntries(blocks, spool, kids[..|kids| - 1]) + LeafEntries(blocks, spool, kids[|kids| - 1].ref)
  }

  /** The subnode entries of a tree, in order. */
  function Entries(blocks: Catalogue, spool: Spool, root: nat): seq<SLEntry> {
    LeafEntries(blocks, spool, root) + KidEntries(blocks, spool, IndexKids(blocks, spool, root))
  }

  /** The shape the validator wants, block repetition apart. Payload references point to smaller BIDs. */
  ghost predicate SubShape(blocks: Catalogue, spool: Spool, bid: nat)
    decreases bid, 2
  {
    || (IsLeafBlock(blocks, spool, bid) && LeafShape(blocks, spool, LeafEntries(blocks, spool, bid), bid))
    || (IsIndexBlock(blocks, spool, bid)
        && forall k | k in IndexKids(blocks, spool, bid) :: k.ref < bid && KidOk(blocks, spool, k))
  }

  /** The separator is the first key of a well-shaped SLBLOCK. */
  ghost predicate KidOk(blocks: Catalogue, spool: Spool, k: SIEntry)
    decreases k.ref, 1
  {
    && IsLeafBlock(blocks, spool, k.ref) && k.key == LeafEntries(blocks, spool, k.ref)[0].nid
    && LeafShape(blocks, spool, LeafEntries(blocks, spool, k.ref), k.ref)
  }

  ghost predicate LeafShape(blocks: Catalogue, spool: Spool, entries: seq<SLEntry>, bound: nat)
    decreases bound, 0
  {
    forall e | e in entries ::
      && (e.data != 0 ==> TreeOk(blocks, spool, e.data))
      && (e.sub != 0 ==> e.sub < bound && SubShape(blocks, spool, e.sub))
  }

  /** The subnode blocks a validation visits, in order, with repetitions. */
  function Visits(blocks: Catalogue, spool: Spool, bid: nat): seq<nat>
    decreases bid, 2
  {
    [bid] + LeafVisits(blocks, spool, LeafEntries(blocks, spool, bid), bid)
          + KidVisits(blocks, spool, IndexKids(blocks, spool, bid), bid)
  }

  function LeafVisits(blocks: Catalogue, spool: Spool, entries: seq<SLEntry>, bound: nat): seq<nat>
    decreases bound, 0, |entries|
  {
    if entries == [] then []
    else LeafVisits(blocks, spool, entries[..|entries| - 1], bound) + SubVisits(blocks, spool,
        entries[|entries| - 1].sub, bound)
  }

  function SubVisits(blocks: Catalogue, spool: Spool, sub: nat, bound: nat): seq<nat>
    decreases bound, 0, 0
  {
    if 0 < sub < bound then Visits(blocks, spool, sub) else []
  }

  function KidVisits(blocks: Catalogue, spool: Spool, kids: seq<SIEntry>, bound: nat): seq<nat>
    decreases bound, 1, |kids|
  {
    if kids == [] then []
    else KidVisits(blocks, spool, kids[..|kids| - 1], bound) + SubVisits(blocks, spool, kids[|kids| - 1].ref, bound)
  }

  // ---------- the validator ----------

  /** InspectSubnodeBlock: a checked SLBLOCK or SIBLOCK payload. */
  method InspectSubnode(n: NDB, bid: nat) returns (r: Result<Body>)
    requires bid in n.blocks && n.blocks[bid].bid == bid && IsInternal(bid)
    ensures r.Ok? <==> IsLeafBlock(n.blocks, n.store.spool, bid) || IsIndexBlock(n.blocks, n.store.spool, bid)
    ensures r.Ok? ==> Payload(n.blocks, n.store.spool, bid) == r && (r.value.SubLeaf? || r.value.SubIndex?)
  {
    var payload := n.BlockPayload(n.blocks[bid]);
    if payload.Err? {
      return payload;
    }
    match payload.value {
      case SubLeaf(entries) =>
        if !SLOk(entries) {
          return Err(InvariantBroken);
        }
      case SubIndex(kids) =>
        if !SIOk(kids) {
          return Err(InvariantBroken);
        }
      case _ => return Err(InvariantBroken);
    }
    return payload;
  }

  /** Visiting `bids` after `seen` meets no block twice. */
  ghost predicate Fresh(seen: set<nat>, bids: seq<nat>) {
    DistinctBids(bids) && BidSet(bids) !! seen
  }

  lemma FreshSplit(seen: set<nat>, a: seq<nat>, b: seq<nat>)
    ensures Fresh(seen, a + b) <==> Fresh(seen, a) && Fresh(seen + BidSet(a), b)
    ensures BidSet(a + b) == BidSet(a) + BidSet(b)
  {
    var c := a + b;
    assert forall i | 0 <= i < |a| :: c[i] == a[i];
    assert forall i | 0 <= i < |b| :: c[|a| + i] == b[i];
    forall x
      ensures x in BidSet(c) <==> x in BidSet(a) || x in BidSet(b)
    {
    }
    if DistinctBids(c) {
      forall i, j | 0 <= i < |a| && 0 <= j < |b|
        ensures a[i] != b[j]
      {
        assert c[i] != c[|a| + j];
      }
      forall i, j | 0 <= i < j < |b|
        ensures b[i] != b[j]
      {
        assert c[|a| + i] != c[|a| + j];
      }
    }
    if DistinctBids(a) && DistinctBids(b) && BidSet(a) !! BidSet(b) {
      forall i, j | 0 <= i < j < |c|
        ensures c[i] != c[j]
      {
        if i < |a| <= j {
          assert c[i] in BidSet(a) && c[j] in BidSet(b);
        }
      }
    }
  }

  /** The catalog facts the validator relies on: payload references go to smaller BIDs. */
  ghost predicate Descending(blocks: Catalogue, spool: Spool) {
    && (forall b | b in blocks :: blocks[b].bid == b)
    && (forall b, i | b in blocks && 0 <= i < |KidsOf(blocks, spool, b)| :: KidsOf(blocks, spool, b)[i].bid < b)
  }

  lemma {:induction false} SubRefListed(entries: seq<SLEntry>, e: SLEntry)
    requires e in entries
    ensures e.sub != 0 ==> Ref(Subnode, e.sub) in AllLeafRefs(entries)
    ensures e.data != 0 ==> Ref(Subnode, e.data) in AllLeafRefs(entries)
  {
    if e == entries[|entries| - 1] {
      assert e.sub != 0 ==> Ref(Subnode, e.sub) in LeafRefs(e);
      assert e.data != 0 ==> Ref(Subnode, e.data) in LeafRefs(e);
    } else {
      SubRefListed(entries[..|entries| - 1], e);
    }
  }

  lemma LeafKids(blocks: Catalogue, spool: Spool, bid: nat)
    requires IsLeafBlock(blocks, spool, bid) && blocks[bid].bid == bid
    ensures bid > 0 && KidsOf(blocks, spool, bid) == AllLeafRefs(LeafEntries(blocks, spool, bid))
  {
    hide SLOk, AllLeafRefs;
  }

  lemma LeafBounds(blocks: Catalogue, spool: Spool, bid: nat)
    requires Descending(blocks, spool) && IsLeafBlock(blocks, spool, bid)
    ensures bid > 0 && forall e | e in LeafEntries(blocks, spool, bid) :: e.sub < bid
  {
    LeafKids(blocks, spool, bid);
    hide SLOk, IsLeafBlock, AllLeafRefs, LeafEntries, KidsOf;
    var kids := KidsOf(blocks, spool, bid);
    forall e | e in LeafEntries(blocks, spool, bid)
      ensures e.sub < bid
    {
      if e.sub != 0 {
        SubRefListed(LeafEntries(blocks, spool, bid), e);
        var i :| 0 <= i < |kids| && kids[i] == Ref(Subnode, e.sub);
      }
    }
  }

  lemma IndexBounds(blocks: Catalogue, spool: Spool, bid: nat)
    requires Descending(blocks, spool) && IsIndexBlock(blocks, spool, bid)
    ensures forall k | k in IndexKids(blocks, spool, bid) :: 0 < k.ref < bid
  {
    var kids := IndexKids(blocks, spool, bid);
    forall k | k in kids
      ensures k.ref < bid
    {
      var i :| 0 <= i < |kids| && kids[i] == k;
      assert KidsOf(blocks, spool, bid)[i] == Ref(Subnode, k.ref);
    }
  }

  /** What validateSubnodeTreeAt accepts at a depth: any tree at the top, only an SLBLOCK below an SIBLOCK. */
  ghost predicate Fits(blocks: Catalogue, spool: Spool, bid: nat, depth: nat) {
    SubShape(blocks, spool, bid) && (depth == 0 || (depth == 1 && IsLeafBlock(blocks, spool, bid)))
  }

  lemma LeafOrIndex(blocks: Catalogue, spool: Spool, bid: nat)
    ensures !(IsLeafBlock(blocks, spool, bid) && IsIndexBlock(blocks, spool, bid))
    ensures IsLeafBlock(blocks, spool, bid) ==>
      IndexKids(blocks, spool, bid) == [] && LeafEntries(blocks, spool, bid) != []
    ensures IsIndexBlock(blocks, spool, bid) ==> LeafEntries(blocks, spool, bid) == []
    ensures IsLeafBlock(blocks, spool, bid) ==>
      (SubShape(blocks, spool, bid) <==> LeafShape(blocks, spool, LeafEntries(blocks, spool, bid), bid))
    ensures !IsLeafBlock(blocks, spool, bid) && !IsIndexBlock(blocks, spool, bid) ==> !SubShape(blocks, spool, bid)
  {
    hide LeafShape;
  }

  lemma VisitsOf(blocks: Catalogue, spool: Spool, bid: nat)
    ensures IsLeafBlock(blocks, spool, bid) ==>
      Visits(blocks, spool, bid) == [bid] + LeafVisits(blocks, spool, LeafEntries(blocks, spool, bid), bid)
    ensures IsIndexBlock(blocks, spool, bid) ==>
      Visits(blocks, spool, bid) == [bid] + KidVisits(blocks, spool, IndexKids(blocks, spool, bid), bid)
  {
    hide SLOk, SIOk;
  }

  lemma {:induction false} LeafVisitsAppend(blocks: Catalogue, spool: Spool, a: seq<SLEntry>, b: seq<SLEntry>,
                                            bound: nat)
    ensures LeafVisits(blocks, spool, a + b, bound) == LeafVisits(blocks, spool, a, bound) + LeafVisits(blocks, spool,
        b, bound)
  {
    if b == [] {
      assert a + b == a;
    } else {
      LeafVisitsAppend(blocks, spool, a, b[..|b| - 1], bound);
      assert (a + b)[..|a + b| - 1] == a + b[..|b| - 1];
    }
  }

  lemma {:induction false} KidVisitsAppend(blocks: Catalogue, spool: Spool, a: seq<SIEntry>, b: seq<SIEntry>,
                                           bound: nat)
    ensures KidVisits(blocks, spool, a + b, bound) == KidVisits(blocks, spool, a, bound) + KidVisits(blocks, spool, b,
        bound)
  {
    if b == [] {
      assert a + b == a;
    } else {
      KidVisitsAppend(blocks, spool, a, b[..|b| - 1], bound);
      assert (a + b)[..|a + b| - 1] == a + b[..|b| - 1];
    }
  }

  ghost predicate EntryOk(blocks: Catalogue, spool: Spool, e: SLEntry) {
    (e.data != 0 ==> TreeOk(blocks, spool, e.data)) && (e.sub != 0 ==> SubShape(blocks, spool, e.sub))
  }

  /** Visiting entry `i` after the ones before it: the whole list is fresh only if each step is. */
  lemma LeafVisitsStep(blocks: Catalogue, spool: Spool, entries: seq<SLEntry>, bound: nat, i: nat, seen: set<nat>)
    requires i < |entries|
    requires Fresh(seen, LeafVisits(blocks, spool, entries[..i], bound))
    ensures var more := SubVisits(blocks, spool, entries[i].sub, bound);
      var before := LeafVisits(blocks, spool, entries[..i], bound);
      var after := LeafVisits(blocks, spool, entries[..i + 1], bound);
      && (Fresh(seen, after) <==> Fresh(seen + BidSet(before), more))
      && BidSet(after) == BidSet(before) + BidSet(more)
      && (!Fresh(seen, after) ==> !Fresh(seen, LeafVisits(blocks, spool, entries, bound)))
  {
    hide LeafVisits, SubVisits, Fresh, DistinctBids;
    LeafVisitsLast(blocks, spool, entries[..i + 1], bound);
    assert entries[..i + 1][..i] == entries[..i];
    FreshSplit(seen, LeafVisits(blocks, spool, entries[..i], bound), SubVisits(blocks, spool, entries[i].sub, bound));
    LeafVisitsAppend(blocks, spool, entries[..i + 1], entries[i + 1..], bound);
    assert entries[..i + 1] + entries[i + 1..] == entries;
    FreshSplit(seen, LeafVisits(blocks, spool, entries[..i + 1], bound),
               LeafVisits(blocks, spool, entries[i + 1..], bound));
  }

  lemma LeafVisitsLast(blocks: Catalogue, spool: Spool, entries: seq<SLEntry>, bound: nat)
    requires entries != []
    ensures LeafVisits(blocks, spool, entries, bound)
         == LeafVisits(blocks, spool, entries[..|entries| - 1], bound) + SubVisits(blocks, spool,
             entries[|entries| - 1].sub, bound)
  {
  }

  lemma KidVisitsStep(blocks: Catalogue, spool: Spool, kids: seq<SIEntry>, bound: nat, i: nat, seen: set<nat>)
    requires i < |kids|
    requires Fresh(seen, KidVisits(blocks, spool, kids[..i], bound))
    ensures var more := SubVisits(blocks, spool, kids[i].ref, bound);
      var before := KidVisits(blocks, spool, kids[..i], bound);
      var after := KidVisits(blocks, spool, kids[..i + 1], bound);
      && (Fresh(seen, after) <==> Fresh(seen + BidSet(before), more))
      && BidSet(after) == BidSet(before) + BidSet(more)
      && (!Fresh(seen, after) ==> !Fresh(seen, KidVisits(blocks, spool, kids, bound)))
  {
    hide KidVisits, SubVisits, Fresh, DistinctBids;
    KidVisitsLast(blocks, spool, kids[..i + 1], bound);
    assert kids[..i + 1][..i] == kids[..i];
    FreshSplit(seen, KidVisits(blocks, spool, kids[..i], bound), SubVisits(blocks, spool, kids[i].ref, bound));
    KidVisitsAppend(blocks, spool, kids[..i + 1], kids[i + 1..], bound);
    assert kids[..i + 1] + kids[i + 1..] == kids;
    FreshSplit(seen, KidVisits(blocks, spool, kids[..i + 1], bound), KidVisits(blocks, spool, kids[i + 1..], bound));
  }

  lemma KidVisitsLast(blocks: Catalogue, spool: Spool, kids: seq<SIEntry>, bound: nat)
    requires kids != []
    ensures KidVisits(blocks, spool, kids, bound)
         == KidVisits(blocks, spool, kids[..|kids| - 1], bound) + SubVisits(blocks, spool, kids[|kids| - 1].ref, bound)
  {
  }

  /** The entries of one SLBLOCK. */
  method ValidateLeaves(n: NDB, entries: seq<SLEntry>, bound: nat, seen: set<nat>) returns (ok: bool, seen': set<nat>)
    requires Descending(n.blocks, n.store.spool) && bound > 0 && forall e | e in entries :: e.sub < bound
    ensures ok <==> (LeafShape(n.blocks, n.store.spool, entries, bound)
                     && Fresh(seen, LeafVisits(n.blocks, n.store.spool, entries, bound)))
    ensures ok ==> seen' == seen + BidSet(LeafVisits(n.blocks, n.store.spool, entries, bound))
    decreases bound, 1
  {
    hide TreeOk, SubShape, Visits, Fresh, LeafVisits, DistinctBids, Descending;
    seen' := seen;
    NoVisits(n.blocks, n.store.spool, seen, bound);
    for i := 0 to |entries|
      invariant Fresh(seen, LeafVisits(n.blocks, n.store.spool, entries[..i], bound))
      invariant seen' == seen + BidSet(LeafVisits(n.blocks, n.store.spool, entries[..i], bound))
      invariant forall k | 0 <= k < i :: EntryOk(n.blocks, n.store.spool, entries[k])
    {
      var e := entries[i];
      LeafVisitsStep(n.blocks, n.store.spool, entries, bound, i, seen);
      NoVisits(n.blocks, n.store.spool, seen', bound);
      assert e in entries;
      if e.data != 0 {
        var tree := WalkDataTree(n, e.data);
        if tree.Err? {
          return false, seen';
        }
      }
      var fits;
      fits, seen' := ValidateAt(n, e.sub, seen', 0);
      if !fits {
        return false, seen';
      }
    }
    assert entries[..|entries|] == entries;
    return true, seen';
  }

  lemma NoVisits(blocks: Catalogue, spool: Spool, seen: set<nat>, bound: nat)
    ensures Fresh(seen, LeafVisits(blocks, spool, [], bound)) && BidSet(LeafVisits(blocks, spool, [], bound)) == {}
    ensures Fresh(seen, KidVisits(blocks, spool, [], bound)) && BidSet(KidVisits(blocks, spool, [], bound)) == {}
    ensures Fresh(seen, []) && BidSet([]) == {}
  {
  }

  /** The children of an SIBLOCK. */
  method ValidateKids(n: NDB, kids: seq<SIEntry>, bound: nat, seen: set<nat>) returns (ok: bool, seen': set<nat>)
    requires Descending(n.blocks, n.store.spool) && forall k | k in kids :: 0 < k.ref < bound
    ensures ok <==> ((forall k | k in kids :: KidOk(n.blocks, n.store.spool, k))
                     && Fresh(seen, KidVisits(n.blocks, n.store.spool, kids, bound)))
    ensures ok ==> seen' == seen + BidSet(KidVisits(n.blocks, n.store.spool, kids, bound))
    decreases bound, 1
  {
    hide TreeOk, SubShape, Visits, Fresh, KidVisits, DistinctBids, LeafShape, IsLeafBlock, IsIndexBlock;
    seen' := seen;
    NoVisits(n.blocks, n.store.spool, seen, bound);
    for i := 0 to |kids|
      invariant Fresh(seen, KidVisits(n.blocks, n.store.spool, kids[..i], bound))
      invariant seen' == seen + BidSet(KidVisits(n.blocks, n.store.spool, kids[..i], bound))
      invariant forall k | 0 <= k < i :: KidOk(n.blocks, n.store.spool, kids[k])
    {
      var k := kids[i];
      KidVisitsStep(n.blocks, n.store.spool, kids, bound, i, seen);
      LeafOrIndex(n.blocks, n.store.spool, k.ref);
      StartsVisit(n.blocks, n.store.spool, k.ref, seen');
      assert k in kids;
      if k.ref in seen' {
        return false, seen';
      }
      if k.ref !in n.blocks || !IsInternal(k.ref) {
        NotLive(n.blocks, n.store.spool, k.ref);
        return false, seen';
      }
      var body := InspectSubnode(n, k.ref);
      if body.Err? || !body.value.SubLeaf? {
        NotLeaf(n.blocks, n.store.spool, k.ref);
        return false, seen';
      }
      LeafPayload(n.blocks, n.store.spool, k.ref, body.value.entries);
      if k.key != body.value.entries[0].nid {
        return false, seen';
      }
      var fits;
      fits, seen' := ValidateAt(n, k.ref, seen', 1);
      if !fits {
        return false, seen';
      }
    }
    assert kids[..|kids|] == kids;
    return true, seen';
  }

  lemma StartsVisit(blocks: Catalogue, spool: Spool, bid: nat, seen: set<nat>)
    ensures bid in seen ==> !Fresh(seen, Visits(blocks, spool, bid))
  {
    assert Visits(blocks, spool, bid)[0] == bid;
  }

  lemma NotLive(blocks: Catalogue, spool: Spool, bid: nat)
    requires bid !in blocks || !IsInternal(bid)
    ensures !IsLeafBlock(blocks, spool, bid) && !IsIndexBlock(blocks, spool, bid)
  {
  }

  lemma NotLeaf(blocks: Catalogue, spool: Spool, bid: nat)
    requires Payload(blocks, spool, bid).Err? || !Payload(blocks, spool, bid).value.SubLeaf?
      || !(IsLeafBlock(blocks, spool, bid) || IsIndexBlock(blocks, spool, bid))
    ensures !IsLeafBlock(blocks, spool, bid)
  {
  }

  lemma LeafPayload(blocks: Catalogue, spool: Spool, bid: nat, entries: seq<SLEntry>)
    requires Payload(blocks, spool, bid) == Ok(SubLeaf(entries))
    requires IsLeafBlock(blocks, spool, bid) || IsIndexBlock(blocks, spool, bid)
    ensures IsLeafBlock(blocks, spool, bid) && LeafEntries(blocks, spool, bid) == entries && |entries| > 0
  {
  }

  lemma IndexPayload(blocks: Catalogue, spool: Spool, bid: nat, kids: seq<SIEntry>)
    requires Payload(blocks, spool, bid) == Ok(SubIndex(kids))
    requires IsLeafBlock(blocks, spool, bid) || IsIndexBlock(blocks, spool, bid)
    ensures IsIndexBlock(blocks, spool, bid) && IndexKids(blocks, spool, bid) == kids
  {
  }

  lemma IndexShape(blocks: Catalogue, spool: Spool, bid: nat, kids: seq<SIEntry>)
    requires IsIndexBlock(blocks, spool, bid) && IndexKids(blocks, spool, bid) == kids && forall k | k in kids ::
      k.ref < bid
    ensures SubShape(blocks, spool, bid) <==> forall k | k in kids :: KidOk(blocks, spool, k)
  {
    LeafOrIndex(blocks, spool, bid);
    hide KidOk, LeafShape, SLOk, SIOk;
  }

  /** validateSubnodeTreeAt: accepts exactly the right shapes in which no subnode block is met twice. */
  method ValidateAt(n: NDB, bid: nat, seen: set<nat>, depth: nat) returns (ok: bool, seen': set<nat>)
    requires Descending(n.blocks, n.store.spool)
    ensures bid == 0 ==> ok && seen' == seen
    ensures bid != 0 ==>
      (ok <==> Fits(n.blocks, n.store.spool, bid, depth) && Fresh(seen, Visits(n.blocks, n.store.spool, bid)))
    ensures bid != 0 && ok ==> seen' == seen + BidSet(Visits(n.blocks, n.store.spool, bid))
    decreases bid, 2
  {
    hide SLOk, SIOk, TreeOk, LeafShape, SubShape, Visits;
    seen' := seen;
    if bid == 0 {
      return true, seen;
    }
    hide LeafVisits, KidVisits, DistinctBids, IsLeafBlock, IsIndexBlock, Fresh, Descending;
    LeafOrIndex(n.blocks, n.store.spool, bid);
    VisitsOf(n.blocks, n.store.spool, bid);
    StartsVisit(n.blocks, n.store.spool, bid, seen);
    SeenFirst(seen, bid);
    if depth > 1 {
      return false, seen;
    }
    if bid in seen {
      return false, seen;
    }
    seen' := seen + {bid};
    if bid !in n.blocks || !IsInternal(bid) {
      NotLive(n.blocks, n.store.spool, bid);
      return false, seen';
    }
    BidMatches(n.blocks, n.store.spool, bid);
    ghost var B, S := n.blocks, n.store.spool;
    var body := InspectSubnode(n, bid);
    if body.Err? {
      return false, seen';
    }
    match body.value {
      case SubLeaf(entries) =>
        LeafPayload(n.blocks, n.store.spool, bid, entries);
        LeafBounds(n.blocks, n.store.spool, bid);
        FreshSplit(seen, [bid], LeafVisits(B, S, entries, bid));
        ok, seen' := ValidateLeaves(n, entries, bid, seen');
      case SubIndex(kids) =>
        IndexPayload(n.blocks, n.store.spool, bid, kids);
        IndexBounds(n.blocks, n.store.spool, bid);
        IndexShape(B, S, bid, kids);
        FreshSplit(seen, [bid], KidVisits(B, S, kids, bid));
        if depth != 0 {
          return false, seen';
        }
        ok, seen' := ValidateKids(n, kids, bid, seen');
    }
  }

  lemma SeenFirst(seen: set<nat>, bid: nat)
    ensures Fresh(seen, [bid]) <==> bid !in seen
    ensures BidSet([bid]) == {bid}
  {
  }

  lemma BidMatches(blocks: Catalogue, spool: Spool, bid: nat)
    requires Descending(blocks, spool) && bid in blocks
    ensures blocks[bid].bid == bid
  {
  }

  /** WalkSubnodes: the entries of every tree with the right separators, in order. */
  method WalkSubnodes(n: NDB, root: nat) returns (r: Result<seq<SLEntry>>)
    requires forall b | b in n.blocks :: n.blocks[b].bid == b
    ensures r.Ok? ==> r.value == if root == 0 then [] else Entries(n.blocks, n.store.spool, root)
    ensures root == 0 || SubShape(n.blocks, n.store.spool, root) ==> r.Ok?
  {
    hide SLOk, SIOk, LeafShape;
    if root == 0 {
      return Ok([]);
    }
    if root !in n.blocks || !IsInternal(root) {
      return Err(InvalidArg);
    }
    var body := InspectSubnode(n, root);
    if body.Err? {
      return Err(InvariantBroken);
    }
    match body.value {
      case SubLeaf(entries) => return Ok(entries + []);
      case SubIndex(kids) =>
        IndexPayload(n.blocks, n.store.spool, root, kids);
        IndexKidsOk(n.blocks, n.store.spool, root);
        hide IsLeafBlock, IsIndexBlock, SubShape;
        var out: seq<SLEntry> := [];
        for i := 0 to |kids|
          invariant out == KidEntries(n.blocks, n.store.spool, kids[..i])
        {
          var k := kids[i];
          assert kids[..i + 1][..i] == kids[..i] && k in kids;
          LeafOrIndex(n.blocks, n.store.spool, k.ref);
          if k.ref !in n.blocks || !IsInternal(k.ref) {
            NotLive(n.blocks, n.store.spool, k.ref);
            return Err(InvariantBroken);
          }
          var child := InspectSubnode(n, k.ref);
          if child.Err? || !child.value.SubLeaf? {
            NotLeaf(n.blocks, n.store.spool, k.ref);
            return Err(InvariantBroken);
          }
          LeafPayload(n.blocks, n.store.spool, k.ref, child.value.entries);
          if k.key != child.value.entries[0].nid {
            return Err(InvariantBroken);
          }
          out := out + child.value.entries;
        }
        assert kids[..|kids|] == kids;
        assert [] + out == out;
        return Ok(out);
      case _ => return Err(InvariantBroken);
    }
  }

  lemma IndexKidsOk(blocks: Catalogue, spool: Spool, bid: nat)
    requires IsIndexBlock(blocks, spool, bid)
    ensures SubShape(blocks, spool, bid) ==> forall k | k in IndexKids(blocks, spool, bid) :: KidOk(blocks, spool, k)
  {
    LeafOrIndex(blocks, spool, bid);
    hide KidOk, LeafShape, SLOk, SIOk;
  }

  // ---------- the builder ----------

  lemma {:induction false} KeptShape(blocks: Catalogue, spool: Spool, blocks': Catalogue, spool': Spool, bid: nat)
    requires Kept(blocks, spool, blocks', spool') && SubShape(blocks, spool, bid)
    ensures SubShape(blocks', spool', bid) && Entries(blocks', spool', bid) == Entries(blocks, spool, bid)
    ensures IsLeafBlock(blocks, spool, bid) ==> LeafEntries(blocks', spool', bid) == LeafEntries(blocks, spool, bid)
    decreases bid, 1
  {
    hide Kept, TreeOk, SLOk, SIOk;
    KeptPayload(blocks, spool, blocks', spool', bid);
    LeafOrIndex(blocks, spool, bid);
    if IsLeafBlock(blocks, spool, bid) {
      KeptLeafShape(blocks, spool, blocks', spool', LeafEntries(blocks, spool, bid), bid);
    } else {
      var kids := IndexKids(blocks, spool, bid);
      forall k | k in kids
        ensures KidOk(blocks', spool', k) && LeafEntries(blocks', spool', k.ref) == LeafEntries(blocks, spool, k.ref)
      {
        KeptKid(blocks, spool, blocks', spool', k);
      }
      KeptKidEntries(blocks, spool, blocks', spool', kids);
    }
  }

  lemma {:induction false} KeptLeafShape(blocks: Catalogue, spool: Spool, blocks': Catalogue, spool': Spool,
                                         entries: seq<SLEntry>, bound: nat)
    requires Kept(blocks, spool, blocks', spool') && LeafShape(blocks, spool, entries, bound)
    ensures LeafShape(blocks', spool', entries, bound)
    decreases bound, 0
  {
    hide Kept, TreeOk, SubShape;
    forall e | e in entries
      ensures e.data != 0 ==> TreeOk(blocks', spool', e.data)
      ensures e.sub != 0 ==> SubShape(blocks', spool', e.sub)
    {
      if e.data != 0 {
        KeptTree(blocks, spool, blocks', spool', e.data);
      }
      if e.sub != 0 {
        KeptShape(blocks, spool, blocks', spool', e.sub);
      }
    }
  }

  lemma KeptKid(blocks: Catalogue, spool: Spool, blocks': Catalogue, spool': Spool, k: SIEntry)
    requires Kept(blocks, spool, blocks', spool') && KidOk(blocks, spool, k)
    ensures KidOk(blocks', spool', k) && LeafEntries(blocks', spool', k.ref) == LeafEntries(blocks, spool, k.ref)
    decreases k.ref, 1
  {
    hide Kept, LeafShape, SLOk;
    KeptPayload(blocks, spool, blocks', spool', k.ref);
    KeptLeafShape(blocks, spool, blocks', spool', LeafEntries(blocks, spool, k.ref), k.ref);
  }

  lemma {:induction false} KeptKidEntries(blocks: Catalogue, spool: Spool, blocks': Catalogue, spool': Spool,
                                          kids: seq<SIEntry>)
    requires forall k | k in kids :: LeafEntries(blocks', spool', k.ref) == LeafEntries(blocks, spool, k.ref)
    ensures KidEntries(blocks', spool', kids) == KidEntries(blocks, spool, kids)
  {
    if kids != [] {
      KeptKidEntries(blocks, spool, blocks', spool', kids[..|kids| - 1]);
    }
  }

  /** A validation meets the same blocks as long as they stay. */
  lemma {:induction false} KeptVisits(blocks: Catalogue, spool: Spool, blocks': Catalogue, spool': Spool, bid: nat)
    requires Kept(blocks, spool, blocks', spool') && SubShape(blocks, spool, bid)
    ensures Visits(blocks', spool', bid) == Visits(blocks, spool, bid)
    decreases bid, 2
  {
    KeptPayload(blocks, spool, blocks', spool', bid);
    LeafOrIndex(blocks, spool, bid);
    hide Kept, TreeOk, SLOk, SIOk;
    var es, kids := LeafEntries(blocks, spool, bid), IndexKids(blocks, spool, bid);
    if IsLeafBlock(blocks, spool, bid) {
      KeptLeafVisits(blocks, spool, blocks', spool', es, bid);
    } else {
      forall k | k in kids
        ensures k.ref < bid ==> SubShape(blocks, spool, k.ref)
      {
        LeafOrIndex(blocks, spool, k.ref);
      }
      KeptKidVisits(blocks, spool, blocks', spool', kids, bid);
    }
  }

  lemma {:induction false} KeptLeafVisits(blocks: Catalogue, spool: Spool, blocks': Catalogue, spool': Spool,
                                          es: seq<SLEntry>, bound: nat)
    requires Kept(blocks, spool, blocks', spool') && LeafShape(blocks, spool, es, bound)
    ensures LeafVisits(blocks', spool', es, bound) == LeafVisits(blocks, spool, es, bound)
    decreases bound, 0, |es|
  {
    hide Kept, TreeOk, SubShape, Visits;
    if es != [] {
      var last := es[|es| - 1];
      assert last in es;
      KeptLeafVisits(blocks, spool, blocks', spool', es[..|es| - 1], bound);
      if 0 < last.sub < bound {
        KeptVisits(blocks, spool, blocks', spool', last.sub);
      }
    }
  }

  lemma {:induction false} KeptKidVisits(blocks: Catalogue, spool: Spool, blocks': Catalogue, spool': Spool,
                                         kids: seq<SIEntry>, bound: nat)
    requires Kept(blocks, spool, blocks', spool') && forall k | k in kids :: k.ref < bound ==>
      SubShape(blocks, spool, k.ref)
    ensures KidVisits(blocks', spool', kids, bound) == KidVisits(blocks, spool, kids, bound)
    decreases bound, 1, |kids|
  {
    hide Kept, SubShape, Visits;
    if kids != [] {
      var last := kids[|kids| - 1];
      assert last in kids;
      KeptKidVisits(blocks, spool, blocks', spool', kids[..|kids| - 1], bound);
      if 0 < last.ref < bound {
        KeptVisits(blocks, spool, blocks', spool', last.ref);
      }
    }
  }

  lemma ShapeLive(blocks: Catalogue, spool: Spool, bid: nat)
    requires SubShape(blocks, spool, bid)
    ensures bid in blocks && IsInternal(bid)
  {
    LeafOrIndex(blocks, spool, bid);
    hide LeafShape, KidOk, SLOk, SIOk;
  }

  lemma HoldsDescending(w: World, pages: set<nat>)
    requires Holds(w, {}, {}, pages)
    ensures Descending(w.c.blocks, w.spool)
  {
    hide Space, LiveRefs, Used, Meta;
    var E := Edges(w.c.blocks, w.spool);
    assert E + {} == E;
    forall b, i | b in w.c.blocks && 0 <= i < |KidsOf(w.c.blocks, w.spool, b)|
      ensures KidsOf(w.c.blocks, w.spool, b)[i].bid < b
    {
      assert Edge(b, i, KidsOf(w.c.blocks, w.spool, b)[i]) in E;
    }
  }

  lemma {:induction false} LeafRefSources(entries: seq<SLEntry>, r: Ref)
    requires r in AllLeafRefs(entries)
    ensures r.bid != 0 && exists e | e in entries :: r.bid == e.data || r.bid == e.sub
  {
    var last := entries[|entries| - 1];
    if r in LeafRefs(last) {
      assert last in entries;
    } else {
      LeafRefSources(entries[..|entries| - 1], r);
    }
  }

  ghost predicate RoleOk(blocks: Catalogue, spool: Spool, e: SLEntry) {
    && (e.data != 0 ==> TreeOk(blocks, spool, e.data))
    && (e.sub != 0 ==> SubShape(blocks, spool, e.sub) && DistinctBids(Visits(blocks, spool, e.sub)))
  }

  /** assertSLEntryRoles over a chunk: bidData is a data tree and bidSub a subnode tree. */
  method CheckRoles(n: NDB, chunk: seq<SLEntry>) returns (ok: bool)
    requires Descending(n.blocks, n.store.spool)
    ensures ok <==> forall e | e in chunk :: RoleOk(n.blocks, n.store.spool, e)
  {
    hide TreeOk, SubShape, Visits, DistinctBids, Descending;
    for i := 0 to |chunk|
      invariant forall k | 0 <= k < i :: RoleOk(n.blocks, n.store.spool, chunk[k])
    {
      var e := chunk[i];
      assert e in chunk;
      if e.data != 0 {
        var tree := WalkDataTree(n, e.data);
        if tree.Err? {
          return false;
        }
      }
      var fits, seen := ValidateAt(n, e.sub, {}, 0);
      if !fits {
        return false;
      }
    }
    return true;
  }

  /** SLBLOCKs written so far hold the first `done` entries. */
  ghost predicate KidList(w: World, kids: seq<SIEntry>, entries: seq<SLEntry>, done: nat) {
    && done <= |entries|
    && (forall k | k in kids ::
        KidOk(w.c.blocks, w.spool, k) && 0 < k.ref < w.next && !HasReserved(k.ref) && 0 < k.key < U32)
    && KidEntries(w.c.blocks, w.spool, kids) == entries[..done]
  }

  lemma KidListKept(w: World, w': World, kids: seq<SIEntry>, entries: seq<SLEntry>, done: nat)
    requires KidList(w, kids, entries, done) && Grew(w, w')
    ensures KidList(w', kids, entries, done)
  {
    hide Kept, KidOk, KidEntries;
    forall k | k in kids
      ensures KidOk(w'.c.blocks, w'.spool, k) &&
        LeafEntries(w'.c.blocks, w'.spool, k.ref) == LeafEntries(w.c.blocks, w.spool, k.ref)
    {
      KeptKid(w.c.blocks, w.spool, w'.c.blocks, w'.spool, k);
    }
    hide LeafEntries;
    KeptKidEntries(w.c.blocks, w.spool, w'.c.blocks, w'.spool, kids);
  }

  lemma TreeLive(blocks: Catalogue, spool: Spool, root: nat)
    requires TreeOk(blocks, spool, root) && root != 0
    ensures root in blocks
  {
    hide XBlockOk;
  }

  lemma RoleTargets(blocks: Catalogue, spool: Spool, chunk: seq<SLEntry>)
    requires forall e | e in chunk :: RoleOk(blocks, spool, e)
    ensures forall k | k in AllLeafRefs(chunk) :: k.bid != 0 && k.bid in blocks
  {
    hide TreeOk, SubShape, Visits, DistinctBids, AllLeafRefs;
    forall k | k in AllLeafRefs(chunk)
      ensures k.bid != 0 && k.bid in blocks
    {
      LeafRefSources(chunk, k);
      var e :| e in chunk && (k.bid == e.data || k.bid == e.sub);
      if k.bid == e.data {
        TreeLive(blocks, spool, e.data);
      } else {
        ShapeLive(blocks, spool, e.sub);
      }
    }
  }

  lemma NewLeaf(w: World, w': World, chunk: seq<SLEntry>, bid: nat)
    requires Grew(w, w') && SLOk(chunk) && forall e | e in chunk :: RoleOk(w.c.blocks, w.spool, e) && e.sub < bid
    requires bid in w'.c.blocks && IsInternal(bid) && Payload(w'.c.blocks, w'.spool, bid) == Ok(SubLeaf(chunk))
    ensures KidOk(w'.c.blocks, w'.spool, SIEntry(chunk[0].nid, bid)) && LeafEntries(w'.c.blocks, w'.spool, bid) == chunk
  {
    hide Kept, TreeOk, SubShape, Visits, DistinctBids;
    assert LeafShape(w.c.blocks, w.spool, chunk, bid);
    KeptLeafShape(w.c.blocks, w.spool, w'.c.blocks, w'.spool, chunk, bid);
    hide LeafShape;
  }

  lemma {:induction false} KidEntriesLast(blocks: Catalogue, spool: Spool, kids: seq<SIEntry>, k: SIEntry)
    ensures KidEntries(blocks, spool, kids + [k]) == KidEntries(blocks, spool, kids) + LeafEntries(blocks, spool, k.ref)
  {
    assert (kids + [k])[..|kids|] == kids;
  }

  lemma KidListStep(w: World, kids: seq<SIEntry>, k: SIEntry, entries: seq<SLEntry>, lo: nat, hi: nat)
    requires KidList(w, kids, entries, lo) && lo <= hi <= |entries|
    requires KidOk(w.c.blocks, w.spool, k) && 0 < k.ref < w.next && !HasReserved(k.ref) && 0 < k.key < U32
    requires LeafEntries(w.c.blocks, w.spool, k.ref) == entries[lo..hi]
    ensures KidList(w, kids + [k], entries, hi)
  {
    hide KidOk;
    KidEntriesLast(w.c.blocks, w.spool, kids, k);
    hide KidEntries, LeafEntries;
    assert entries[..lo] + entries[lo..hi] == entries[..hi];
  }

  /** Every internal block that is new is the root of a well-shaped subnode tree. */
  ghost predicate NewShapes(w: World, w': World) {
    forall b | b in w'.c.blocks && b !in w.c.blocks && IsInternal(b) :: SubShape(w'.c.blocks, w'.spool, b)
  }

  lemma NewShapesStep(w: World, w1: World, w2: World, bid: nat)
    requires NewShapes(w, w1) && Grew(w1, w2) && w2.c.blocks.Keys == w1.c.blocks.Keys + {bid}
    requires SubShape(w2.c.blocks, w2.spool, bid)
    ensures NewShapes(w, w2)
  {
    hide SubShape, Kept;
    forall b | b in w2.c.blocks && b !in w.c.blocks && IsInternal(b)
      ensures SubShape(w2.c.blocks, w2.spool, b)
    {
      if b != bid {
        KeptShape(w1.c.blocks, w1.spool, w2.c.blocks, w2.spool, b);
      }
    }
  }

  lemma KidShape(w: World, k: SIEntry)
    requires KidOk(w.c.blocks, w.spool, k)
    ensures SubShape(w.c.blocks, w.spool, k.ref)
  {
    LeafOrIndex(w.c.blocks, w.spool, k.ref);
    hide SubShape, LeafShape;
  }

  lemma NoNewShapes(w: World)
    ensures NewShapes(w, w)
  {
    hide SubShape;
  }

  predicate Rising(entries: seq<SLEntry>) {
    forall i, j | 0 <= i < j < |entries| :: entries[i].nid < entries[j].nid
  }

  /** Entries the builder takes: valid, with the right roles, in rising order, and not too many for one SIBLOCK. */
  ghost predicate Buildable(blocks: Catalogue, spool: Spool, entries: seq<SLEntry>) {
    && (forall e | e in entries ::
        0 < e.nid < U32 && !HasReserved(e.data) && !HasReserved(e.sub) && RoleOk(blocks, spool, e))
    && Rising(entries) && |entries| <= MAX_SL_ENTRIES * MAX_SI_ENTRIES
  }

  lemma RoleKept(w: World, w': World, e: SLEntry)
    requires Grew(w, w') && RoleOk(w.c.blocks, w.spool, e)
    ensures RoleOk(w'.c.blocks, w'.spool, e)
  {
    hide Kept, TreeOk, SubShape, Visits, DistinctBids;
    if e.data != 0 {
      KeptTree(w.c.blocks, w.spool, w'.c.blocks, w'.spool, e.data);
    }
    if e.sub != 0 {
      KeptShape(w.c.blocks, w.spool, w'.c.blocks, w'.spool, e.sub);
      KeptVisits(w.c.blocks, w.spool, w'.c.blocks, w'.spool, e.sub);
    }
  }

  lemma BuildableKept(w: World, w': World, entries: seq<SLEntry>)
    requires Grew(w, w')
    ensures Buildable(w.c.blocks, w.spool, entries) ==> Buildable(w'.c.blocks, w'.spool, entries)
  {
    hide Grew, RoleOk;
    if Buildable(w.c.blocks, w.spool, entries) {
      forall e | e in entries
        ensures RoleOk(w'.c.blocks, w'.spool, e)
      {
        RoleKept(w, w', e);
      }
    }
  }

  lemma ChunkBuildable(blocks: Catalogue, spool: Spool, entries: seq<SLEntry>, lo: nat, hi: nat)
    requires Buildable(blocks, spool, entries) && lo < hi <= |entries| && hi - lo <= MAX_SL_ENTRIES
    ensures SLOk(entries[lo..hi]) && forall e | e in entries[lo..hi] :: RoleOk(blocks, spool, e)
  {
    hide RoleOk;
    forall e | e in entries[lo..hi]
      ensures e in entries
    {
      var k :| 0 <= k < hi - lo && entries[lo..hi][k] == e;
      assert entries[lo + k] == e;
    }
    assert forall k | 0 <= k < hi - lo :: entries[lo..hi][k] == entries[lo + k] && entries[lo + k] in entries;
  }

  function SLBlocksFor(n: nat): nat {
    (n + MAX_SL_ENTRIES - 1) / MAX_SL_ENTRIES
  }

  /** Each separator is the first key of its block, so separators rise with the entries. */
  ghost predicate KeysFrom(kids: seq<SIEntry>, entries: seq<SLEntry>) {
    forall k | 0 <= k < |kids| :: MAX_SL_ENTRIES * k < |entries| && kids[k].key == entries[MAX_SL_ENTRIES * k].nid
  }

  lemma KidsFit(w: World, kids: seq<SIEntry>, entries: seq<SLEntry>)
    requires KidList(w, kids, entries, |entries|) && KeysFrom(kids, entries) && Rising(entries) &&
      0 < |kids| <= MAX_SI_ENTRIES
    ensures SIOk(kids)
  {
    hide KidEntries, LeafShape, SLOk;
    forall i | 0 <= i < |kids|
      ensures 0 < kids[i].key < U32 && kids[i].ref != 0 && !HasReserved(kids[i].ref) && IsInternal(kids[i].ref)
    {
      assert kids[i] in kids;
    }
  }

  /** One SLBLOCK over a chunk of checked entries. */
  method PutLeafBlock(n: NDB, chunk: seq<SLEntry>) returns (r: Result<SIEntry>)
    requires n.Valid()
    modifies n`blocks, n`nextBlock, n`dataTreeRefs, n`subnodeRefs
    modifies n.store`regions, n.store`spool, n.store`lastAllocAMap, n.store`bidNextB
    ensures r.Ok? ==> n.Valid() && Grew(old(n.W()), n.W()) && n.nextBlock == old(n.nextBlock) + 4
    ensures r.Ok? ==>
      n.blocks.Keys == old(n.blocks.Keys) + {r.value.ref} && SubShape(n.blocks, n.store.spool, r.value.ref)
    ensures r.Ok? ==>
      KidOk(n.blocks, n.store.spool, r.value) && LeafEntries(n.blocks, n.store.spool, r.value.ref) == chunk
    ensures r.Ok? ==> |chunk| > 0 && r.value.key == chunk[0].nid && 0 < r.value.key < U32
    ensures r.Ok? ==> 0 < r.value.ref < n.nextBlock && !HasReserved(r.value.ref)
    ensures && SLOk(chunk) && (forall e | e in chunk :: old(RoleOk(n.blocks, n.store.spool, e)))
            && old(n.nextBlock) + 4 < U64
            ==> r.Ok?
  {
    hide Holds, Grew, RoleOk, KidOk, SubShape, LeafEntries, Payload, SLOk;
    if !SLOk(chunk) {
      return Err(InvalidArg);
    }
    ghost var before := n.W();
    HoldsDescending(before, PageSet(n.livePages));
    hide Descending;
    var roles := CheckRoles(n, chunk);
    if !roles {
      return Err(InvalidArg);
    }
    RoleTargets(n.blocks, n.store.spool, chunk);
    SubsBelow(before, PageSet(n.livePages), chunk);
    ChunkSize(chunk);
    var blk := PutInternal(n, SubLeaf(chunk));
    if blk.Err? {
      return Err(blk.error);
    }
    NewLeaf(before, n.W(), chunk, blk.value.bid);
    KidShape(n.W(), SIEntry(chunk[0].nid, blk.value.bid));
    return Ok(SIEntry(chunk[0].nid, blk.value.bid));
  }

  lemma NewShapesTwice(w: World, w1: World, w2: World)
    requires NewShapes(w, w1) && Grew(w1, w2) && NewShapes(w1, w2)
    ensures NewShapes(w, w2)
  {
    hide SubShape, Kept;
    forall b | b in w2.c.blocks && b !in w.c.blocks && IsInternal(b)
      ensures SubShape(w2.c.blocks, w2.spool, b)
    {
      if b in w1.c.blocks {
        KeptShape(w1.c.blocks, w1.spool, w2.c.blocks, w2.spool, b);
      }
    }
  }

  /** The root: the only SLBLOCK, or an SIBLOCK over several. */
  method PutIndex(n: NDB, kids: seq<SIEntry>, ghost entries: seq<SLEntry>) returns (r: Result<BBTEntry>)
    requires n.Valid() && kids != [] && KidList(n.W(), kids, entries, |entries|)
    modifies n`blocks, n`nextBlock, n`dataTreeRefs, n`subnodeRefs
    modifies n.store`regions, n.store`spool, n.store`lastAllocAMap, n.store`bidNextB
    ensures r.Ok? ==> n.Valid() && Grew(old(n.W()), n.W()) && NewShapes(old(n.W()), n.W())
    ensures r.Ok? ==> SubShape(n.blocks, n.store.spool, r.value.bid) && r.value.bid in n.blocks
    ensures r.Ok? ==> Entries(n.blocks, n.store.spool, r.value.bid) == entries
    ensures r.Ok? && |kids| == 1 ==>
      n.W() == old(n.W()) && r.value.bid == kids[0].ref && IsLeafBlock(n.blocks, n.store.spool, r.value.bid)
    ensures r.Ok? ==> n.nextBlock <= old(n.nextBlock) + 4
    ensures && Rising(entries) && KeysFrom(kids, entries) && |kids| <= MAX_SI_ENTRIES
            && old(n.nextBlock) + 4 < U64
            ==> r.Ok?
  {
    hide Holds, Grew, KidList, RoleOk, KidOk, SubShape, Entries, LeafEntries, Payload, SLOk, SIOk, NewShapes, KeysFrom,
         Rising;
    ghost var before := n.W();
    NoNewShapes(before);
    KidListLive(before, kids, entries);
    HoldsDescending(before, PageSet(n.livePages));
    if |kids| == 1 {
      GrewSelf(before);
      SingleLeaf(before, kids, entries);
      return Ok(n.blocks[kids[0].ref]);
    }
    hide Descending;
    if |kids| > MAX_SI_ENTRIES {
      return Err(LimitExceeded);
    }
    if Rising(entries) && KeysFrom(kids, entries) {
      KidsFit(before, kids, entries);
    }
    if !SIOk(kids) {
      return Err(InvalidArg);
    }
    IndexSize(kids);
    r := PutInternal(n, SubIndex(kids));
    if r.Ok? {
      KidListKept(before, n.W(), kids, entries, |entries|);
      IndexTree(n.W(), kids, entries, r.value.bid);
      NewShapesStep(before, before, n.W(), r.value.bid);
    }
  }

  lemma IndexSize(kids: seq<SIEntry>)
    requires SIOk(kids)
    ensures SubIndex(kids).CB() <= MAX_DATA_CB
  {
  }

  /** buildSubnodeTree over sorted entries: SLBLOCKs of at most 340, one SIBLOCK above several. It succeeds on every
      buildable list while identifiers last. */
  method BuildSubnodeTree(n: NDB, entries: seq<SLEntry>) returns (r: Result<BBTEntry>)
    requires n.Valid() && entries != []
    modifies n`blocks, n`nextBlock, n`dataTreeRefs, n`subnodeRefs
    modifies n.store`regions, n.store`spool, n.store`lastAllocAMap, n.store`bidNextB
    ensures r.Ok? ==> n.Valid() && Grew(old(n.W()), n.W()) && NewShapes(old(n.W()), n.W())
    ensures r.Ok? ==> SubShape(n.blocks, n.store.spool, r.value.bid) && r.value.bid in n.blocks
    ensures r.Ok? ==> Entries(n.blocks, n.store.spool, r.value.bid) == entries
    ensures r.Ok? ==> n.nextBlock <= old(n.nextBlock) + 4 * (SLBlocksFor(|entries|) + 1)
    ensures r.Ok? && |entries| <= MAX_SL_ENTRIES ==>
      IsLeafBlock(n.blocks, n.store.spool, r.value.bid) && n.blocks.Keys == old(n.blocks.Keys) + {r.value.bid}
    ensures && old(Buildable(n.blocks, n.store.spool, entries))
            && old(n.nextBlock) + 4 * (SLBlocksFor(|entries|) + 1) < U64
            ==> r.Ok?
  {
    hide Holds, Grew, KidList, RoleOk, KidOk, SubShape, Entries, LeafEntries, Payload, SLOk, SIOk, NewShapes,
         Buildable, KeysFrom;
    hide IsLeafBlock;
    NoNewShapes(n.W());
    NoKeys(entries);
    var kids: seq<SIEntry> := [];
    var i := 0;
    GrewSelf(n.W());
    NoKids(n.W(), entries);
    while i < |entries|
      invariant NewShapes(old(n.W()), n.W())
      invariant i <= |entries| && n.Valid() && Grew(old(n.W()), n.W()) && KidList(n.W(), kids, entries, i)
      invariant i == |entries| || i == MAX_SL_ENTRIES * |kids|
      invariant |kids| == SLBlocksFor(i) && n.nextBlock == old(n.nextBlock) + 4 * |kids| && KeysFrom(kids, entries)
      invariant kids == [] ==> n.blocks.Keys == old(n.blocks.Keys)
      invariant |kids| == 1 ==> n.blocks.Keys == old(n.blocks.Keys) + {kids[0].ref}
      invariant old(Buildable(n.blocks, n.store.spool, entries)) ==> Buildable(n.blocks, n.store.spool, entries)
      decreases |entries| - i
    {
      var end := if i + MAX_SL_ENTRIES > |entries| then |entries| else i + MAX_SL_ENTRIES;
      var chunk := entries[i..end];
      if Buildable(n.blocks, n.store.spool, entries) {
        ChunkBuildable(n.blocks, n.store.spool, entries, i, end);
      }
      ghost var before := n.W();
      var kid := PutLeafBlock(n, chunk);
      if kid.Err? {
        return Err(kid.error);
      }
      NewShapesStep(old(n.W()), before, n.W(), kid.value.ref);
      GrewTwice(old(n.W()), before, n.W());
      KidListKept(before, n.W(), kids, entries, i);
      KidListStep(n.W(), kids, kid.value, entries, i, end);
      BuildableKept(before, n.W(), entries);
      KeysMore(kids, entries, kid.value);
      kids := kids + [kid.value];
      i := end;
    }
    ghost var before := n.W();
    if Buildable(n.blocks, n.store.spool, entries) {
      BuildableRises(n.blocks, n.store.spool, entries);
    }
    r := PutIndex(n, kids, entries);
    if r.Ok? {
      GrewTwice(old(n.W()), before, n.W());
      NewShapesTwice(old(n.W()), before, n.W());
    }
  }

  lemma NoKeys(entries: seq<SLEntry>)
    ensures KeysFrom([], entries)
  {
  }

  lemma KeysMore(kids: seq<SIEntry>, entries: seq<SLEntry>, k: SIEntry)
    requires KeysFrom(kids, entries) && MAX_SL_ENTRIES * |kids| < |entries| &&
      k.key == entries[MAX_SL_ENTRIES * |kids|].nid
    ensures KeysFrom(kids + [k], entries)
  {
  }

  lemma BuildableRises(blocks: Catalogue, spool: Spool, entries: seq<SLEntry>)
    requires Buildable(blocks, spool, entries)
    ensures Rising(entries) && |entries| <= MAX_SL_ENTRIES * MAX_SI_ENTRIES
  {
    hide RoleOk;
  }

  lemma NoKids(w: World, entries: seq<SLEntry>)
    ensures KidList(w, [], entries, 0)
  {
  }

  lemma ChunkSize(chunk: seq<SLEntry>)
    requires SLOk(chunk)
    ensures SubLeaf(chunk).CB() <= MAX_DATA_CB && |chunk| > 0 && 0 < chunk[0].nid < U32
  {
  }

  lemma SubsBelow(w: World, pages: set<nat>, chunk: seq<SLEntry>)
    requires Holds(w, {}, {}, pages) && forall e | e in chunk :: RoleOk(w.c.blocks, w.spool, e)
    ensures forall e | e in chunk :: e.sub < w.next
  {
    hide TreeOk, SubShape, Visits, DistinctBids, Holds;
    FreshBid(w, pages, w.next);
    forall e | e in chunk
      ensures e.sub < w.next
    {
      if e.sub != 0 {
        ShapeLive(w.c.blocks, w.spool, e.sub);
      }
    }
  }

  lemma KidListLive(w: World, kids: seq<SIEntry>, entries: seq<SLEntry>)
    requires KidList(w, kids, entries, |entries|)
    ensures forall k | k in kids :: k.ref != 0 && k.ref in w.c.blocks && k.ref < w.next
  {
    hide KidEntries, LeafShape, SLOk;
  }

  lemma SingleLeaf(w: World, kids: seq<SIEntry>, entries: seq<SLEntry>)
    requires |kids| == 1 && KidList(w, kids, entries, |entries|) && Descending(w.c.blocks, w.spool)
    ensures var root := w.c.blocks[kids[0].ref].bid;
      kids[0].ref in w.c.blocks && SubShape(w.c.blocks, w.spool, root) && Entries(w.c.blocks, w.spool, root) == entries
      && root in w.c.blocks && root == kids[0].ref && IsLeafBlock(w.c.blocks, w.spool, root)
  {
    hide LeafShape, SLOk;
    var k := kids[0];
    LeafOrIndex(w.c.blocks, w.spool, k.ref);
    KidEntriesLast(w.c.blocks, w.spool, [], k);
    assert [] + [k] == kids && KidEntries(w.c.blocks, w.spool, []) == [];
    hide SubShape, LeafEntries;
  }

  lemma IndexTree(w: World, kids: seq<SIEntry>, entries: seq<SLEntry>, root: nat)
    requires KidList(w, kids, entries, |entries|) && SIOk(kids)
    requires root in w.c.blocks && IsInternal(root) && Payload(w.c.blocks, w.spool, root) == Ok(SubIndex(kids))
    requires forall k | k in kids :: k.ref < root
    ensures SubShape(w.c.blocks, w.spool, root) && Entries(w.c.blocks, w.spool, root) == entries
  {
    hide KidOk, SIOk, SLOk, LeafShape, KidEntries;
    IndexShape(w.c.blocks, w.spool, root, kids);
    assert LeafEntries(w.c.blocks, w.spool, root) == [];
    assert entries[..|entries|] == entries;
  }

  predicate SortedByNid(s: seq<SLEntry>) {
    forall i, j | 0 <= i < j < |s| :: s[i].nid <= s[j].nid
  }

  method InsertByNid(s: seq<SLEntry>, e: SLEntry) returns (t: seq<SLEntry>)
    requires SortedByNid(s)
    ensures SortedByNid(t) && multiset(t) == multiset(s) + multiset{e}
    ensures (forall k | 0 <= k < |s| :: s[k].nid <= e.nid) ==> t == s + [e]
  {
    var at := 0;
    while at < |s| && s[at].nid <= e.nid
      invariant at <= |s| && forall k | 0 <= k < at :: s[k].nid <= e.nid
    {
      at := at + 1;
    }
    assert s == s[..at] + s[at..];
    t := s[..at] + [e] + s[at..];
  }

  method SortByNid(input: seq<SLEntry>) returns (s: seq<SLEntry>)
    ensures SortedByNid(s) && multiset(s) == multiset(input)
    ensures SortedByNid(input) ==> s == input
  {
    s := [];
    for i := 0 to |input|
      invariant SortedByNid(s) && multiset(s) == multiset(input[..i])
      invariant SortedByNid(input) ==> s == input[..i]
    {
      assert input[..i + 1] == input[..i] + [input[i]];
      s := InsertByNid(s, input[i]);
    }
    assert input[..|input|] == input;
  }

  /** The same in any order, with distinct identifiers. */
  ghost predicate Listable(blocks: Catalogue, spool: Spool, entries: seq<SLEntry>) {
    && (forall e | e in entries ::
        0 < e.nid < U32 && !HasReserved(e.data) && !HasReserved(e.sub) && RoleOk(blocks, spool, e))
    && (forall i, j | 0 <= i < j < |entries| :: entries[i].nid != entries[j].nid) &&
       |entries| <= MAX_SL_ENTRIES * MAX_SI_ENTRIES
  }

  lemma {:induction false} NidOnce(entries: seq<SLEntry>, e: SLEntry)
    requires forall i, j | 0 <= i < j < |entries| :: entries[i].nid != entries[j].nid
    ensures multiset(entries)[e] <= 1
  {
    if entries != [] {
      var last := |entries| - 1;
      NidOnce(entries[..last], e);
      assert entries == entries[..last] + [entries[last]];
      if e == entries[last] {
        assert forall i | 0 <= i < last :: entries[..last][i].nid != e.nid;
        assert e !in entries[..last];
      }
    }
  }

  lemma SortedRises(input: seq<SLEntry>, sorted: seq<SLEntry>)
    requires forall i, j | 0 <= i < j < |input| :: input[i].nid != input[j].nid
    requires SortedByNid(sorted) && multiset(sorted) == multiset(input)
    ensures Rising(sorted)
  {
    forall i, j | 0 <= i < j < |sorted|
      ensures sorted[i].nid != sorted[j].nid
    {
      assert sorted[i] in multiset(input) && sorted[j] in multiset(input);
      var x :| 0 <= x < |input| && input[x] == sorted[i];
      var y :| 0 <= y < |input| && input[y] == sorted[j];
      NidOnce(input, sorted[i]);
      if sorted[i] == sorted[j] {
        TwiceThere(sorted, i, j);
      }
    }
  }

  lemma TwiceThere(s: seq<SLEntry>, i: nat, j: nat)
    requires i < j < |s| && s[i] == s[j]
    ensures multiset(s)[s[i]] >= 2
  {
    assert s == s[..j] + [s[j]] + s[j + 1..];
    assert s[i] in s[..j];
  }

  lemma SortedBuildable(blocks: Catalogue, spool: Spool, input: seq<SLEntry>, sorted: seq<SLEntry>)
    requires SortedByNid(sorted) && multiset(sorted) == multiset(input)
    ensures Listable(blocks, spool, input) ==> Buildable(blocks, spool, sorted) && |sorted| == |input|
  {
    hide RoleOk;
    assert |multiset(sorted)| == |multiset(input)|;
    if Listable(blocks, spool, input) {
      SortedRises(input, sorted);
      forall e | e in sorted
        ensures e in input
      {
        assert e in multiset(sorted);
      }
    }
  }

  /** PutSubnodeTree: all or nothing; the tree walks back as the entries in NID order. It succeeds on every valid list
      with distinct identifiers while block identifiers last. */
  method PutSubnodeTree(n: NDB, input: seq<SLEntry>) returns (r: Result<BBTEntry>)
    requires n.Valid()
    modifies n, n.store
    ensures n.Valid() && n.store.bidNextP == old(n.store.bidNextP)
    ensures r.Err? ==> Capture(n) == old(Capture(n))
    ensures r.Ok? ==> Grew(old(n.W()), n.W()) && NewShapes(old(n.W()), n.W())
    ensures r.Ok? && input != [] ==> SubShape(n.blocks, n.store.spool, r.value.bid)
    ensures r.Ok? && input != [] ==> SortedByNid(Entries(n.blocks, n.store.spool, r.value.bid))
    ensures r.Ok? && input != [] ==> multiset(Entries(n.blocks, n.store.spool, r.value.bid)) == multiset(input)
    ensures r.Ok? ==> n.nextBlock <= old(n.nextBlock) + 4 * (SLBlocksFor(|input|) + 1)
    ensures r.Ok? && 0 < |input| <= MAX_SL_ENTRIES ==>
      IsLeafBlock(n.blocks, n.store.spool, r.value.bid) && n.blocks.Keys == old(n.blocks.Keys) + {r.value.bid}
    ensures && old(Listable(n.blocks, n.store.spool, input))
            && old(n.nextBlock) + 4 * (SLBlocksFor(|input|) + 1) < U64
            ==> r.Ok?
  {
    hide Holds, Grew, SubShape, Entries, NewShapes, Buildable, Listable, IsLeafBlock;
    if input == [] {
      NoNewShapes(n.W());
      GrewSelf(n.W());
      return Ok(NO_BLOCK);
    }
    var sorted := SortByNid(input);
    SortedBuildable(n.blocks, n.store.spool, input, sorted);
    assert |multiset(sorted)| == |multiset(input)|;
    var snap := Capture(n);
    r := BuildSubnodeTree(n, sorted);
    if r.Err? {
      Restore(n, snap);
      assert n.C() == snap.c;
      assert n.W() == old(n.W());
    }
  }
}
