/** Data trees: direct, XBLOCK and XXBLOCK forms, their walker and reader (xblock.go). */
module DataTrees {
  import opened Common
  import opened Geometry
  import opened Blocks
  import opened Allocation
  import opened Catalog
  import opened NodeDatabase

  type Catalogue = map<nat, BBTEntry>
  type Spool = map<nat, Stored>

  // ---------- what a tree denotes ----------

  ghost predicate DistinctBids(bids: seq<nat>) {
    forall i, j | 0 <= i < j < |bids| :: bids[i] != bids[j]
  }

  /** InspectXBlock accepts the payload (and EncodeXBlock produces only such payloads). */
  ghost predicate XBlockOk(body: Body) {
    && body.Extended? && (body.level == 1 || body.level == 2)
    && 0 < |body.bids| <= MAX_XBLOCK_ENTRIES
    && (forall i | 0 <= i < |body.bids| :: body.bids[i] != 0 && !HasReserved(body.bids[i])
          && (IsInternal(body.bids[i]) <==> body.level == 2))
    && DistinctBids(body.bids)
  }

  function Payload(blocks: Catalogue, spool: Spool, bid: nat): Result<Body> {
    if bid in blocks then PayloadOf(spool, blocks[bid]) else Err(InvalidArg)
  }

  /** Block `bid` is live and holds an acceptable extended block of the given level. */
  ghost predicate HoldsExtended(blocks: Catalogue, spool: Spool, bid: nat, level: nat) {
    && bid in blocks && IsInternal(bid)
    && Payload(blocks, spool, bid).Ok? && XBlockOk(Payload(blocks, spool, bid).value)
    && Payload(blocks, spool, bid).value.level == level
  }

  ghost predicate StartOk(blocks: Catalogue, spool: Spool, root: nat) {
    || root == 0
    || (root in blocks && !IsInternal(root))
    || HoldsExtended(blocks, spool, root, 1)
    || HoldsExtended(blocks, spool, root, 2)
  }

  function Bids(blocks: Catalogue, spool: Spool, bid: nat): seq<nat> {
    match Payload(blocks, spool, bid)
    case Ok(Extended(_, _, bids)) => bids
    case _ => []
  }

  function FlatMids(blocks: Catalogue, spool: Spool, mids: seq<nat>): seq<nat> {
    if mids == [] then [] else Bids(blocks, spool, mids[0]) + FlatMids(blocks, spool, mids[1..])
  }

  lemma {:induction false} FlatAppend(blocks: Catalogue, spool: Spool, mids: seq<nat>, m: nat)
    ensures FlatMids(blocks, spool, mids + [m]) == FlatMids(blocks, spool, mids) + Bids(blocks, spool, m)
  {
    hide Bids;
    if mids == [] {
      assert mids + [m] == [m];
      assert FlatMids(blocks, spool, [m]) == Bids(blocks, spool, m) + FlatMids(blocks, spool, []);
    } else {
      FlatAppend(blocks, spool, mids[1..], m);
      assert (mids + [m])[1..] == mids[1..] + [m];
    }
  }

  function IsXX(blocks: Catalogue, spool: Spool, root: nat): bool {
    match Payload(blocks, spool, root)
    case Ok(Extended(level, _, _)) => IsInternal(root) && level == 2
    case _ => false
  }

  /** The XBLOCKs below an XXBLOCK root. */
  function Mids(blocks: Catalogue, spool: Spool, root: nat): seq<nat> {
    if IsXX(blocks, spool, root) then Bids(blocks, spool, root) else []
  }

  function Direct(blocks: Catalogue, spool: Spool, root: nat): seq<nat> {
    if root == 0 then [] else if !IsInternal(root) then [root]
    else if IsXX(blocks, spool, root) then [] else Bids(blocks, spool, root)
  }

  /** The data blocks of the tree, in order. */
  function Leaves(blocks: Catalogue, spool: Spool, root: nat): seq<nat> {
    Direct(blocks, spool, root) + FlatMids(blocks, spool, Mids(blocks, spool, root))
  }

  function CBOf(blocks: Catalogue, bid: nat): nat {
    if bid in blocks then blocks[bid].cb else 0
  }

  function SumCB(blocks: Catalogue, leaves: seq<nat>): nat {
    if leaves == [] then 0 else SumCB(blocks, leaves[..|leaves| - 1]) + CBOf(blocks, leaves[|leaves| - 1])
  }

  function Total(blocks: Catalogue, spool: Spool, root: nat): nat {
    if root == 0 then 0
    else if !IsInternal(root) then CBOf(blocks, root)
    else match Payload(blocks, spool, root)
      case Ok(Extended(_, total, _)) => total
      case _ => 0
  }

  /** The trees the walker accepts: live blocks, the right levels, no block twice, lcbTotal right. */
  ghost predicate TreeOk(blocks: Catalogue, spool: Spool, root: nat) {
    && StartOk(blocks, spool, root)
    && (forall m | m in Mids(blocks, spool, root) :: m != root && HoldsExtended(blocks, spool, m, 1))
    && DistinctBids(Mids(blocks, spool, root))
    && (forall b | b in Leaves(blocks, spool, root) :: b in blocks && !IsInternal(b))
    && DistinctBids(Leaves(blocks, spool, root))
    && SumCB(blocks, Leaves(blocks, spool, root)) == Total(blocks, spool, root)
  }

  function BytesOf(blocks: Catalogue, spool: Spool, bid: nat): seq<byte> {
    match Payload(blocks, spool, bid)
    case Ok(Data(bytes)) => bytes
    case _ => []
  }

  function LeafBytes(blocks: Catalogue, spool: Spool, leaves: seq<nat>): seq<byte> {
    if leaves == [] then []
    else LeafBytes(blocks, spool, leaves[..|leaves| - 1]) + BytesOf(blocks, spool, leaves[|leaves| - 1])
  }

  // ---------- other operations keep a tree ----------

  /** Later states keep the blocks of earlier ones, with their extents and payloads. */
  ghost predicate Kept(blocks: Catalogue, spool: Spool, blocks': Catalogue, spool': Spool) {
    SameExtents(blocks', blocks) && SamePayloads(blocks, spool, spool')
  }

  lemma KeptPayload(blocks: Catalogue, spool: Spool, blocks': Catalogue, spool': Spool, bid: nat)
    requires Kept(blocks, spool, blocks', spool') && bid in blocks
    ensures bid in blocks' && Payload(blocks', spool', bid) == Payload(blocks, spool, bid)
    ensures blocks'[bid].cb == blocks[bid].cb && blocks'[bid].ib == blocks[bid].ib &&
      blocks'[bid].bid == blocks[bid].bid
  {
    assert blocks'[bid].(refs := 0) == blocks[bid].(refs := 0);
    assert blocks'[bid].ib == blocks[bid].(refs := 0).ib == blocks[bid].ib;
    assert blocks'[bid].bid == blocks[bid].(refs := 0).bid;
    assert blocks'[bid].cb == blocks[bid].(refs := 0).cb;
  }

  lemma {:induction false} KeptFlat(blocks: Catalogue, spool: Spool, blocks': Catalogue, spool': Spool, mids: seq<nat>)
    requires Kept(blocks, spool, blocks', spool') && forall m | m in mids :: m in blocks
    ensures FlatMids(blocks', spool', mids) == FlatMids(blocks, spool, mids)
  {
    if mids != [] {
      KeptPayload(blocks, spool, blocks', spool', mids[0]);
      KeptFlat(blocks, spool, blocks', spool', mids[1..]);
    }
  }

  lemma {:induction false} KeptLeaves(blocks: Catalogue, spool: Spool, blocks': Catalogue, spool': Spool,
                                      leaves: seq<nat>)
    requires Kept(blocks, spool, blocks', spool') && forall b | b in leaves :: b in blocks
    ensures SumCB(blocks', leaves) == SumCB(blocks, leaves)
    ensures LeafBytes(blocks', spool', leaves) == LeafBytes(blocks, spool, leaves)
  {
    if leaves != [] {
      KeptPayload(blocks, spool, blocks', spool', leaves[|leaves| - 1]);
      KeptLeaves(blocks, spool, blocks', spool', leaves[..|leaves| - 1]);
    }
  }

  lemma KeptTop(blocks: Catalogue, spool: Spool, blocks': Catalogue, spool': Spool, root: nat)
    requires Kept(blocks, spool, blocks', spool') && StartOk(blocks, spool, root)
    ensures StartOk(blocks', spool', root)
    ensures Mids(blocks', spool', root) == Mids(blocks, spool, root)
    ensures Direct(blocks', spool', root) == Direct(blocks, spool, root)
    ensures Total(blocks', spool', root) == Total(blocks, spool, root)
  {
    hide XBlockOk;
    if root != 0 {
      KeptPayload(blocks, spool, blocks', spool', root);
    }
  }

  lemma KeptExtended(blocks: Catalogue, spool: Spool, blocks': Catalogue, spool': Spool, bid: nat, level: nat)
    requires Kept(blocks, spool, blocks', spool') && HoldsExtended(blocks, spool, bid, level)
    ensures HoldsExtended(blocks', spool', bid, level)
  {
    hide XBlockOk;
    KeptPayload(blocks, spool, blocks', spool', bid);
  }

  /** A tree keeps its shape, leaves and bytes as long as its blocks stay. */
  lemma KeptTree(blocks: Catalogue, spool: Spool, blocks': Catalogue, spool': Spool, root: nat)
    requires Kept(blocks, spool, blocks', spool') && TreeOk(blocks, spool, root)
    ensures TreeOk(blocks', spool', root) && Leaves(blocks', spool', root) == Leaves(blocks, spool, root)
    ensures Total(blocks', spool', root) == Total(blocks, spool, root)
    ensures LeafBytes(blocks', spool', Leaves(blocks', spool', root)) == LeafBytes(blocks, spool,
        Leaves(blocks, spool, root))
  {
    hide XBlockOk, DistinctBids, Kept, StartOk, Mids, Direct, Total, HoldsExtended;
    var mids := Mids(blocks, spool, root);
    KeptTop(blocks, spool, blocks', spool', root);
    forall m | m in mids
      ensures HoldsExtended(blocks', spool', m, 1) && m in blocks
    {
      KeptExtended(blocks, spool, blocks', spool', m, 1);
      ExtendedLive(blocks, spool, m, 1);
    }
    KeptFlat(blocks, spool, blocks', spool', mids);
    KeptLeaves(blocks, spool, blocks', spool', Leaves(blocks, spool, root));
    forall b | b in Leaves(blocks, spool, root)
      ensures b in blocks'
    {
      KeptPayload(blocks, spool, blocks', spool', b);
    }
  }

  lemma ExtendedLive(blocks: Catalogue, spool: Spool, bid: nat, level: nat)
    requires HoldsExtended(blocks, spool, bid, level)
    ensures bid in blocks && IsInternal(bid)
  {
  }

  // ---------- the walker ----------

  datatype Step = Leaf(bid: nat, cb: nat) | Eof | Fail(error: Error)

  ghost function BidSet(bids: seq<nat>): set<nat> {
    set b | b in bids
  }

  /** The walker's place in the tree: what it produced, what it still has to visit. */
  ghost predicate WalkInv(blocks: Catalogue, spool: Spool, root: nat, produced: seq<nat>, passed: seq<nat>,
                          xb: seq<nat>, xx: seq<nat>) {
    && StartOk(blocks, spool, root)
    && passed + xx == Mids(blocks, spool, root)
    && produced + xb + FlatMids(blocks, spool, xx) == Leaves(blocks, spool, root)
    && (forall m | m in passed :: m != root && HoldsExtended(blocks, spool, m, 1)) && DistinctBids(passed)
    && (forall b | b in produced :: b in blocks && !IsInternal(b)) && DistinctBids(produced)
  }

  ghost function SeenSet(root: nat, produced: seq<nat>, passed: seq<nat>): set<nat> {
    BidSet(produced) + BidSet(passed) + if IsInternal(root) then {root} else {}
  }

  lemma WalkStart(blocks: Catalogue, spool: Spool, root: nat)
    requires StartOk(blocks, spool, root)
    ensures WalkInv(blocks, spool, root, [], [], Direct(blocks, spool, root), Mids(blocks, spool, root))
  {
    hide XBlockOk;
  }

  /** The next data block is acceptable exactly when it is external, new and live; if not, the tree is not. */
  lemma WalkLeafBad(blocks: Catalogue, spool: Spool, root: nat, produced: seq<nat>, passed: seq<nat>, xb: seq<nat>,
                    xx: seq<nat>)
    requires WalkInv(blocks, spool, root, produced, passed, xb, xx) && xb != []
    ensures IsInternal(xb[0]) || xb[0] in SeenSet(root, produced, passed) || xb[0] !in blocks ==>
      !TreeOk(blocks, spool, root)
  {
    hide XBlockOk, StartOk, Mids, Direct, Total, SumCB;
    var all := Leaves(blocks, spool, root);
    assert all[|produced|] == xb[0];
    assert xb[0] in all;
    if !IsInternal(xb[0]) && xb[0] in produced {
      var i :| 0 <= i < |produced| && produced[i] == xb[0];
      assert all[i] == all[|produced|];
    }
  }

  lemma WalkLeafGood(blocks: Catalogue, spool: Spool, root: nat, produced: seq<nat>, passed: seq<nat>, xb: seq<nat>,
                     xx: seq<nat>)
    requires WalkInv(blocks, spool, root, produced, passed, xb, xx) && xb != []
    requires !IsInternal(xb[0]) && xb[0] !in SeenSet(root, produced, passed) && xb[0] in blocks
    ensures WalkInv(blocks, spool, root, produced + [xb[0]], passed, xb[1..], xx)
    ensures SeenSet(root, produced + [xb[0]], passed) == SeenSet(root, produced, passed) + {xb[0]}
    ensures SumCB(blocks, produced + [xb[0]]) == SumCB(blocks, produced) + blocks[xb[0]].cb
  {
    hide XBlockOk, StartOk, Mids, Direct, Total;
    assert produced + [xb[0]] + xb[1..] + FlatMids(blocks, spool, xx) == Leaves(blocks, spool, root);
    assert (produced + [xb[0]])[..|produced|] == produced;
  }

  lemma WalkLeaf(blocks: Catalogue, spool: Spool, root: nat, produced: seq<nat>, passed: seq<nat>, xb: seq<nat>,
                 xx: seq<nat>)
    requires WalkInv(blocks, spool, root, produced, passed, xb, xx) && xb != []
    ensures IsInternal(xb[0]) || xb[0] in SeenSet(root, produced, passed) || xb[0] !in blocks ==>
      !TreeOk(blocks, spool, root)
    ensures !IsInternal(xb[0]) && xb[0] !in SeenSet(root, produced, passed) && xb[0] in blocks ==>
      && WalkInv(blocks, spool, root, produced + [xb[0]], passed, xb[1..], xx)
      && SeenSet(root, produced + [xb[0]], passed) == SeenSet(root, produced, passed) + {xb[0]}
      && SumCB(blocks, produced + [xb[0]]) == SumCB(blocks, produced) + blocks[xb[0]].cb
  {
    hide WalkInv, SeenSet, SumCB, TreeOk;
    WalkLeafBad(blocks, spool, root, produced, passed, xb, xx);
    if !IsInternal(xb[0]) && xb[0] !in SeenSet(root, produced, passed) && xb[0] in blocks {
      WalkLeafGood(blocks, spool, root, produced, passed, xb, xx);
    }
  }

  lemma WalkMidBad(blocks: Catalogue, spool: Spool, root: nat, produced: seq<nat>, passed: seq<nat>, xx: seq<nat>)
    requires WalkInv(blocks, spool, root, produced, passed, [], xx) && xx != []
    ensures xx[0] in SeenSet(root, produced, passed) || !HoldsExtended(blocks, spool, xx[0], 1) ==>
      !TreeOk(blocks, spool, root)
  {
    hide XBlockOk, Direct, Total, HoldsExtended, SumCB, Leaves, FlatMids, Bids;
    var mids := Mids(blocks, spool, root);
    assert mids[|passed|] == xx[0];
    MidsInternal(blocks, spool, root, xx[0]);
    hide StartOk, Mids;
    assert xx[0] in passed ==> !DistinctBids(mids) by {
      if xx[0] in passed {
        var i :| 0 <= i < |passed| && passed[i] == xx[0];
        assert mids[i] == mids[|passed|];
      }
    }
    assert xx[0] !in produced;
  }

  lemma FlatFirst(blocks: Catalogue, spool: Spool, mids: seq<nat>)
    requires mids != []
    ensures FlatMids(blocks, spool, mids) == Bids(blocks, spool, mids[0]) + FlatMids(blocks, spool, mids[1..])
  {
  }

  lemma SeenMore(root: nat, produced: seq<nat>, passed: seq<nat>, m: nat)
    ensures SeenSet(root, produced, passed + [m]) == SeenSet(root, produced, passed) + {m}
    ensures m !in SeenSet(root, produced, passed) ==> m !in passed && (IsInternal(root) ==> m != root)
  {
    assert BidSet(passed + [m]) == BidSet(passed) + {m};
  }

  lemma WalkMidGood(blocks: Catalogue, spool: Spool, root: nat, produced: seq<nat>, passed: seq<nat>, xx: seq<nat>)
    requires WalkInv(blocks, spool, root, produced, passed, [], xx) && xx != []
    requires xx[0] !in SeenSet(root, produced, passed) && HoldsExtended(blocks, spool, xx[0], 1)
    ensures WalkInv(blocks, spool, root, produced, passed + [xx[0]], Bids(blocks, spool, xx[0]), xx[1..])
    ensures SeenSet(root, produced, passed + [xx[0]]) == SeenSet(root, produced, passed) + {xx[0]}
  {
    FlatFirst(blocks, spool, xx);
    hide XBlockOk, Direct, Total, HoldsExtended, SumCB, Leaves, FlatMids, Bids, StartOk, Mids, SeenSet;
    var mids := Mids(blocks, spool, root);
    assert mids[|passed|] == xx[0];
    MidsInternal(blocks, spool, root, xx[0]);
    SeenMore(root, produced, passed, xx[0]);
    Shifted(passed, xx);
    Regrouped(produced, Bids(blocks, spool, xx[0]), FlatMids(blocks, spool, xx[1..]));
  }

  lemma Shifted<T>(a: seq<T>, b: seq<T>)
    requires b != []
    ensures a + [b[0]] + b[1..] == a + b
  {
  }

  lemma Regrouped<T>(a: seq<T>, b: seq<T>, c: seq<T>)
    ensures a + b + c == a + [] + (b + c)
  {
  }

  /** The same for the next XBLOCK under an XXBLOCK. */
  lemma WalkMid(blocks: Catalogue, spool: Spool, root: nat, produced: seq<nat>, passed: seq<nat>, xx: seq<nat>)
    requires WalkInv(blocks, spool, root, produced, passed, [], xx) && xx != []
    ensures xx[0] in SeenSet(root, produced, passed) || !HoldsExtended(blocks, spool, xx[0], 1) ==>
      !TreeOk(blocks, spool, root)
    ensures xx[0] !in SeenSet(root, produced, passed) && HoldsExtended(blocks, spool, xx[0], 1) ==>
      && WalkInv(blocks, spool, root, produced, passed + [xx[0]], Bids(blocks, spool, xx[0]), xx[1..])
      && SeenSet(root, produced, passed + [xx[0]]) == SeenSet(root, produced, passed) + {xx[0]}
  {
    hide WalkInv, SeenSet, HoldsExtended, TreeOk, Bids;
    WalkMidBad(blocks, spool, root, produced, passed, xx);
    if xx[0] !in SeenSet(root, produced, passed) && HoldsExtended(blocks, spool, xx[0], 1) {
      WalkMidGood(blocks, spool, root, produced, passed, xx);
    }
  }

  lemma MidsInternal(blocks: Catalogue, spool: Spool, root: nat, m: nat)
    requires StartOk(blocks, spool, root) && m in Mids(blocks, spool, root)
    ensures IsInternal(m) && IsInternal(root)
  {
  }

  lemma WalkEnd(blocks: Catalogue, spool: Spool, root: nat, produced: seq<nat>, passed: seq<nat>)
    requires WalkInv(blocks, spool, root, produced, passed, [], [])
    ensures produced == Leaves(blocks, spool, root)
    ensures TreeOk(blocks, spool, root) <==> SumCB(blocks, produced) == Total(blocks, spool, root)
  {
    hide XBlockOk, StartOk, Mids, Direct, Total, HoldsExtended;
    assert passed + [] == passed;
    assert produced + [] + FlatMids(blocks, spool, []) == produced;
  }

  lemma WalkBounded(blocks: Catalogue, spool: Spool, root: nat, produced: seq<nat>, passed: seq<nat>, xb: seq<nat>,
                    xx: seq<nat>)
    requires WalkInv(blocks, spool, root, produced, passed, xb, xx)
    ensures |produced| <= |Leaves(blocks, spool, root)|
    ensures produced == Leaves(blocks, spool, root)[..|produced|]
  {
    hide XBlockOk, StartOk, Mids, Direct, Total, HoldsExtended, Leaves;
  }

  /** dataTreeIter: at most one XXBLOCK list and one XBLOCK list are held. */
  class DataTreeIter {
    const n: NDB
    ghost const root: nat
    var seen: set<nat>
    var xx: seq<nat>
    var xxIdx: nat
    var xb: seq<nat>
    var xbIdx: nat
    var total: nat
    var walked: nat
    var done: bool
    ghost var produced: seq<nat>

    ghost predicate Inv()
      reads this, n, n.store
    {
      && xxIdx <= |xx| && xbIdx <= |xb|
      && total == Total(n.blocks, n.store.spool, root)
      && WalkInv(n.blocks, n.store.spool, root, produced, xx[..xxIdx], xb[xbIdx..], xx[xxIdx..])
      && walked == SumCB(n.blocks, produced)
      && seen == SeenSet(root, produced, xx[..xxIdx])
    }

    constructor (n: NDB, ghost root: nat, xx: seq<nat>, xb: seq<nat>, total: nat, seen: set<nat>)
      requires StartOk(n.blocks, n.store.spool, root)
      requires xx == Mids(n.blocks, n.store.spool, root) && xb == Direct(n.blocks, n.store.spool, root)
      requires total == Total(n.blocks, n.store.spool, root) && seen == SeenSet(root, [], [])
      ensures Inv() && !done && produced == [] && this.n == n && this.root == root && this.total == total
    {
      this.n, this.root, this.seen, this.total := n, root, seen, total;
      this.xx, this.xxIdx, this.xb, this.xbIdx := xx, 0, xb, 0;
      this.walked, this.done, this.produced := 0, false, [];
      new;
      hide StartOk, Mids, Direct, WalkInv, Total;
      WalkStart(n.blocks, n.store.spool, root);
      assert xx[..0] == [] && xx[0..] == xx && xb[0..] == xb;
    }

    /** The next data block; at the end, Eof exactly for an acceptable tree, with all its leaves produced. */
    method Next() returns (s: Step)
      requires Inv() && !done
      modifies this
      ensures s.Leaf? ==>
        Inv() && !done && produced == old(produced) + [s.bid] && s.bid in n.blocks && s.cb == n.blocks[s.bid].cb
      ensures s.Leaf? ==> |produced| <= |Leaves(n.blocks, n.store.spool, root)|
      ensures s.Eof? ==> TreeOk(n.blocks, n.store.spool, root) && produced == Leaves(n.blocks, n.store.spool, root)
      ensures s.Eof? ==> produced == old(produced) && done
      ensures s.Fail? ==> !TreeOk(n.blocks, n.store.spool, root)
      ensures total == old(total)
    {
      hide StartOk, Mids, Direct, WalkInv, Total, SeenSet, TreeOk, XBlockOk, Leaves;
      while true
        invariant Inv() && produced == old(produced) && total == old(total) && !done
        decreases |xx| - xxIdx
      {
        if xbIdx < |xb| {
          var bid := xb[xbIdx];
          WalkLeaf(n.blocks, n.store.spool, root, produced, xx[..xxIdx], xb[xbIdx..], xx[xxIdx..]);
          assert xb[xbIdx..][1..] == xb[xbIdx + 1..];
          xbIdx := xbIdx + 1;
          if IsInternal(bid) {
            return Fail(InvariantBroken);
          }
          if bid in seen {
            return Fail(InvariantBroken);
          }
          seen := seen + {bid};
          if bid !in n.blocks {
            return Fail(InvariantBroken);
          }
          walked := walked + n.blocks[bid].cb;
          produced := produced + [bid];
          WalkBounded(n.blocks, n.store.spool, root, produced, xx[..xxIdx], xb[xbIdx..], xx[xxIdx..]);
          return Leaf(bid, n.blocks[bid].cb);
        }
        if xxIdx >= |xx| {
          done := true;
          assert xx[xxIdx..] == [] && xb[xbIdx..] == [];
          WalkEnd(n.blocks, n.store.spool, root, produced, xx[..xxIdx]);
          if walked != total {
            return Fail(InvariantBroken);
          }
          return Eof;
        }
        var bid := xx[xxIdx];
        assert xb[xbIdx..] == [];
        WalkMid(n.blocks, n.store.spool, root, produced, xx[..xxIdx], xx[xxIdx..]);
        assert xx[..xxIdx + 1] == xx[..xxIdx] + [xx[xxIdx]] && xx[xxIdx..][1..] == xx[xxIdx + 1..];
        xxIdx := xxIdx + 1;
        if bid in seen {
          return Fail(InvariantBroken);
        }
        seen := seen + {bid};
        if bid !in n.blocks {
          return Fail(InvariantBroken);
        }
        if !IsInternal(bid) {
          return Fail(InvariantBroken);
        }
        var payload := n.BlockPayload(n.blocks[bid]);
        if payload.Err? {
          return Fail(InvariantBroken);
        }
        var ok := InspectXBlock(payload.value);
        if !ok {
          return Fail(InvariantBroken);
        }
        if payload.value.level != 1 {
          return Fail(InvariantBroken);
        }
        xb := payload.value.bids;
        xbIdx := 0;
        assert xb[0..] == xb;
      }
    }
  }

  /** InspectXBlock's checks on a decoded payload. */
  method InspectXBlock(body: Body) returns (ok: bool)
    ensures ok <==> XBlockOk(body)
    ensures ok ==> body.Extended?
  {
    if !body.Extended? || (body.level != 1 && body.level != 2) || |body.bids| == 0 || |body.bids| > MAX_XBLOCK_ENTRIES {
      return false;
    }
    var seen: set<nat> := {};
    for i := 0 to |body.bids|
      invariant seen == BidSet(body.bids[..i]) && DistinctBids(body.bids[..i])
      invariant forall k | 0 <= k < i ::
        body.bids[k] != 0 && !HasReserved(body.bids[k]) && (IsInternal(body.bids[k]) <==> body.level == 2)
    {
      var bid := body.bids[i];
      assert body.bids[..i + 1] == body.bids[..i] + [bid];
      if bid == 0 || HasReserved(bid) || IsInternal(bid) != (body.level == 2) {
        return false;
      }
      if bid in seen {
        return false;
      }
      seen := seen + {bid};
    }
    assert body.bids[..|body.bids|] == body.bids;
    return true;
  }

  /** startDataTree. */
  method StartDataTree(n: NDB, root: nat) returns (r: Result<DataTreeIter>)
    ensures r.Ok? <==> StartOk(n.blocks, n.store.spool, root)
    ensures r.Ok? ==> var it := r.value;
      fresh(it) && it.n == n && it.root == root && it.Inv() && !it.done && it.produced == []
      && it.total == Total(n.blocks, n.store.spool, root)
  {
    hide XBlockOk;
    if root == 0 {
      var it := new DataTreeIter(n, root, [], [], 0, {});
      return Ok(it);
    }
    if root !in n.blocks {
      return Err(InvalidArg);
    }
    if !IsInternal(root) {
      var it := new DataTreeIter(n, root, [], [root], n.blocks[root].cb, {});
      return Ok(it);
    }
    var payload := n.BlockPayload(n.blocks[root]);
    if payload.Err? {
      return Err(payload.error);
    }
    var ok := InspectXBlock(payload.value);
    if !ok {
      return Err(InvariantBroken);
    }
    var it;
    ExtendedLevel(payload.value);
    if payload.value.level == 1 {
      it := new DataTreeIter(n, root, [], payload.value.bids, payload.value.total, {root});
    } else {
      it := new DataTreeIter(n, root, payload.value.bids, [], payload.value.total, {root});
    }
    return Ok(it);
  }

  lemma ExtendedLevel(body: Body)
    requires XBlockOk(body)
    ensures body.Extended? && (body.level == 1 || body.level == 2)
  {
  }

  lemma TreeStarts(blocks: Catalogue, spool: Spool, root: nat)
    ensures TreeOk(blocks, spool, root) ==> StartOk(blocks, spool, root)
  {
    hide StartOk;
  }

  /** walkDataTree without a visitor: accepts exactly the trees of TreeOk and yields their leaves. */
  method WalkDataTree(n: NDB, root: nat) returns (r: Result<(seq<nat>, nat)>)
    ensures r.Ok? <==> TreeOk(n.blocks, n.store.spool, root)
    ensures r.Ok? ==> r.value == (Leaves(n.blocks, n.store.spool, root), Total(n.blocks, n.store.spool, root))
  {
    TreeStarts(n.blocks, n.store.spool, root);
    hide XBlockOk, StartOk, Leaves, Total, TreeOk, WalkInv, SeenSet, Mids, Direct;
    var started := StartDataTree(n, root);
    if started.Err? {
      return Err(started.error);
    }
    var it := started.value;
    var leaves: seq<nat> := [];
    while true
      invariant fresh(it) && it.n == n && it.root == root && it.Inv() && !it.done && leaves == it.produced
      invariant it.total == Total(n.blocks, n.store.spool, root)
      invariant |leaves| <= |Leaves(n.blocks, n.store.spool, root)|
      decreases |Leaves(n.blocks, n.store.spool, root)| - |leaves|
    {
      var s := it.Next();
      match s {
        case Leaf(bid, cb) => leaves := leaves + [bid];
        case Eof => return Ok((leaves, it.total));
        case Fail(e) => return Err(e);
      }
    }
  }

  datatype Chunk = Bytes(data: seq<byte>) | End | Failed(error: Error)

  /** DataTreeReader: one leaf payload is held at a time. */
  class DataTreeReader {
    const n: NDB
    const it: DataTreeIter
    var leaf: seq<byte>
    var off: nat
    var read: nat
    ghost var delivered: seq<byte>

    ghost predicate Inv()
      reads this, it, n, n.store
    {
      && it.n == n && it.Inv() && !it.done && off <= |leaf| && read == |delivered|
      && delivered + leaf[off..] == LeafBytes(n.blocks, n.store.spool, it.produced)
    }

    constructor (n: NDB, it: DataTreeIter)
      requires it.n == n && it.Inv() && !it.done && it.produced == []
      ensures Inv() && delivered == [] && this.n == n && this.it == it
    {
      this.n, this.it, leaf, off, read, delivered := n, it, [], 0, 0, [];
    }

    /** The next leaf, once the held one is used up. */
    method NextLeaf() returns (c: Option<Chunk>)
      requires Inv() && off >= |leaf|
      modifies this, it
      ensures c.None? ==> Inv() && off == 0 && delivered == old(delivered) && read == old(read)
      ensures c.None? ==>
        |it.produced| == |old(it.produced)| + 1 && |it.produced| <= |Leaves(n.blocks, n.store.spool, it.root)|
      ensures c.Some? ==> !c.value.Bytes?
      ensures c == Some(End) ==> TreeOk(n.blocks, n.store.spool, it.root) && delivered == old(delivered)
      ensures c == Some(End) ==>
        delivered == LeafBytes(n.blocks, n.store.spool, Leaves(n.blocks, n.store.spool, it.root))
      ensures c == Some(End) ==> |delivered| == Total(n.blocks, n.store.spool, it.root)
      ensures c.Some? && c.value.Failed? ==> !ReadableTree(n.blocks, n.store.spool, it.root)
    {
      hide StartOk, Mids, Direct, WalkInv, Total, SeenSet, TreeOk, XBlockOk, Leaves;
      var s := it.Next();
      match s {
        case Fail(e) => return Some(Failed(e));
        case Eof =>
          assert delivered + [] == delivered;
          if read != it.total {
            ReadableTotal(n.blocks, n.store.spool, it.root);
            return Some(Failed(InvariantBroken));
          }
          return Some(End);
        case Leaf(bid, cb) =>
          WalkBounded(n.blocks, n.store.spool, it.root, it.produced, it.xx[..it.xxIdx], it.xb[it.xbIdx..],
                      it.xx[it.xxIdx..]);
          var payload := n.BlockPayload(n.blocks[bid]);
          ReadableLeaf(n.blocks, n.store.spool, it.root, bid);
          if payload.Err? || !payload.value.Data? {
            return Some(Failed(InvariantBroken));
          }
          assert it.produced[..|it.produced| - 1] == old(it.produced);
          assert delivered + leaf[off..] == delivered;
          leaf := payload.value.bytes;
          off := 0;
          return None;
      }
    }

    /** Hands out bytes of the held leaf. */
    method Take(max: nat) returns (data: seq<byte>)
      requires Inv()
      modifies this
      ensures Inv() && delivered == old(delivered) + data && |data| <= max
      ensures leaf == old(leaf) && off == old(off) + |data| && (max > 0 && old(off) < |leaf| ==> |data| > 0)
    {
      hide LeafBytes, StartOk, Mids, Direct, WalkInv, Total, SeenSet, TreeOk, XBlockOk, Leaves, ReadableTree;
      var k := if max < |leaf| - off then max else |leaf| - off;
      data := leaf[off..off + k];
      assert leaf[off..] == leaf[off..off + k] + leaf[off + k..];
      off := off + k;
      read := read + k;
      delivered := delivered + data;
    }

    /** Read(p) with len(p) == max: the next bytes, or End once every byte of an acceptable tree was delivered. */
    method Read(max: nat) returns (c: Chunk)
      requires Inv()
      modifies this, it
      ensures c.Bytes? ==> Inv() && delivered == old(delivered) + c.data && |c.data| <= max
      ensures c.Bytes? && |it.produced| == |old(it.produced)| ==>
        leaf == old(leaf) && off == old(off) + |c.data| && (max > 0 ==> |c.data| > 0)
      ensures c.Bytes? ==> |old(it.produced)| <= |it.produced| <= |Leaves(n.blocks, n.store.spool, it.root)|
      ensures c.End? ==> TreeOk(n.blocks, n.store.spool, it.root) && delivered == old(delivered)
      ensures c.End? ==> delivered == LeafBytes(n.blocks, n.store.spool, Leaves(n.blocks, n.store.spool, it.root))
      ensures c.End? ==> |delivered| == Total(n.blocks, n.store.spool, it.root)
      ensures c.Failed? ==> !ReadableTree(n.blocks, n.store.spool, it.root)
    {
      hide StartOk, Mids, Direct, WalkInv, Total, SeenSet, TreeOk, XBlockOk, Leaves, ReadableTree, LeafBytes;
      WalkBounded(n.blocks, n.store.spool, it.root, it.produced, it.xx[..it.xxIdx], it.xb[it.xbIdx..],
                  it.xx[it.xxIdx..]);
      if off >= |leaf| {
        var ended := NextLeaf();
        if ended.Some? {
          return ended.value;
        }
      }
      var data := Take(max);
      return Bytes(data);
    }
  }

  /** Reads to the end with a buffer of `max` bytes: exactly the readable trees yield, and yield their bytes. */
  method ReadAll(n: NDB, root: nat, max: nat) returns (r: Result<seq<byte>>)
    requires max > 0
    ensures ReadableTree(n.blocks, n.store.spool, root) ==> r.Ok?
    ensures r.Ok? ==> TreeOk(n.blocks, n.store.spool, root)
    ensures r.Ok? ==> r.value == LeafBytes(n.blocks, n.store.spool, Leaves(n.blocks, n.store.spool, root))
    ensures r.Ok? ==> |r.value| == Total(n.blocks, n.store.spool, root)
  {
    hide XBlockOk, StartOk, Leaves, Total;
    var started := StartDataTree(n, root);
    if started.Err? {
      return Err(started.error);
    }
    hide TreeOk, ReadableTree;
    var rd := new DataTreeReader(n, started.value);
    var out: seq<byte> := [];
    while true
      invariant fresh(rd) && fresh(rd.it) && rd.n == n && rd.it == started.value && rd.it.root == root
      invariant rd.Inv() && out == rd.delivered
      invariant |rd.it.produced| <= |Leaves(n.blocks, n.store.spool, root)|
      decreases |Leaves(n.blocks, n.store.spool, root)| - |rd.it.produced|, |rd.leaf| - rd.off
    {
      hide WalkInv, SeenSet;
      var c := rd.Read(max);
      match c {
        case Bytes(data) => out := out + data;
        case End => return Ok(out);
        case Failed(e) => return Err(e);
      }
    }
  }

  /** An acceptable tree whose leaves hold as many bytes as the catalog says. */
  ghost predicate ReadableTree(blocks: Catalogue, spool: Spool, root: nat) {
    && TreeOk(blocks, spool, root)
    && forall b | b in Leaves(blocks, spool, root) :: ReadableBlock(blocks, spool, b)
  }

  ghost predicate ReadableBlock(blocks: Catalogue, spool: Spool, bid: nat) {
    match Payload(blocks, spool, bid)
    case Ok(Data(bytes)) => |bytes| == blocks[bid].cb
    case _ => false
  }

  lemma ReadableLeaf(blocks: Catalogue, spool: Spool, root: nat, bid: nat)
    requires bid in Leaves(blocks, spool, root)
    ensures ReadableTree(blocks, spool, root) ==>
      Payload(blocks, spool, bid).Ok? && Payload(blocks, spool, bid).value.Data?
  {
    hide TreeOk, Leaves;
  }

  lemma {:induction false} BytesCount(blocks: Catalogue, spool: Spool, leaves: seq<nat>)
    requires forall b | b in leaves :: ReadableBlock(blocks, spool, b)
    ensures |LeafBytes(blocks, spool, leaves)| == SumCB(blocks, leaves)
  {
    if leaves != [] {
      BytesCount(blocks, spool, leaves[..|leaves| - 1]);
      assert ReadableBlock(blocks, spool, leaves[|leaves| - 1]);
    }
  }

  lemma ReadableTotal(blocks: Catalogue, spool: Spool, root: nat)
    ensures ReadableTree(blocks, spool, root) ==>
      |LeafBytes(blocks, spool, Leaves(blocks, spool, root))| == Total(blocks, spool, root)
  {
    hide Leaves, Total, StartOk, Mids;
    if ReadableTree(blocks, spool, root) {
      BytesCount(blocks, spool, Leaves(blocks, spool, root));
    }
  }
}
