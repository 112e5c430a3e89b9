/** What a node holds, leaf by leaf, and why other operations leave it alone (ndb.go, xblock.go, subnode.go). */
module NodeContents {
  import opened Common
  import opened Blocks
  import opened Allocation
  import opened Catalog
  import opened NodeDatabase
  import opened DataTrees
  import opened DataTreeBuilder
  import opened Subnodes
  import opened PayloadShapes

  ghost predicate LeafHolds(blocks: Catalogue, spool: Spool, bid: nat, data: seq<byte>) {
    bid in blocks && blocks[bid].cb == |data| && Payload(blocks, spool, bid) == Ok(Data(data))
  }

  /** The tree below `root` is acceptable and its data blocks hold exactly `leaves`, in order. */
  ghost predicate TreeHolds(blocks: Catalogue, spool: Spool, root: nat, leaves: seq<seq<byte>>) {
    && TreeOk(blocks, spool, root) && |Leaves(blocks, spool, root)| == |leaves|
    && forall i | 0 <= i < |leaves| :: LeafHolds(blocks, spool, Leaves(blocks, spool, root)[i], leaves[i])
  }

  ghost predicate EntryHolds(blocks: Catalogue, spool: Spool, e: SLEntry, sub: (nat, seq<seq<byte>>)) {
    e.nid == sub.0 && TreeHolds(blocks, spool, e.data, sub.1)
  }

  /** The subnode tree below `root` lists exactly these subnodes, with these data leaves. */
  ghost predicate SubsHold(blocks: Catalogue, spool: Spool, root: nat, subs: seq<(nat, seq<seq<byte>>)>) {
    if root == 0 then subs == []
    else
      && SubShape(blocks, spool, root) && |Entries(blocks, spool, root)| == |subs|
      && forall i | 0 <= i < |subs| :: EntryHolds(blocks, spool, Entries(blocks, spool, root)[i], subs[i])
  }

  ghost predicate NodeHolds(w: World, nid: nat, leaves: seq<seq<byte>>, subs: seq<(nat, seq<seq<byte>>)>) {
    && nid in w.c.nodes && TreeHolds(w.c.blocks, w.spool, w.c.nodes[nid].data, leaves)
    && SubsHold(w.c.blocks, w.spool, w.c.nodes[nid].sub, subs)
  }

  // ---------- building keeps it ----------

  lemma LeafKept(blocks: Catalogue, spool: Spool, blocks': Catalogue, spool': Spool, bid: nat, data: seq<byte>)
    requires Kept(blocks, spool, blocks', spool') && LeafHolds(blocks, spool, bid, data)
    ensures LeafHolds(blocks', spool', bid, data)
  {
    KeptPayload(blocks, spool, blocks', spool', bid);
  }

  lemma TreeKept(blocks: Catalogue, spool: Spool, blocks': Catalogue, spool': Spool, root: nat, leaves: seq<seq<byte>>)
    requires Kept(blocks, spool, blocks', spool') && TreeHolds(blocks, spool, root, leaves)
    ensures TreeHolds(blocks', spool', root, leaves)
  {
    hide Kept, TreeOk, Leaves, LeafHolds;
    KeptTree(blocks, spool, blocks', spool', root);
    forall i | 0 <= i < |leaves|
      ensures LeafHolds(blocks', spool', Leaves(blocks', spool', root)[i], leaves[i])
    {
      LeafKept(blocks, spool, blocks', spool', Leaves(blocks, spool, root)[i], leaves[i]);
    }
  }

  lemma SubsKept(blocks: Catalogue, spool: Spool, blocks': Catalogue, spool': Spool, root: nat,
                 subs: seq<(nat, seq<seq<byte>>)>)
    requires Kept(blocks, spool, blocks', spool') && SubsHold(blocks, spool, root, subs)
    ensures SubsHold(blocks', spool', root, subs)
  {
    hide Kept, SubShape, Entries, TreeHolds;
    if root != 0 {
      KeptShape(blocks, spool, blocks', spool', root);
      forall i | 0 <= i < |subs|
        ensures EntryHolds(blocks', spool', Entries(blocks', spool', root)[i], subs[i])
      {
        TreeKept(blocks, spool, blocks', spool', Entries(blocks, spool, root)[i].data, subs[i].1);
      }
    }
  }

  lemma GrewNode(w: World, w': World, nid: nat, leaves: seq<seq<byte>>, subs: seq<(nat, seq<seq<byte>>)>)
    requires Grew(w, w') && NodeHolds(w, nid, leaves, subs)
    ensures NodeHolds(w', nid, leaves, subs)
  {
    hide Kept, TreeHolds, SubsHold;
    TreeKept(w.c.blocks, w.spool, w'.c.blocks, w'.spool, w.c.nodes[nid].data, leaves);
    SubsKept(w.c.blocks, w.spool, w'.c.blocks, w'.spool, w.c.nodes[nid].sub, subs);
  }

  // ---------- losing other blocks keeps it ----------

  /** A surviving tree has the leaves it had. */
  lemma TreeLeft(blocks: Catalogue, spool: Spool, blocks': Catalogue, spool': Spool, root: nat, leaves: seq<seq<byte>>)
    requires Kept(blocks, spool, blocks', spool') && ClosedKids(blocks, spool)
    requires TreeHolds(blocks', spool', root, leaves) && (root == 0 || root in blocks)
    ensures TreeHolds(blocks, spool, root, leaves)
  {
    hide Kept, TreeOk, Leaves, ClosedKids;
    TreeBack(blocks, spool, blocks', spool', root);
    KeptTree(blocks, spool, blocks', spool', root);
    forall i | 0 <= i < |leaves|
      ensures LeafHolds(blocks, spool, Leaves(blocks, spool, root)[i], leaves[i])
    {
      var b := Leaves(blocks, spool, root)[i];
      LeafLive(blocks, spool, root, b);
      KeptPayload(blocks, spool, blocks', spool', b);
    }
  }

  lemma {:induction false} KidEntriesLive(blocks: Catalogue, spool: Spool, kids: seq<SIEntry>)
    requires ClosedKids(blocks, spool) && forall k | k in kids :: IsLeafBlock(blocks, spool, k.ref)
    ensures forall e | e in KidEntries(blocks, spool, kids) :: e.data == 0 || e.data in blocks
  {
    hide ClosedKids, IsLeafBlock, LeafEntries;
    if kids != [] {
      KidEntriesLive(blocks, spool, kids[..|kids| - 1]);
      LeafLiveKids(blocks, spool, kids[|kids| - 1].ref);
    }
  }

  lemma EntriesLive(blocks: Catalogue, spool: Spool, root: nat)
    requires ClosedKids(blocks, spool) && SubShape(blocks, spool, root)
    ensures forall e | e in Entries(blocks, spool, root) :: e.data == 0 || e.data in blocks
  {
    hide ClosedKids, IsLeafBlock, IsIndexBlock, LeafEntries, KidEntries, LeafShape;
    LeafOrIndex(blocks, spool, root);
    if IsLeafBlock(blocks, spool, root) {
      LeafLiveKids(blocks, spool, root);
      NoKidEntries(blocks, spool);
    } else {
      KidEntriesLive(blocks, spool, IndexKids(blocks, spool, root));
    }
  }

  lemma NoKidEntries(blocks: Catalogue, spool: Spool)
    ensures KidEntries(blocks, spool, []) == []
  {
  }

  lemma SubsLeft(blocks: Catalogue, spool: Spool, blocks': Catalogue, spool': Spool, root: nat,
                 subs: seq<(nat, seq<seq<byte>>)>)
    requires Kept(blocks, spool, blocks', spool') && ClosedKids(blocks, spool)
    requires SubsHold(blocks', spool', root, subs) && (root == 0 || root in blocks)
    ensures SubsHold(blocks, spool, root, subs)
  {
    hide Kept, SubShape, Entries, TreeHolds, ClosedKids;
    if root != 0 {
      ShapeBack(blocks, spool, blocks', spool', root);
      KeptShape(blocks, spool, blocks', spool', root);
      EntriesLive(blocks, spool, root);
      forall i | 0 <= i < |subs|
        ensures EntryHolds(blocks, spool, Entries(blocks, spool, root)[i], subs[i])
      {
        assert Entries(blocks, spool, root)[i] in Entries(blocks, spool, root);
        TreeLeft(blocks, spool, blocks', spool', Entries(blocks, spool, root)[i].data, subs[i].1);
      }
    }
  }

  /** A node that an operation does not change keeps its whole contents, whatever else is lost. */
  lemma NodeLeft(w: World, w': World, pages: set<nat>, nid: nat, leaves: seq<seq<byte>>,
                 subs: seq<(nat, seq<seq<byte>>)>)
    requires NodeHolds(w, nid, leaves, subs) && Holds(w', {}, {}, pages)
    requires SameExtents(w.c.blocks, w'.c.blocks) && SamePayloads(w'.c.blocks, w.spool, w'.spool)
    requires nid in w'.c.nodes && w'.c.nodes[nid] == w.c.nodes[nid]
    ensures NodeHolds(w', nid, leaves, subs)
  {
    hide Holds, Kept, SameExtents, SamePayloads, TreeHolds, SubsHold, ClosedKids, Orphans;
    HoldsClosedKids(w', pages);
    NodeBlocksLive(w', {}, {}, pages, nid);
    KeptBack(w, w');
    TreeLeft(w'.c.blocks, w'.spool, w.c.blocks, w.spool, w.c.nodes[nid].data, leaves);
    SubsLeft(w'.c.blocks, w'.spool, w.c.blocks, w.spool, w.c.nodes[nid].sub, subs);
  }

  // ---------- all nodes at once ----------

  /** Every node outside `touched` holds what it held: the same data leaves and the same subnodes. */
  ghost predicate Undisturbed(w: World, w': World, touched: set<nat>) {
    forall nid, leaves, subs | nid !in touched && NodeHolds(w, nid, leaves, subs) :: NodeHolds(w', nid, leaves, subs)
  }

  lemma StillHolds(w: World, w': World, touched: set<nat>, nid: nat, leaves: seq<seq<byte>>,
                   subs: seq<(nat, seq<seq<byte>>)>)
    requires Undisturbed(w, w', touched) && nid !in touched && NodeHolds(w, nid, leaves, subs)
    ensures NodeHolds(w', nid, leaves, subs)
  {
    hide NodeHolds;
  }

  lemma SameUndisturbed(w: World, w': World)
    requires w'.c.nodes == w.c.nodes && w'.c.blocks == w.c.blocks && w'.spool == w.spool
    ensures Undisturbed(w, w', {})
  {
    hide TreeHolds, SubsHold;
  }

  lemma GrewUndisturbed(w: World, w': World)
    requires Grew(w, w')
    ensures Undisturbed(w, w', {})
  {
    hide Grew, NodeHolds;
    forall nid, leaves, subs | NodeHolds(w, nid, leaves, subs)
      ensures NodeHolds(w', nid, leaves, subs)
    {
      GrewNode(w, w', nid, leaves, subs);
    }
  }

  lemma FewerUndisturbed(w: World, w': World, pages: set<nat>, touched: set<nat>)
    requires Holds(w', {}, {}, pages) && SameExtents(w.c.blocks, w'.c.blocks) &&
      SamePayloads(w'.c.blocks, w.spool, w'.spool)
    requires forall nid | nid in w.c.nodes && nid !in touched :: nid in w'.c.nodes && w'.c.nodes[nid] == w.c.nodes[nid]
    ensures Undisturbed(w, w', touched)
  {
    hide Holds, SameExtents, SamePayloads, TreeHolds, SubsHold;
    forall nid, leaves, subs | nid !in touched && NodeHolds(w, nid, leaves, subs)
      ensures NodeHolds(w', nid, leaves, subs)
    {
      NodeLeft(w, w', pages, nid, leaves, subs);
    }
  }

  lemma UndisturbedTwice(w: World, w': World, w'': World, a: set<nat>, b: set<nat>)
    requires Undisturbed(w, w', a) && Undisturbed(w', w'', b)
    ensures Undisturbed(w, w'', a + b)
  {
    hide NodeHolds;
  }

  lemma Wider(w: World, w': World, touched: set<nat>)
    requires Undisturbed(w, w', {})
    ensures Undisturbed(w, w', touched)
  {
    hide NodeHolds;
  }

  // ---------- reading it ----------

  /** The data blocks of a tree, one payload each (walkDataTree with a visitor). */
  method ReadLeaves(n: NDB, root: nat, ghost leaves: seq<seq<byte>>) returns (r: Result<seq<seq<byte>>>)
    requires TreeHolds(n.blocks, n.store.spool, root, leaves)
    ensures r == Ok(leaves)
  {
    hide TreeOk, Leaves;
    var walked := WalkDataTree(n, root);
    var bids := walked.value.0;
    var out: seq<seq<byte>> := [];
    for i := 0 to |bids|
      invariant out == leaves[..i]
    {
      assert LeafHolds(n.blocks, n.store.spool, bids[i], leaves[i]);
      var payload := n.BlockPayload(n.blocks[bids[i]]);
      if payload.Err? || !payload.value.Data? {
        return Err(InvariantBroken);
      }
      out := out + [payload.value.bytes];
    }
    assert leaves[..|leaves|] == leaves;
    return Ok(out);
  }

  /** Every subnode with its data leaves. */
  method ReadSubs(n: NDB, root: nat, ghost subs: seq<(nat, seq<seq<byte>>)>)
    returns (r: Result<seq<(nat, seq<seq<byte>>)>>)
    requires n.Valid() && SubsHold(n.blocks, n.store.spool, root, subs)
    ensures r == Ok(subs)
  {
    hide Holds, SubShape, TreeHolds, Entries;
    BidsMatch(n.W(), PageSet(n.livePages));
    var entries := WalkSubnodes(n, root);
    SubsListed(n.blocks, n.store.spool, root, subs, entries.value);
    hide SubsHold, EntryHolds;
    var out: seq<(nat, seq<seq<byte>>)> := [];
    for i := 0 to |entries.value|
      invariant out == subs[..i]
    {
      EntryListed(n.blocks, n.store.spool, entries.value[i], subs[i]);
      var leaves := ReadLeaves(n, entries.value[i].data, subs[i].1);
      out := out + [(entries.value[i].nid, leaves.value)];
    }
    assert subs[..|subs|] == subs;
    return Ok(out);
  }

  lemma SubsListed(blocks: Catalogue, spool: Spool, root: nat, subs: seq<(nat, seq<seq<byte>>)>, entries: seq<SLEntry>)
    requires SubsHold(blocks, spool, root, subs) && entries == if root == 0 then [] else Entries(blocks, spool, root)
    ensures |entries| == |subs| && forall i | 0 <= i < |subs| :: EntryHolds(blocks, spool, entries[i], subs[i])
  {
    hide SubShape, Entries, EntryHolds;
  }

  lemma EntryListed(blocks: Catalogue, spool: Spool, e: SLEntry, sub: (nat, seq<seq<byte>>))
    requires EntryHolds(blocks, spool, e, sub)
    ensures e.nid == sub.0 && TreeHolds(blocks, spool, e.data, sub.1)
  {
    hide TreeHolds;
  }

  lemma BidsMatch(w: World, pages: set<nat>)
    requires Holds(w, {}, {}, pages)
    ensures forall b | b in w.c.blocks :: w.c.blocks[b].bid == b
  {
    HoldsClosedKids(w, pages);
    hide Holds, KidsOf;
  }

  /** LookupNode, then everything the node holds. */
  method ReadNode(n: NDB, nid: nat, ghost leaves: seq<seq<byte>>, ghost subs: seq<(nat, seq<seq<byte>>)>)
    returns (r: Result<(seq<seq<byte>>, seq<(nat, seq<seq<byte>>)>)>)
    requires n.Valid() && NodeHolds(n.W(), nid, leaves, subs)
    ensures r == Ok((leaves, subs))
  {
    hide Holds, TreeHolds, SubsHold;
    var e := n.nodes[nid];
    var data := ReadLeaves(n, e.data, leaves);
    var found := ReadSubs(n, e.sub, subs);
    return Ok((data.value, found.value));
  }
}
