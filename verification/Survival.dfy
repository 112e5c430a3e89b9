/** Which blocks an edit of the catalog keeps, told by references alone (ndb.go). */
module Survival {
  import opened Common
  import opened Blocks
  import opened Catalog

  ghost predicate Names(nodes: map<nat, NBTEntry>, bid: nat) {
    exists n | n in nodes :: bid != 0 && (nodes[n].data == bid || nodes[n].sub == bid)
  }

  ghost predicate ChildOf(E: set<Edge>, parent: nat, child: nat) {
    exists e | e in E :: e.parent == parent && e.target.bid == child
  }

  /** `path` leads down payload references to `bid`. */
  ghost predicate Chain(E: set<Edge>, path: seq<nat>, bid: nat) {
    |path| > 0 && path[|path| - 1] == bid && forall i | 0 < i < |path| :: ChildOf(E, path[i - 1], path[i])
  }

  ghost predicate Leads(E: set<Edge>, top: nat, bid: nat) {
    exists path :: Chain(E, path, bid) && path[0] == top
  }

  /** Nothing refers to `bid`: no node, no payload and no count taken over from a file. */
  ghost predicate Unreferenced(c: Cat, E: set<Edge>, bid: nat) {
    !Names(c.nodes, bid) && Get(c.oref, bid) == 0 && forall e | e in E :: e.target.bid != bid
  }

  /** What keeps a block alive by itself: a node, a count taken over, or, for `loose` blocks, that nothing ever
      referred to it. */
  ghost predicate Anchor(c: Cat, E: set<Edge>, nodes: map<nat, NBTEntry>, loose: bool, bid: nat) {
    bid in c.blocks && (Names(nodes, bid) || Get(c.oref, bid) > 0 || (loose && Unreferenced(c, E, bid)))
  }

  ghost predicate KeptBy(c: Cat, E: set<Edge>, nodes: map<nat, NBTEntry>, loose: bool, bid: nat) {
    exists top | Anchor(c, E, nodes, loose, top) :: Leads(E, top, bid)
  }

  /** Of the blocks of `c` exactly those are left that `nodes`, with the references `E`, keep. */
  ghost predicate Survivors(c: Cat, E: set<Edge>, nodes: map<nat, NBTEntry>, loose: bool, blocks: map<nat, BBTEntry>) {
    forall b :: b in blocks <==> b in c.blocks && KeptBy(c, E, nodes, loose, b)
  }

  /** Every block that went hung from the blocks the node `nid` named. */
  ghost predicate HungFrom(c: Cat, E: set<Edge>, nid: nat, blocks: map<nat, BBTEntry>) {
    forall b | b in c.blocks && b !in blocks ::
      nid in c.nodes && (Leads(E, c.nodes[nid].data, b) || Leads(E, c.nodes[nid].sub, b))
  }

  lemma NamedCounts(nodes: map<nat, NBTEntry>, bid: nat)
    ensures NbtRefs(nodes, bid) > 0 <==> Names(nodes, bid)
  {
    if bid != 0 && Names(nodes, bid) {
      var n :| n in nodes && (nodes[n].data == bid || nodes[n].sub == bid);
      NodeRefsPositive(nodes, n);
    }
    if NbtRefs(nodes, bid) > 0 {
      if |WithData(nodes, bid)| > 0 {
        var n :| n in WithData(nodes, bid);
      } else {
        var n :| n in WithSub(nodes, bid);
      }
    }
  }

  lemma EdgeCounts(c: Cat, E: set<Edge>, bid: nat)
    requires Counted(c, E)
    ensures Get(c.dref, bid) + Get(c.sref, bid) > 0 <==> exists e | e in E :: e.target.bid == bid
  {
    if e :| e in E && e.target.bid == bid {
      IntoMember(E, e);
      assert e.target == if e.target.kind == DataTree then Ref(DataTree, bid) else Ref(Subnode, bid);
    }
    if Get(c.dref, bid) + Get(c.sref, bid) > 0 {
      var t := if Get(c.dref, bid) > 0 then Ref(DataTree, bid) else Ref(Subnode, bid);
      assert |Into(E, t)| > 0;
      var e :| e in Into(E, t);
    }
  }

  /** The counts say what the references say. */
  lemma OrphanUnreferenced(c: Cat, E: set<Edge>, bid: nat)
    requires Counted(c, E)
    ensures Orphan(c, bid) <==> Unreferenced(c, E, bid)
  {
    hide NbtRefs, Counted, Names;
    NamedCounts(c.nodes, bid);
    EdgeCounts(c, E, bid);
  }

  lemma LeadsSelf(E: set<Edge>, bid: nat)
    ensures Leads(E, bid, bid)
  {
    assert Chain(E, [bid], bid);
  }

  lemma LeadsOn(E: set<Edge>, top: nat, parent: nat, child: nat)
    requires Leads(E, top, parent) && ChildOf(E, parent, child)
    ensures Leads(E, top, child)
  {
    hide ChildOf;
    var path :| Chain(E, path, parent) && path[0] == top;
    assert Chain(E, path + [child], child);
  }

  /** `c'` is left of `c` after blocks went: the references of the live blocks are the same, and what was
      unreferenced, or counted by a file, is still there. */
  ghost predicate Left(c: Cat, E: set<Edge>, c': Cat, E': set<Edge>, loose: bool) {
    && c'.blocks.Keys <= c.blocks.Keys && Counted(c, E) && Counted(c', E') && Closed(c', E')
    && (forall e :: e in E' <==> e in E && e.parent in c'.blocks)
    && (forall e | e in E :: e.target.bid < e.parent)
    && (forall b | b in c'.blocks :: Get(c'.oref, b) == Get(c.oref, b))
    && (forall b | b in c.blocks && Get(c.oref, b) > 0 :: b in c'.blocks)
    && (forall b | b in c'.blocks && Orphan(c', b) :: loose && Orphan(c, b))
    && (loose ==> forall b | b in c.blocks && Orphan(c, b) :: b in c'.blocks)
  }

  lemma NamesLive(c: Cat, E: set<Edge>, bid: nat)
    requires Closed(c, E) && Names(c.nodes, bid)
    ensures bid in c.blocks
  {
  }

  /** From a block that is left every chain stays among the blocks that are left. */
  lemma {:induction false} ChainLeft(c: Cat, E: set<Edge>, c': Cat, E': set<Edge>, loose: bool, path: seq<nat>,
                                     bid: nat)
    requires Left(c, E, c', E', loose) && Chain(E, path, bid) && path[0] in c'.blocks
    ensures bid in c'.blocks
    decreases |path|
  {
    if |path| > 1 {
      var up := path[..|path| - 1];
      assert ChildOf(E, path[|path| - 2], path[|path| - 1]);
      ChainLeft(c, E, c', E', loose, up, up[|up| - 1]);
    }
  }

  lemma AnchorLeft(c: Cat, E: set<Edge>, c': Cat, E': set<Edge>, loose: bool, top: nat)
    requires Left(c, E, c', E', loose) && Anchor(c, E, c'.nodes, loose, top)
    ensures top in c'.blocks
  {
    hide LiveRefs, Counted, Orphan;
    if Names(c'.nodes, top) {
      NamesLive(c', E', top);
    }
    OrphanUnreferenced(c, E, top);
  }

  /** Whoever is left hangs from an anchor. */
  lemma {:induction false} LeftKept(c: Cat, E: set<Edge>, c': Cat, E': set<Edge>, loose: bool, next: nat, bid: nat)
    requires Left(c, E, c', E', loose) && bid in c'.blocks && forall b | b in c.blocks :: b < next
    ensures KeptBy(c, E, c'.nodes, loose, bid)
    decreases next - bid
  {
    hide Counted, LiveRefs, Orphan;
    OrphanUnreferenced(c', E', bid);
    OrphanUnreferenced(c, E, bid);
    LeadsSelf(E, bid);
    if Anchor(c, E, c'.nodes, loose, bid) {
    } else {
      var e :| e in E' && e.target.bid == bid;
      LeftKept(c, E, c', E', loose, next, e.parent);
      var top :| Anchor(c, E, c'.nodes, loose, top) && Leads(E, top, e.parent);
      assert ChildOf(E, e.parent, bid);
      LeadsOn(E, top, e.parent, bid);
    }
  }

  /** The blocks that are left are exactly those that are still kept. */
  lemma LeftSurvivors(c: Cat, E: set<Edge>, c': Cat, E': set<Edge>, loose: bool, next: nat)
    requires Left(c, E, c', E', loose) && forall b | b in c.blocks :: b < next
    ensures Survivors(c, E, c'.nodes, loose, c'.blocks)
  {
    hide Left, Anchor, Leads, LiveRefs;
    forall b
      ensures b in c'.blocks <==> b in c.blocks && KeptBy(c, E, c'.nodes, loose, b)
    {
      LeftIn(c, E, c', E', loose);
      if b in c'.blocks {
        LeftKept(c, E, c', E', loose, next, b);
      } else if KeptBy(c, E, c'.nodes, loose, b) {
        var top :| Anchor(c, E, c'.nodes, loose, top) && Leads(E, top, b);
        AnchorLeft(c, E, c', E', loose, top);
        LeadsLeft(c, E, c', E', loose, top, b);
      }
    }
  }

  lemma LeftIn(c: Cat, E: set<Edge>, c': Cat, E': set<Edge>, loose: bool)
    requires Left(c, E, c', E', loose)
    ensures c'.blocks.Keys <= c.blocks.Keys
  {
  }

  lemma LeadsLeft(c: Cat, E: set<Edge>, c': Cat, E': set<Edge>, loose: bool, top: nat, bid: nat)
    requires Left(c, E, c', E', loose) && top in c'.blocks && Leads(E, top, bid)
    ensures bid in c'.blocks
  {
    hide Left, ChildOf;
    var path :| Chain(E, path, bid) && path[0] == top;
    ChainLeft(c, E, c', E', loose, path, bid);
  }

  /** When only the node `nid` changed, what went hung from the blocks it had named. */
  lemma LostHung(c: Cat, E: set<Edge>, next: nat, nid: nat, nodes: map<nat, NBTEntry>, blocks: map<nat, BBTEntry>)
    requires Own(c, E, {}, next) && (forall e | e in E :: e.parent in c.blocks) && AgreeExcept(c.nodes, nodes, nid)
    requires Survivors(c, E, nodes, true, blocks)
    ensures HungFrom(c, E, nid, blocks)
  {
    SelfLeft(c, E, next);
    forall b | b in c.blocks && b !in blocks
      ensures nid in c.nodes && (Leads(E, c.nodes[nid].data, b) || Leads(E, c.nodes[nid].sub, b))
    {
      hide Own, Leads, Left, Unreferenced;
      LeftKept(c, E, c, E, true, next, b);
      var top :| Anchor(c, E, c.nodes, true, top) && Leads(E, top, b);
      assert !Anchor(c, E, nodes, true, top);
      var n :| n in c.nodes && (c.nodes[n].data == top || c.nodes[n].sub == top) && top != 0;
      if n != nid {
        NamesElsewhere(c.nodes, nodes, nid, n, top);
      }
    }
  }

  lemma NamesElsewhere(nodes: map<nat, NBTEntry>, nodes': map<nat, NBTEntry>, nid: nat, n: nat, top: nat)
    requires AgreeExcept(nodes, nodes', nid) && n in nodes && n != nid && top != 0
    requires nodes[n].data == top || nodes[n].sub == top
    ensures Names(nodes', top)
  {
  }

  lemma SelfLeft(c: Cat, E: set<Edge>, next: nat)
    requires Own(c, E, {}, next) && forall e | e in E :: e.parent in c.blocks
    ensures Left(c, E, c, E, true) && forall b | b in c.blocks :: b < next
  {
    hide LiveRefs, Counted;
  }
}
