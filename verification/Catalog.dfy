/** The node and block catalog: reference counts, reclamation and file space (ndb.go). */
module Catalog {
  import opened Common
  import opened Geometry
  import opened Blocks
  import opened Allocation

  datatype Cat = Cat(
    nodes: map<nat, NBTEntry>,
    blocks: map<nat, BBTEntry>,
    dref: map<nat, nat>,
    sref: map<nat, nat>,
    oref: map<nat, nat>)

  /** Reference number `index` in the payload of block `parent`. */
  datatype Edge = Edge(parent: nat, index: nat, target: Ref)

  /** The references block `bid` holds in its payload; none when it is external or unwritten. */
  function KidsOf(blocks: map<nat, BBTEntry>, spool: map<nat, Stored>, bid: nat): seq<Ref> {
    if bid in blocks && IsInternal(bid) && blocks[bid].ib in spool && spool[blocks[bid].ib].bid == bid
    then Kids(spool[blocks[bid].ib].body)
    else []
  }

  ghost function Edges(blocks: map<nat, BBTEntry>, spool: map<nat, Stored>): set<Edge> {
    set p, i | p in blocks && 0 <= i < |KidsOf(blocks, spool, p)| :: Edge(p, i, KidsOf(blocks, spool, p)[i])
  }

  /** The references of one payload from position `from` on. */
  ghost function KidEdges(parent: nat, kids: seq<Ref>, from: nat): set<Edge> {
    set i | from <= i < |kids| :: Edge(parent, i, kids[i])
  }

  ghost function Into(E: set<Edge>, target: Ref): set<Edge> {
    set e | e in E && e.target == target
  }

  ghost function WithData(nodes: map<nat, NBTEntry>, bid: nat): set<nat> {
    set n | n in nodes && nodes[n].data == bid
  }

  ghost function WithSub(nodes: map<nat, NBTEntry>, bid: nat): set<nat> {
    set n | n in nodes && nodes[n].sub == bid
  }

  ghost function NbtRefs(nodes: map<nat, NBTEntry>, bid: nat): nat {
    if bid == 0 then 0 else |WithData(nodes, bid)| + |WithSub(nodes, bid)|
  }

  /** The two node maps differ at most at `nid`. */
  ghost predicate AgreeExcept(nodes: map<nat, NBTEntry>, nodes': map<nat, NBTEntry>, nid: nat) {
    && (forall n | n in nodes && n != nid :: n in nodes' && nodes'[n] == nodes[n])
    && (forall n | n in nodes' && n != nid :: n in nodes)
  }

  /** References to `bid` besides its own catalog entry. */
  ghost function LiveRefs(c: Cat, bid: nat): nat {
    NbtRefs(c.nodes, bid) + Get(c.dref, bid) + Get(c.sref, bid) + Get(c.oref, bid)
  }

  ghost predicate Orphan(c: Cat, bid: nat) {
    LiveRefs(c, bid) == 0
  }

  /** The typed reference maps count exactly the payload references in E. */
  ghost predicate Counted(c: Cat, E: set<Edge>) {
    && (forall b :: |Into(E, Ref(DataTree, b))| == Get(c.dref, b))
    && (forall b :: |Into(E, Ref(Subnode, b))| == Get(c.sref, b))
    && (forall b | b in c.dref :: c.dref[b] > 0)
    && (forall b | b in c.sref :: c.sref[b] > 0)
  }

  /** Every reference, from a node or a payload, names a live block. */
  ghost predicate Closed(c: Cat, E: set<Edge>) {
    && (forall e | e in E :: e.target.bid in c.blocks)
    && (forall n | n in c.nodes :: c.nodes[n].data == 0 || c.nodes[n].data in c.blocks)
    && (forall n | n in c.nodes :: c.nodes[n].sub == 0 || c.nodes[n].sub in c.blocks)
    && c.oref.Keys <= c.blocks.Keys
  }

  /** cRef of every block outside `stale` is 1 plus its references, as a 16-bit value. */
  ghost predicate RefCounts(c: Cat, stale: set<nat>) {
    forall b | b in c.blocks && b !in stale :: c.blocks[b].refs == (1 + LiveRefs(c, b)) % U16
  }

  /** Identifiers are below the counter and references point to older blocks. */
  ghost predicate Issued(c: Cat, E: set<Edge>, next: nat) {
    && next % 4 == 0 && next > 0
    && (forall b | b in c.blocks :: c.blocks[b].bid == b && b != 0 && !HasReserved(b) && Strip(b) + 4 <= next)
    && (forall e | e in E :: 0 < e.target.bid < e.parent && e.parent < next)
    && (forall n | n in c.nodes :: c.nodes[n].nid == n && 0 < n < U32)
  }

  ghost predicate Own(c: Cat, E: set<Edge>, stale: set<nat>, next: nat) {
    Counted(c, E) && Closed(c, E) && RefCounts(c, stale) && Issued(c, E, next)
  }

  function Size(e: BBTEntry): nat {
    BlockDiskSize(e.cb)
  }

  ghost function BlockSlots(blocks: map<nat, BBTEntry>): set<nat>
    requires forall b | b in blocks :: blocks[b].ib >= FIRST_AMAP
  {
    set b, g | b in blocks && g in Slots(blocks[b].ib, Size(blocks[b])) :: g
  }

  ghost function PageSlots(pages: set<nat>): set<nat>
    requires forall p | p in pages :: p >= FIRST_AMAP
  {
    set p, g | p in pages && g in Slots(p, PAGE_SIZE) :: g
  }

  /** File space is an exact partition: map pages, live block extents and tree pages, nothing else. */
  ghost predicate Space(rs: seq<Bitmap>, blocks: map<nat, BBTEntry>, pages: set<nat>) {
    && (forall b | b in blocks :: InRegion(|rs|, blocks[b].ib, Size(blocks[b])) && Size(blocks[b]) <= MAX_ALLOC)
    && (forall p | p in pages :: InRegion(|rs|, p, PAGE_SIZE))
    && (forall b, b' | b in blocks && b' in blocks && b != b' ::
          Slots(blocks[b].ib, Size(blocks[b])) !! Slots(blocks[b'].ib, Size(blocks[b'])))
    && (forall p, p' | p in pages && p' in pages && p != p' :: Slots(p, PAGE_SIZE) !! Slots(p', PAGE_SIZE))
    && BlockSlots(blocks) !! PageSlots(pages) !! Meta(|rs|)
    && Used(rs) == BlockSlots(blocks) + PageSlots(pages) + Meta(|rs|)
  }

  // ---------- counting ----------

  lemma IntoRemove(E: set<Edge>, e: Edge)
    requires e in E
    ensures forall t :: |Into(E - {e}, t)| == |Into(E, t)| - if t == e.target then 1 else 0
  {
    forall t
      ensures |Into(E - {e}, t)| == |Into(E, t)| - if t == e.target then 1 else 0
    {
      if t == e.target {
        assert Into(E, t) == Into(E - {e}, t) + {e};
      } else {
        assert Into(E, t) == Into(E - {e}, t);
      }
    }
  }

  lemma IntoAdd(E: set<Edge>, e: Edge)
    requires e !in E
    ensures forall t :: |Into(E + {e}, t)| == |Into(E, t)| + if t == e.target then 1 else 0
  {
    assert (E + {e}) - {e} == E;
    IntoRemove(E + {e}, e);
  }

  lemma IntoMember(E: set<Edge>, e: Edge)
    requires e in E
    ensures |Into(E, e.target)| > 0
  {
    assert e in Into(E, e.target);
  }

  /** Replacing or removing one node changes the counts of its own blocks only. */
  lemma NbtRefsFrame(nodes: map<nat, NBTEntry>, nodes': map<nat, NBTEntry>, nid: nat, stale: set<nat>)
    requires AgreeExcept(nodes, nodes', nid)
    requires nid in nodes ==> nodes[nid].data in stale && nodes[nid].sub in stale
    requires nid in nodes' ==> nodes'[nid].data in stale && nodes'[nid].sub in stale
    ensures forall b | b !in stale :: NbtRefs(nodes', b) == NbtRefs(nodes, b)
  {
    forall b | b !in stale
      ensures NbtRefs(nodes', b) == NbtRefs(nodes, b)
    {
      assert WithData(nodes, b) == WithData(nodes', b);
      assert WithSub(nodes, b) == WithSub(nodes', b);
    }
  }

  lemma NodeRefsPositive(nodes: map<nat, NBTEntry>, n: nat)
    requires n in nodes
    ensures nodes[n].data != 0 ==> NbtRefs(nodes, nodes[n].data) > 0
    ensures nodes[n].sub != 0 ==> NbtRefs(nodes, nodes[n].sub) > 0
  {
    assert n in WithData(nodes, nodes[n].data);
    assert n in WithSub(nodes, nodes[n].sub);
  }

  // ---------- one step of each operation on values ----------

  function Without(c: Cat, bid: nat): Cat {
    Cat(c.nodes, c.blocks - {bid}, c.dref - {bid}, c.sref - {bid}, c.oref - {bid})
  }

  /** An orphan can be forgotten: nothing counted, nothing dangling. Its own references stay counted. */
  lemma DropOwn(c: Cat, E: set<Edge>, stale: set<nat>, next: nat, bid: nat)
    requires Own(c, E, stale, next) && bid in c.blocks && Orphan(c, bid)
    ensures Own(Without(c, bid), E, stale, next)
    ensures forall b :: LiveRefs(Without(c, bid), b) == LiveRefs(c, b)
  {
    var c' := Without(c, bid);
    assert |Into(E, Ref(DataTree, bid))| == 0 && |Into(E, Ref(Subnode, bid))| == 0;
    forall e | e in E
      ensures e.target.bid != bid
    {
      IntoMember(E, e);
      match e.target {
        case Ref(DataTree, b) => assert e.target == Ref(DataTree, b);
        case Ref(Subnode, b) => assert e.target == Ref(Subnode, b);
      }
    }
    forall n | n in c.nodes
      ensures c.nodes[n].data != bid && c.nodes[n].sub != bid
    {
      NodeRefsPositive(c.nodes, n);
    }
    forall b: nat
      ensures Get(c'.dref, b) == Get(c.dref, b) && Get(c'.sref, b) == Get(c.sref, b) &&
        Get(c'.oref, b) == Get(c.oref, b)
    {
    }
  }

  function Dec(m: map<nat, nat>, k: nat): map<nat, nat>
    requires Get(m, k) > 0
  {
    if m[k] == 1 then m - {k} else m[k := m[k] - 1]
  }

  function Released(c: Cat, r: Ref): Cat
    requires if r.kind == DataTree then Get(c.dref, r.bid) > 0 else Get(c.sref, r.bid) > 0
  {
    if r.kind == DataTree then c.(dref := Dec(c.dref, r.bid)) else c.(sref := Dec(c.sref, r.bid))
  }

  lemma ReleaseCounted(c: Cat, E: set<Edge>, e: Edge)
    requires Counted(c, E) && e in E
    ensures if e.target.kind == DataTree then Get(c.dref, e.target.bid) > 0 else Get(c.sref, e.target.bid) > 0
    ensures Counted(Released(c, e.target), E - {e})
    ensures forall b | b != e.target.bid :: LiveRefs(Released(c, e.target), b) == LiveRefs(c, b)
  {
    IntoMember(E, e);
    assert e.target == Ref(e.target.kind, e.target.bid);
    IntoRemove(E, e);
    var c' := Released(c, e.target);
    forall b: nat
      ensures Get(c'.dref, b) == Get(c.dref, b) - if e.target == Ref(DataTree, b) then 1 else 0
      ensures Get(c'.sref, b) == Get(c.sref, b) - if e.target == Ref(Subnode, b) then 1 else 0
    {
    }
  }

  lemma ReleaseOwn(c: Cat, E: set<Edge>, stale: set<nat>, next: nat, e: Edge)
    requires Own(c, E, stale, next) && e in E
    ensures if e.target.kind == DataTree then Get(c.dref, e.target.bid) > 0 else Get(c.sref, e.target.bid) > 0
    ensures Own(Released(c, e.target), E - {e}, stale + {e.target.bid}, next)
    ensures forall b | b != e.target.bid :: LiveRefs(Released(c, e.target), b) == LiveRefs(c, b)
  {
    ReleaseCounted(c, E, e);
  }

  function Added(c: Cat, r: Ref): Cat {
    if r.kind == DataTree then c.(dref := c.dref[r.bid := Get(c.dref, r.bid) + 1])
    else c.(sref := c.sref[r.bid := Get(c.sref, r.bid) + 1])
  }

  lemma AddCounted(c: Cat, E: set<Edge>, e: Edge)
    requires Counted(c, E) && e !in E
    ensures Counted(Added(c, e.target), E + {e})
    ensures forall b | b != e.target.bid :: LiveRefs(Added(c, e.target), b) == LiveRefs(c, b)
  {
    IntoAdd(E, e);
    var c' := Added(c, e.target);
    forall b: nat
      ensures Get(c'.dref, b) == Get(c.dref, b) + if e.target == Ref(DataTree, b) then 1 else 0
      ensures Get(c'.sref, b) == Get(c.sref, b) + if e.target == Ref(Subnode, b) then 1 else 0
    {
    }
  }

  lemma AddOwn(c: Cat, E: set<Edge>, stale: set<nat>, next: nat, e: Edge)
    requires Own(c, E, stale, next) && e !in E
    requires e.target.bid in c.blocks && 0 < e.target.bid < e.parent < next
    ensures Own(Added(c, e.target), E + {e}, stale + {e.target.bid}, next)
    ensures forall b | b != e.target.bid :: LiveRefs(Added(c, e.target), b) == LiveRefs(c, b)
  {
    AddCounted(c, E, e);
  }

  function Resynced(c: Cat, bid: nat, refs: nat): Cat
    requires bid in c.blocks
  {
    c.(blocks := c.blocks[bid := c.blocks[bid].(refs := refs)])
  }

  lemma ResyncOwn(c: Cat, E: set<Edge>, stale: set<nat>, next: nat, bid: nat)
    requires Own(c, E, stale, next) && bid in c.blocks
    ensures Own(Resynced(c, bid, (1 + LiveRefs(c, bid)) % U16), E, stale - {bid}, next)
  {
    var c' := Resynced(c, bid, (1 + LiveRefs(c, bid)) % U16);
    assert forall b :: LiveRefs(c', b) == LiveRefs(c, b);
  }

  lemma NodeOwn(c: Cat, E: set<Edge>, next: nat, nid: nat, nodes': map<nat, NBTEntry>, stale: set<nat>)
    requires Own(c, E, {}, next)
    requires AgreeExcept(c.nodes, nodes', nid)
    requires nid in c.nodes ==> c.nodes[nid].data in stale && c.nodes[nid].sub in stale
    requires nid in nodes' ==> nodes'[nid].data in stale && nodes'[nid].sub in stale
    requires nid in nodes' ==> nodes'[nid].nid == nid && 0 < nid < U32
    requires nid in nodes' ==> (nodes'[nid].data == 0 || nodes'[nid].data in c.blocks)
    requires nid in nodes' ==> (nodes'[nid].sub == 0 || nodes'[nid].sub in c.blocks)
    ensures Own(c.(nodes := nodes'), E, stale, next)
    ensures forall b | b !in stale :: LiveRefs(c.(nodes := nodes'), b) == LiveRefs(c, b)
  {
    NbtRefsFrame(c.nodes, nodes', nid, stale);
  }

  // ---------- file space ----------

  lemma MetaLater(count: nat, count': nat, ib: nat, size: nat)
    requires InRegion(count, ib, size) && count <= count' && Slots(ib, size) !! Meta(count)
    ensures Slots(ib, size) !! Meta(count') && InRegion(count', ib, size)
  {
    forall g | g in Slots(ib, size)
      ensures g !in Meta(count')
    {
      assert Covers(ib, size, g) && g < SLOTS_PER_AMAP * count;
      assert g / SLOTS_PER_AMAP < count;
    }
  }

  lemma BlockExtentUsed(rs: seq<Bitmap>, blocks: map<nat, BBTEntry>, pages: set<nat>, bid: nat)
    requires Space(rs, blocks, pages) && bid in blocks
    ensures Slots(blocks[bid].ib, Size(blocks[bid])) <= Used(rs)
    ensures Slots(blocks[bid].ib, Size(blocks[bid])) !! Meta(|rs|)
  {
    assert Slots(blocks[bid].ib, Size(blocks[bid])) <= BlockSlots(blocks);
  }

  lemma SpaceDrop(rs: seq<Bitmap>, rs': seq<Bitmap>, blocks: map<nat, BBTEntry>, pages: set<nat>, bid: nat)
    requires Space(rs, blocks, pages) && bid in blocks && |rs'| == |rs|
    requires Used(rs') == Used(rs) - Slots(blocks[bid].ib, Size(blocks[bid]))
    ensures Space(rs', blocks - {bid}, pages)
  {
    var ext := Slots(blocks[bid].ib, Size(blocks[bid]));
    assert ext <= BlockSlots(blocks);
    forall g | g in BlockSlots(blocks) && g !in ext
      ensures g in BlockSlots(blocks - {bid})
    {
      var b :| b in blocks && g in Slots(blocks[b].ib, Size(blocks[b]));
      assert b in blocks - {bid} && (blocks - {bid})[b] == blocks[b];
    }
    forall g | g in BlockSlots(blocks - {bid})
      ensures g in BlockSlots(blocks) && g !in ext
    {
      var b :| b in blocks - {bid} && g in Slots(blocks[b].ib, Size(blocks[b]));
    }
    assert BlockSlots(blocks - {bid}) == BlockSlots(blocks) - ext;
  }

  lemma SpaceAlloc(rs: seq<Bitmap>, rs': seq<Bitmap>, blocks: map<nat, BBTEntry>, pages: set<nat>, e: BBTEntry)
    requires Space(rs, blocks, pages) && e.bid !in blocks && Size(e) <= MAX_ALLOC
    requires Allocated(rs, rs', e.ib, Size(e))
    ensures Space(rs', blocks[e.bid := e], pages)
  {
    var blocks' := blocks[e.bid := e];
    var ext := Slots(e.ib, Size(e));
    SpaceGrown(rs, rs', blocks, pages);
    assert BlockSlots(blocks') == BlockSlots(blocks) + ext by {
      forall g | g in BlockSlots(blocks')
        ensures g in BlockSlots(blocks) + ext
      {
        var b :| b in blocks' && g in Slots(blocks'[b].ib, Size(blocks'[b]));
      }
      forall g | g in ext
        ensures g in BlockSlots(blocks')
      {
        assert e.bid in blocks' && blocks'[e.bid] == e;
      }
      forall g | g in BlockSlots(blocks)
        ensures g in BlockSlots(blocks')
      {
        var b :| b in blocks && g in Slots(blocks[b].ib, Size(blocks[b]));
        assert b in blocks' && blocks'[b] == blocks[b];
      }
    }
    forall b | b in blocks
      ensures Slots(blocks[b].ib, Size(blocks[b])) !! ext
    {
      BlockExtentUsed(rs, blocks, pages, b);
    }
  }

  /** Regions added later hold no slot of an existing extent. */
  lemma SpaceGrown(rs: seq<Bitmap>, rs': seq<Bitmap>, blocks: map<nat, BBTEntry>, pages: set<nat>)
    requires Space(rs, blocks, pages) && |rs| <= |rs'|
    ensures forall b | b in blocks :: InRegion(|rs'|, blocks[b].ib, Size(blocks[b]))
    ensures forall p | p in pages :: InRegion(|rs'|, p, PAGE_SIZE)
    ensures BlockSlots(blocks) !! Meta(|rs'|) && PageSlots(pages) !! Meta(|rs'|)
    ensures Meta(|rs|) <= Meta(|rs'|)
  {
    forall b | b in blocks
      ensures InRegion(|rs'|, blocks[b].ib, Size(blocks[b])) && Slots(blocks[b].ib, Size(blocks[b])) !! Meta(|rs'|)
    {
      BlockExtentUsed(rs, blocks, pages, b);
      MetaLater(|rs|, |rs'|, blocks[b].ib, Size(blocks[b]));
    }
    forall p | p in pages
      ensures InRegion(|rs'|, p, PAGE_SIZE) && Slots(p, PAGE_SIZE) !! Meta(|rs'|)
    {
      assert Slots(p, PAGE_SIZE) <= PageSlots(pages);
      MetaLater(|rs|, |rs'|, p, PAGE_SIZE);
    }
    forall g | g in Meta(|rs|)
      ensures g in Meta(|rs'|)
    {
      assert IsMeta(|rs'|, g);
    }
  }

  lemma SpacePage(rs: seq<Bitmap>, rs': seq<Bitmap>, blocks: map<nat, BBTEntry>, pages: set<nat>, p: nat)
    requires Space(rs, blocks, pages) && Allocated(rs, rs', p, PAGE_SIZE)
    ensures p !in pages && Space(rs', blocks, pages + {p})
  {
    SpaceGrown(rs, rs', blocks, pages);
    assert SlotNumber(p) in Slots(p, PAGE_SIZE);
    forall q | q in pages
      ensures Slots(q, PAGE_SIZE) <= Used(rs)
    {
      assert Slots(q, PAGE_SIZE) <= PageSlots(pages);
    }
    assert PageSlots(pages + {p}) == PageSlots(pages) + Slots(p, PAGE_SIZE);
    assert forall b | b in blocks :: Slots(blocks[b].ib, Size(blocks[b])) <= BlockSlots(blocks);
  }

  lemma SpacePageFree(rs: seq<Bitmap>, rs': seq<Bitmap>, blocks: map<nat, BBTEntry>, pages: set<nat>, p: nat)
    requires Space(rs, blocks, pages) && p in pages
    ensures Slots(p, PAGE_SIZE) <= Used(rs) && Slots(p, PAGE_SIZE) !! Meta(|rs|)
    ensures |rs'| == |rs| && Used(rs') == Used(rs) - Slots(p, PAGE_SIZE) ==> Space(rs', blocks, pages - {p})
  {
    assert Slots(p, PAGE_SIZE) <= PageSlots(pages);
    assert PageSlots(pages - {p}) == PageSlots(pages) - Slots(p, PAGE_SIZE);
  }

  /** Same extents, whatever the reference counts say. */
  ghost predicate SameExtents(blocks: map<nat, BBTEntry>, blocks': map<nat, BBTEntry>) {
    forall b | b in blocks' :: b in blocks && blocks'[b].(refs := 0) == blocks[b].(refs := 0)
  }

  lemma SpaceSame(rs: seq<Bitmap>, blocks: map<nat, BBTEntry>, blocks': map<nat, BBTEntry>, pages: set<nat>)
    requires Space(rs, blocks, pages) && SameExtents(blocks, blocks') && SameExtents(blocks', blocks)
    ensures Space(rs, blocks', pages)
  {
    assert forall b | b in blocks' :: blocks'[b].ib == blocks[b].ib && Size(blocks'[b]) == Size(blocks[b]);
    assert BlockSlots(blocks') == BlockSlots(blocks);
  }

  // ---------- payloads ----------

  /** Every block of `blocks` still has the payload it had. */
  ghost predicate SamePayloads(blocks: map<nat, BBTEntry>, spool: map<nat, Stored>, spool': map<nat, Stored>) {
    forall b | b in blocks ::
      (blocks[b].ib in spool <==> blocks[b].ib in spool') &&
      (blocks[b].ib in spool ==> spool'[blocks[b].ib] == spool[blocks[b].ib])
  }

  lemma EdgesDrop(blocks: map<nat, BBTEntry>, spool: map<nat, Stored>, spool': map<nat, Stored>, bid: nat)
    requires bid in blocks && SamePayloads(blocks - {bid}, spool, spool')
    ensures Edges(blocks, spool) == Edges(blocks - {bid}, spool') + KidEdges(bid, KidsOf(blocks, spool, bid), 0)
  {
    assert forall p | p in blocks && p != bid :: KidsOf(blocks, spool, p) == KidsOf(blocks - {bid}, spool', p);
  }

  lemma EdgesSame(blocks: map<nat, BBTEntry>, blocks': map<nat, BBTEntry>, spool: map<nat, Stored>,
                  spool': map<nat, Stored>)
    requires SameExtents(blocks, blocks') && SameExtents(blocks', blocks) && SamePayloads(blocks, spool, spool')
    ensures Edges(blocks', spool') == Edges(blocks, spool)
  {
    forall b | b in blocks
      ensures KidsOf(blocks, spool, b) == KidsOf(blocks', spool', b)
    {
      assert b in blocks' && blocks'[b].ib == blocks[b].ib;
    }
  }

  /** A fresh extent has no payload yet, so a new block adds no reference. */
  lemma EdgesAlloc(blocks: map<nat, BBTEntry>, spool: map<nat, Stored>, spool': map<nat, Stored>, e: BBTEntry)
    requires e.bid !in blocks && SamePayloads(blocks, spool, spool') && e.ib !in spool'
    ensures Edges(blocks[e.bid := e], spool') == Edges(blocks, spool)
  {
    assert forall p | p in blocks :: KidsOf(blocks[e.bid := e], spool', p) == KidsOf(blocks, spool, p);
  }

  lemma ClearedElsewhere(rs: seq<Bitmap>, blocks: map<nat, BBTEntry>, pages: set<nat>, spool: map<nat, Stored>,
                         spool': map<nat, Stored>,
                         ib: nat, size: nat)
    requires Space(rs, blocks, pages) && Aligned(ib, size) && size > 0
    requires KeptOutside(spool, spool', rs, ib, size)
    requires forall b | b in blocks :: Slots(blocks[b].ib, Size(blocks[b])) !! Slots(ib, size)
    ensures SamePayloads(blocks, spool, spool')
  {
    forall b | b in blocks
      ensures !(ib <= blocks[b].ib < ib + size) && blocks[b].ib < AMapOffset(|rs|)
    {
      DisjointExtents(blocks[b].ib, Size(blocks[b]), ib, size);
    }
  }
}
