/** Whole runs of the store: any mix of building, editing, reclaiming, committing and reopening (ndb.go, xblock.go,
    subnode.go). */
module StoreRuns {
  import opened Common
  import opened Blocks
  import opened Allocation
  import opened Geometry
  import opened Catalog
  import opened Survival
  import opened NodeDatabase
  import opened DataTrees
  import opened DataTreeBuilder
  import opened Subnodes
  import opened CatalogEncoder
  import opened PayloadShapes
  import opened Reopening
  import opened NodeContents
  import opened PagePlan

  /** One call on the database. */
  datatype Op =
    | DataTree(input: seq<byte>, expected: nat)
    | SubnodeTree(entries: seq<SLEntry>)
    | Put(node: NBTEntry)
    | Delete(nid: nat)
    | Reclaim
    | Commit
    | Reopen

  /** What holds between any two calls: exact ownership and an exact partition of the file, every payload tree whole,
      and block identifiers distinct with the internal bit cleared. */
  ghost predicate Sound(n: NDB)
    reads n, n.store
  {
    n.Valid() && Shapely(n.W()) && StripDistinct(n.blocks) && n.store.bidNextP > FIRST_ALLOC_BID
  }

  ghost function Touched(ops: seq<Op>): set<nat> {
    if ops == [] then {} else Touched(ops[..|ops| - 1]) + TouchedBy(ops[|ops| - 1])
  }

  function TouchedBy(op: Op): set<nat> {
    match op
    case Put(e) => {e.nid}
    case Delete(d) => {d}
    case _ => {}
  }

  lemma NothingTouched(ops: seq<Op>)
    ensures Touched(ops[..0]) == {}
  {
  }

  lemma TouchedNext(ops: seq<Op>, i: nat)
    requires i < |ops|
    ensures Touched(ops[..i + 1]) == Touched(ops[..i]) + TouchedBy(ops[i])
  {
    assert ops[..i + 1][..i] == ops[..i];
  }

  /** What changes some nodes, or only loses blocks, keeps shapes and the other nodes' contents. */
  lemma Fewer(w: World, w': World, pages: set<nat>, touched: set<nat>)
    requires Shapely(w) && Holds(w', {}, {}, pages) && SameExtents(w.c.blocks, w'.c.blocks) &&
      SamePayloads(w'.c.blocks, w.spool, w'.spool)
    requires forall nid | nid in w.c.nodes && nid !in touched :: nid in w'.c.nodes && w'.c.nodes[nid] == w.c.nodes[nid]
    ensures Shapely(w') && Undisturbed(w, w', touched) && (StripDistinct(w.c.blocks) ==> StripDistinct(w'.c.blocks))
  {
    FewerDistinct(w, w');
    hide Shapely, Holds, SameExtents, SamePayloads, Undisturbed, StripDistinct;
    FewerShapely(w, w', pages);
    FewerUndisturbed(w, w', pages, touched);
  }

  lemma FewerDistinct(w: World, w': World)
    requires SameExtents(w.c.blocks, w'.c.blocks)
    ensures StripDistinct(w.c.blocks) ==> StripDistinct(w'.c.blocks)
  {
    hide StripDistinct;
    if StripDistinct(w.c.blocks) {
      FewerStripDistinct(w.c.blocks, w'.c.blocks);
    }
  }

  lemma NodesFewer(w: World, w': World, pages: set<nat>, touched: set<nat>)
    requires Shapely(w) && NodesChanged(w, w') && Holds(w', {}, {}, pages)
    requires forall nid | nid in w.c.nodes && nid !in touched :: nid in w'.c.nodes && w'.c.nodes[nid] == w.c.nodes[nid]
    ensures Shapely(w') && Undisturbed(w, w', touched) && (StripDistinct(w.c.blocks) ==> StripDistinct(w'.c.blocks))
  {
    hide Shapely, Holds, SameExtents, SamePayloads, Undisturbed, StripDistinct;
    Fewer(w, w', pages, touched);
  }

  lemma ShrunkFewer(w: World, w': World, pages: set<nat>)
    requires Shapely(w) && Shrunk(w, w') && Holds(w', {}, {}, pages)
    ensures Shapely(w') && Undisturbed(w, w', {}) && (StripDistinct(w.c.blocks) ==> StripDistinct(w'.c.blocks))
  {
    hide Shapely, Holds, SameExtents, SamePayloads, Undisturbed, StripDistinct;
    Fewer(w, w', pages, {});
  }

  lemma ReclaimedFewer(w: World, w': World, pages: set<nat>)
    requires Shapely(w) && Reclaimed(w, w') && Holds(w', {}, {}, pages)
    ensures Shapely(w') && Undisturbed(w, w', {}) && (StripDistinct(w.c.blocks) ==> StripDistinct(w'.c.blocks))
  {
    hide Shapely, Holds, SameExtents, SamePayloads, Orphans, Undisturbed, StripDistinct;
    Fewer(w, w', pages, {});
  }

  lemma SameBlocksShapely(w: World, w': World)
    requires Shapely(w) && w'.c.blocks == w.c.blocks && w'.spool == w.spool
    ensures Shapely(w')
  {
    hide Shaped;
  }

  lemma Same(w: World, w': World)
    requires Shapely(w) && w'.c.nodes == w.c.nodes && w'.c.blocks == w.c.blocks && w'.spool == w.spool
    ensures Shapely(w') && Undisturbed(w, w', {}) && (StripDistinct(w.c.blocks) ==> StripDistinct(w'.c.blocks))
  {
    hide Shapely, Undisturbed, StripDistinct;
    SameBlocksShapely(w, w');
    SameUndisturbed(w, w');
  }

  /** PutDataTree, PutSubnodeTree and heap commits: everything written is new. */
  lemma More(w: World, w': World)
    requires Shapely(w) && Grew(w, w') && (NewTrees(w, w') || NewShapes(w, w'))
    ensures Shapely(w') && Undisturbed(w, w', {}) && (StripDistinct(w.c.blocks) ==> StripDistinct(w'.c.blocks))
  {
    hide Shapely, NewTrees, NewShapes, Undisturbed, StripDistinct, Kept;
    GrewShapely(w, w');
    GrewUndisturbed(w, w');
  }

  // ---------- what each call does ----------

  ghost predicate DataFits(next: nat, input: seq<byte>, expected: nat) {
    && |input| < U32 && (expected == 0 || expected == |input|)
    && next + 4 * (LeafCount(|input|) + XBlocksFor(LeafCount(|input|)) + 1) < U64
  }

  /** The tree at `root` is new beside everything older, and holds the bytes. */
  ghost predicate TreeEffect(w: World, w': World, input: seq<byte>, expected: nat, r: Result<nat>) {
    && (r.Ok? ==>
        w'.c.nodes == w.c.nodes && Kept(w.c.blocks, w.spool, w'.c.blocks, w'.spool) && Stores(w', r.value, input))
    && (r.Err? ==> w'.c == w.c && w'.spool == w.spool)
    && (DataFits(w.next, input, expected) ==> r.Ok?)
  }

  /** The tree at `root` is new beside everything older, and holds exactly the entries. */
  ghost predicate EntriesEffect(w: World, w': World, entries: seq<SLEntry>, r: Result<nat>) {
    && (r.Ok? ==> w'.c.nodes == w.c.nodes && Kept(w.c.blocks, w.spool, w'.c.blocks, w'.spool))
    && (r.Ok? && entries != [] ==> SubShape(w'.c.blocks, w'.spool, r.value)
                                   && multiset(Entries(w'.c.blocks, w'.spool, r.value)) == multiset(entries))
    && (r.Err? ==> w'.c == w.c && w'.spool == w.spool)
    && (Listable(w.c.blocks, w.spool, entries) && w.next + 4 * (SLBlocksFor(|entries|) + 1) < U64 ==> r.Ok?)
  }

  /** The nodes are these, and only blocks that nothing leads to any more went. */
  ghost predicate NodesEffect(w: World, w': World, nodes: map<nat, NBTEntry>, loose: bool) {
    && w'.c.nodes == nodes && Survivors(w.c, Edges(w.c.blocks, w.spool), nodes, loose, w'.c.blocks)
    && SameExtents(w.c.blocks, w'.c.blocks) && SamePayloads(w'.c.blocks, w.spool, w'.spool)
  }

  ghost predicate Effect(w: World, w': World, op: Op, r: Result<nat>) {
    match op
    case DataTree(input, expected) => TreeEffect(w, w', input, expected, r)
    case SubnodeTree(entries) => EntriesEffect(w, w', entries, r)
    case Put(e) =>
      && (r.Ok? <==> 0 < e.nid < U32 && (e.data == 0 || e.data in w.c.blocks) && (e.sub == 0 || e.sub in w.c.blocks))
      && if r.Ok? then NodesEffect(w, w', w.c.nodes[e.nid := e], true) else w' == w
    case Delete(nid) =>
      (r.Ok? <==> nid in w.c.nodes) && if r.Ok? then NodesEffect(w, w', w.c.nodes - {nid}, true) else w' == w
    case Reclaim => r.Ok? && NodesEffect(w, w', w.c.nodes, false)
    case Commit => NodesEffect(w, w', w.c.nodes, false)
    case Reopen => NodesEffect(w, w', w.c.nodes, false)
  }

  method DoTree(n: NDB, op: Op) returns (r: Result<nat>)
    requires Sound(n) && (op.DataTree? || op.SubnodeTree?)
    modifies n, n.store
    ensures Sound(n) && Undisturbed(old(n.W()), n.W(), {}) && Effect(old(n.W()), n.W(), op, r)
  {
    hide Shapely, Holds, NewTrees, NewShapes, Stores, Undisturbed, StripDistinct, SubShape, Entries, Listable, Kept,
         LeafCount,
         XBlocksFor, SLBlocksFor;
    ghost var w := n.W();
    var root;
    match op {
      case DataTree(input, expected) => root := PutDataTree(n, input, expected);
      case SubnodeTree(entries) => root := PutSubnodeTree(n, entries);
    }
    hide Grew;
    if root.Ok? {
      More(w, n.W());
    } else {
      Same(w, n.W());
    }
    r := if root.Ok? then Ok(root.value.bid) else Err(root.error);
    GrewKeeps(w, n.W());
  }

  lemma GrewKeeps(w: World, w': World)
    ensures Grew(w, w') ==> w'.c.nodes == w.c.nodes && Kept(w.c.blocks, w.spool, w'.c.blocks, w'.spool)
  {
    hide Kept, StripDistinct;
  }

  method DoNode(n: NDB, op: Op) returns (r: Result<nat>)
    requires Sound(n) && (op.Put? || op.Delete?)
    modifies n, n.store
    ensures Sound(n) && Undisturbed(old(n.W()), n.W(), TouchedBy(op)) && Effect(old(n.W()), n.W(), op, r)
  {
    hide Shapely, Holds, NodesChanged, Undisturbed, StripDistinct, Survivors, HungFrom, SameExtents, SamePayloads,
         Edges;
    ghost var w := n.W();
    var done;
    match op {
      case Put(e) => done := n.PutNode(e);
      case Delete(nid) => done := n.DeleteNode(nid);
    }
    r := if done.Ok? then Ok(0) else Err(done.error);
    if r.Ok? {
      ChangedParts(w, n.W());
      NodesFewer(w, n.W(), PageSet(n.livePages), TouchedBy(op));
    } else {
      Same(w, n.W());
      Wider(w, n.W(), TouchedBy(op));
    }
  }

  lemma ChangedParts(w: World, w': World)
    ensures NodesChanged(w, w') || Shrunk(w, w') || Reclaimed(w, w') ==>
      SameExtents(w.c.blocks, w'.c.blocks) && SamePayloads(w'.c.blocks, w.spool, w'.spool)
    ensures Shrunk(w, w') || Reclaimed(w, w') ==> w'.c.nodes == w.c.nodes
  {
    hide SameExtents, SamePayloads, Orphans;
  }

  method DoReclaim(n: NDB, commit: bool) returns (r: Result<nat>)
    requires Sound(n)
    modifies n, n.store
    ensures Sound(n) && Undisturbed(old(n.W()), n.W(), {})
    ensures Effect(old(n.W()), n.W(), if commit then Commit else Reclaim, r)
  {
    hide Shapely, Holds, Shrunk, Reclaimed, Undisturbed, StripDistinct, Survivors, SameExtents, SamePayloads, Edges;
    ghost var w := n.W();
    if commit {
      var trees;
      ghost var ns, bs, start;
      trees, ns, bs, start := Encode(n);
      ReclaimedFewer(w, n.W(), PageSet(n.livePages));
      r := if trees.Ok? then Ok(0) else Err(trees.error);
    } else {
      var done := n.ReclaimOrphans();
      ShrunkFewer(w, n.W(), PageSet(n.livePages));
      r := Ok(0);
    }
    ChangedParts(w, n.W());
  }

  const NONE: set<nat> := {}

  /** Commit, then go on with the reopened database when it is accepted. */
  method DoReopen(n: NDB) returns (m: NDB, r: Result<nat>)
    requires Sound(n)
    modifies n, n.store
    ensures Sound(m) && if r.Ok? then fresh(m) && fresh(m.store) else m == n
    ensures Undisturbed(old(n.W()), m.W(), {}) && Effect(old(n.W()), m.W(), Reopen, r)
  {
    hide Shapely, Holds, Reclaimed, Undisturbed, StripDistinct, Survivors, SameExtents, SamePayloads, Edges;
    ghost var w := n.W();
    m := n;
    var encoded, again;
    ghost var start;
    encoded, again, start := CommitAndReopen(n);
    ReclaimedFewer(w, n.W(), PageSet(n.livePages));
    ChangedParts(w, n.W());
    r := Err(InvariantBroken);
    if encoded && again.Ok? {
      r := Ok(0);
      m := again.value;
      Same(n.W(), m.W());
      UndisturbedTwice(w, n.W(), m.W(), {}, {});
      assert NONE + NONE == NONE;
    }
  }

  /** One call: it does what it says, and nodes it does not name keep everything they hold. */
  method Do(n: NDB, op: Op) returns (m: NDB, r: Result<nat>)
    requires Sound(n)
    modifies n, n.store
    ensures Sound(m) && (m == n || (fresh(m) && fresh(m.store)))
    ensures Undisturbed(old(n.W()), m.W(), TouchedBy(op)) && Effect(old(n.W()), m.W(), op, r)
  {
    hide Sound, Undisturbed, StripDistinct, Effect;
    m := n;
    match op {
      case DataTree(_, _) => r := DoTree(n, op);
      case SubnodeTree(_) => r := DoTree(n, op);
      case Put(_) => r := DoNode(n, op);
      case Delete(_) => r := DoNode(n, op);
      case Reclaim => r := DoReclaim(n, false);
      case Commit => r := DoReclaim(n, true);
      case Reopen => m, r := DoReopen(n);
    }
  }

  /** A run, state by state: every call did what it says. */
  ghost predicate Traced(trace: seq<World>, ops: seq<Op>, rs: seq<Result<nat>>, w: World, w': World) {
    && |trace| == |ops| + 1 && |rs| == |ops| && trace[0] == w && trace[|ops|] == w'
    && forall i | 0 <= i < |ops| :: Effect(trace[i], trace[i + 1], ops[i], rs[i])
  }

  lemma TracedStart(w: World)
    ensures Traced([w], [], [], w, w)
  {
  }

  lemma TracedMore(trace: seq<World>, ops: seq<Op>, rs: seq<Result<nat>>, w: World, w': World, op: Op, r: Result<nat>,
                   w'': World)
    requires Traced(trace, ops, rs, w, w') && Effect(w', w'', op, r)
    ensures Traced(trace + [w''], ops + [op], rs + [r], w, w'')
  {
    hide Effect;
    var more := trace + [w''];
    forall i | 0 <= i < |ops| + 1
      ensures Effect(more[i], more[i + 1], (ops + [op])[i], (rs + [r])[i])
    {
      if i < |ops| {
        assert more[i] == trace[i] && more[i + 1] == trace[i + 1];
      }
    }
  }

  /** Every run: it keeps ownership, the partition of the file and the payload trees, and what every other node
      holds. */
  method RunFrom(n0: NDB, ops: seq<Op>) returns (n: NDB, rs: seq<Result<nat>>, ghost trace: seq<World>)
    requires Sound(n0)
    modifies n0, n0.store
    ensures Sound(n) && (n == n0 || (fresh(n) && fresh(n.store)))
    ensures Undisturbed(old(n0.W()), n.W(), Touched(ops)) && Traced(trace, ops, rs, old(n0.W()), n.W())
  {
    hide Sound, Undisturbed, Touched, TouchedBy, Traced, Effect;
    n, rs, trace := n0, [], [n0.W()];
    TracedStart(n.W());
    assert ops[..0] == [];
    SameUndisturbed(n.W(), n.W());
    NothingTouched(ops);
    for i := 0 to |ops|
      invariant Sound(n) && (n == n0 || (fresh(n) && fresh(n.store)))
      invariant Undisturbed(old(n0.W()), n.W(), Touched(ops[..i]))
      invariant Traced(trace, ops[..i], rs, old(n0.W()), n.W())
    {
      ghost var w := n.W();
      var r;
      n, r := Do(n, ops[i]);
      TracedMore(trace, ops[..i], rs, old(n0.W()), w, ops[i], r, n.W());
      assert ops[..i + 1] == ops[..i] + [ops[i]];
      rs, trace := rs + [r], trace + [n.W()];
      UndisturbedTwice(old(n0.W()), w, n.W(), Touched(ops[..i]), TouchedBy(ops[i]));
      TouchedNext(ops, i);
    }
    assert ops[..|ops|] == ops;
  }

  lemma NothingShapely(w: World)
    requires w.c.blocks == map[]
    ensures Shapely(w)
  {
  }

  /** Every run, from an empty database on. */
  method Run(ops: seq<Op>) returns (n: NDB, rs: seq<Result<nat>>, ghost trace: seq<World>)
    ensures fresh(n) && fresh(n.store) && Sound(n)
    ensures trace != [] && trace[0].c.nodes == map[] && trace[0].c.blocks == map[] &&
      Traced(trace, ops, rs, trace[0], n.W())
  {
    var empty := new NDB();
    NothingShapely(empty.W());
    hide Shapely, Traced;
    n, rs, trace := RunFrom(empty, ops);
  }

  /** Why a commit may fail: a stored count is zero, or page identifiers have come to the offsets of pages. */
  ghost predicate Unencodable(n: NDB)
    reads n, n.store
  {
    (exists b | b in n.blocks :: n.blocks[b].refs == 0) || n.store.bidNextP + CatalogPages(n.C()) >= FIRST_AMAP
  }

  lemma WhyNot(n: NDB, start: World, first: nat)
    requires (exists b | b in n.blocks :: n.blocks[b].refs == 0) || Clash(start.rs, first, CatalogPages(n.C()))
    requires 0 < first <= n.store.bidNextP
    ensures Unencodable(n)
  {
    hide Clash, CatalogPages;
    if first + CatalogPages(n.C()) < FIRST_AMAP {
      LowIdentifiers(start.rs, first, CatalogPages(n.C()));
    }
  }

  /** After any run a commit reopens, unless a stored count was truncated below what is found again or some subnode tree
      shares a block; and then with the same nodes, blocks, bitmaps, counters and payloads. */
  method RunThenReopen(ops: seq<Op>) returns (n: NDB, encoded: bool, r: Result<NDB>)
    ensures Sound(n)
    ensures !encoded ==> Unencodable(n)
    ensures encoded ==> (r.Ok? <==> CountsCover(n.C()) && NoSharedVisits(n.blocks, n.store.spool))
    ensures encoded && r.Ok? ==> r.value.Valid() && r.value.W() == n.W().(c := n.C().(oref := r.value.opaqueRefs))
  {
    hide Shapely, CountsCover, NoSharedVisits, Reclaimed, Survivors;
    var rs;
    ghost var trace, start;
    n, rs, trace := Run(ops);
    ghost var first := n.store.bidNextP;
    encoded, r, start := CommitAndReopen(n);
    if !encoded {
      WhyNot(n, start, first);
    }
  }
}
