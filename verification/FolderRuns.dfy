/** A run of the folder tree after which two folders share their tables (folders.go, minpst.go). */
module FolderRuns {
  import opened Common
  import opened FolderModel

  const NAME := "x"

  /** The four folders of a blank store; the search folder has no rows. */
  ghost predicate Blank(s: St) {
    && s.nodes.Keys == {ROOT, IPM, WASTE, FINDER} && s.msgs == map[] && s.nodes[ROOT].parent == 0
    && s.nodes[IPM].parent == ROOT && s.nodes[WASTE].parent == ROOT && s.nodes[FINDER].parent == ROOT
    && !s.nodes[FINDER].pc.subfolders
  }

  /** With one more folder below the display folder. */
  ghost predicate BlankAnd(s: St, x: nat) {
    && x !in {ROOT, IPM, WASTE, FINDER, 0}
    && s.nodes.Keys == {ROOT, IPM, WASTE, FINDER, x} && s.msgs == map[] && s.nodes[ROOT].parent == 0
    && s.nodes[IPM].parent == ROOT && s.nodes[WASTE].parent == ROOT && s.nodes[FINDER].parent == ROOT
    && !s.nodes[FINDER].pc.subfolders && s.nodes[x].parent == IPM && Fai(s, x) == {}
  }

  ghost predicate BlankTree(t: FolderTree)
    reads t
  {
    && t.Valid() && Blank(t.st) && 0x402 <= t.nextFolder <= 0x4000
    && t.ipm == IPM && t.waste == WASTE && t.finder == FINDER && t.maxDepth >= 4 && t.maxFolders >= 6
  }

  lemma IndexFree(s: St, index: nat)
    requires Blank(s) && 0x402 <= index <= 0x4000
    ensures FreeIndex(s, index) <==> index < 0x4000
  {
    MinimumIndices();
    hide Idx;
    assert FINDER in s.nodes;
  }

  lemma BlankDepth(s: St, rank: map<nat, nat>)
    requires Blank(s) && Ranked(s.nodes, rank)
    ensures IPM in s.nodes && Depth(s.nodes, rank, IPM) == 2 && |s.nodes| == 4
    ensures forall c :: !IsKid(s, IPM, c)
  {
    assert s.nodes[ROOT].parent == 0;
    assert Depth(s.nodes, rank, ROOT) == 1;
    assert |s.nodes| == |s.nodes.Keys| == 4;
    hide Ranked;
  }

  lemma BlankTypes()
    ensures TypeOf(IPM) == NORMAL_FOLDER != SEARCH_FOLDER && IPM != FINDER
  {
    MinimumIndices();
  }

  lemma MayCreateHere(t: FolderTree)
    requires BlankTree(t)
    ensures t.Weak() && t.MayCreate(IPM, Some(NAME))
  {
    hide Idx, TypeOf, Coherent, Numbered, Standing, RowClash, Ranked, Blank, Depth;
    t.ValidWeak();
    BlankDepth(t.st, t.rank);
    BlankTypes();
    CoherentClash(t.st, t.fold, IPM, NAME, 0);
    hide IsKid;
  }

  lemma Made(s: St, w: St, x: nat, index: nat, now: nat)
    requires Blank(s) && Placed(s, w, IPM, x, index, NAME, now) && Sprouted(s, w, IPM, x, NAME, now) && index < 0x4000
    ensures BlankAnd(w, x) && TypeOf(x) == NORMAL_FOLDER
  {
    hide TypeOf;
    assert x > 0;
    NewFai(s, x, now);
    hide Created, Writable, Fai;
  }

  lemma NewFai(s: St, x: nat, now: nat)
    requires Writable(s, IPM) && Idx(IPM) in s.hier && IPM != x && s.nodes[IPM].parent != x
    ensures Fai(Created(s, IPM, x, NAME, now), x) == {}
  {
    hide Idx, TypeOf, Hier;
  }

  lemma OnlyBelow(s: St, rank: map<nat, nat>, x: nat)
    requires BlankAnd(s, x) && Ranked(s.nodes, rank)
    ensures forall f | f in s.nodes :: Below(s.nodes, rank, x, f) <==> f == x
  {
    hide Ranked, Fai;
    assert !Below(s.nodes, rank, x, ROOT) && !Below(s.nodes, rank, x, IPM);
    assert !Below(s.nodes, rank, x, WASTE) && !Below(s.nodes, rank, x, FINDER);
  }

  lemma DeletableHere(t: FolderTree, x: nat)
    requires BlankAnd(t.st, x) && TypeOf(x) == NORMAL_FOLDER && Ranked(t.st.nodes, t.rank)
    requires t.ipm == IPM && t.waste == WASTE && t.finder == FINDER
    ensures t.Deletable(t.st, x)
  {
    hide Fai, TypeOf, Ranked;
    OnlyBelow(t.st, t.rank, x);
  }

  lemma Unmade(s: St, w: St, rank: map<nat, nat>, x: nat, now: nat)
    requires BlankAnd(s, x) && Deleted(s, w, rank, x, now)
    ensures Blank(w)
  {
    hide Fai;
    OnlyBelow(s, rank, x);
    hide Below, Ranked;
    forall f
      ensures f in w.nodes <==> f in {ROOT, IPM, WASTE, FINDER}
    {
    }
  }

  /** One folder is made and deleted again; only the counter remembers it. */
  method MakeAndDelete(t: FolderTree) returns (r: Result<()>)
    requires BlankTree(t) && t.nextFolder < 0x4000
    modifies t
    ensures r.Err? ==> r.error == Io && t.faulty
    ensures r.Ok? ==> BlankTree(t) && t.nextFolder == old(t.nextFolder) + 1
  {
    hide Coherent, Ranked, Numbered, Idx, TypeOf, FreeIndex, Sprouted, Placed, Deleted, Distinct, Blank, BlankAnd;
    ghost var s0, index := t.st, t.nextFolder;
    MayCreateHere(t);
    IndexFree(t.st, t.nextFolder);
    var made := t.Create(IPM, Some(NAME));
    if made.Err? {
      return Err(made.error);
    }
    ghost var s1 := t.st;
    ghost var rank := t.rank;
    Made(s0, s1, made.value, index, t.now);
    DeletableHere(t, made.value);
    r := t.Delete(made.value);
    if r.Ok? {
      Unmade(s1, t.st, rank, made.value, t.now);
    }
  }

  lemma BlankStart(s: St, display: string, now: nat)
    requires s == Minimum(display, now)
    ensures Blank(s)
  {
    MinimumTables(s, display, now);
    hide Minimum, Hier, Contents, Idx;
  }

  /** `kid` is in the search folder's table, but not its child, and the search folder says it has none. */
  ghost predicate Lies(s: St, kid: nat) {
    kid in Hier(s, FINDER) && FINDER in s.nodes && !s.nodes[FINDER].pc.subfolders && !IsKid(s, FINDER, kid)
  }

  /** A new folder at the search folder's index finds an empty table there. */
  lemma SharedEmpty(s: St, w: St, nid: nat, now: nat)
    requires Blank(s) && Placed(s, w, IPM, nid, 0x4000, NAME, now)
    ensures Hier(w, nid) == map[] && Idx(nid) == Idx(FINDER) && nid != FINDER && TypeOf(nid) == NORMAL_FOLDER
  {
    MinimumIndices();
    assert Idx(nid) == 0x4000;
    hide TypeOf, Idx;
  }

  lemma InsideDepth(s: St, n: Nodes, rank: map<nat, nat>, nid: nat)
    requires Blank(s) && Joined(s.nodes, n, IPM, nid, NAME) && Ranked(n, rank) && 0 !in n
    ensures nid in n && Depth(n, rank, nid) == 3 && |n| == 5
  {
    assert n[ROOT].parent == 0 && n[IPM].parent == ROOT && n[nid].parent == IPM;
    assert n.Keys == {ROOT, IPM, WASTE, FINDER, nid} && |n| == |n.Keys| == 5;
    hide Joined, Blank, Ranked;
    assert Depth(n, rank, ROOT) == 1;
    assert Depth(n, rank, IPM) == 2;
  }

  lemma MayCreateInside(t: FolderTree, s: St, nid: nat)
    requires t.Weak() && Blank(s) && Placed(s, t.st, IPM, nid, 0x4000, NAME, t.now)
    requires Joined(s.nodes, t.st.nodes, IPM, nid, NAME)
    requires t.finder == FINDER && t.maxDepth >= 4 && t.maxFolders >= 6
    ensures t.MayCreate(nid, Some(NAME))
  {
    hide Idx, TypeOf, Placed, Numbered, Standing, Hier, Blank, Joined, Ranked, Depth;
    SharedEmpty(s, t.st, nid, t.now);
    NoZeroFolder(t.st);
    InsideDepth(s, t.st.nodes, t.rank, nid);
  }

  lemma NoZeroFolder(s: St)
    requires Standing(s)
    ensures 0 !in s.nodes
  {
    hide Idx, TypeOf;
  }

  lemma LiesHere(s: St, a: St, b: St, nid: nat, kid: nat, now: nat)
    requires Shape(s) && Blank(s) && Placed(s, a, IPM, nid, 0x4000, NAME, now)
    requires Placed(a, b, nid, kid, 0x4001, NAME, now)
    ensures Lies(b, kid)
  {
    MinimumIndices();
    assert Idx(nid) == 0x4000 && Idx(kid) == 0x4001 && nid == 524290 && kid == 524322;
    hide TypeOf, Shape;
    SharedTablesLie(s, a, b, FINDER, IPM, nid, kid, NAME, NAME, now);
  }

  /** At the search folder's index: one folder below the display folder, and one inside that. */
  method CollideTwice(t: FolderTree) returns (r: Result<(nat, nat)>)
    requires BlankTree(t) && t.nextFolder == 0x4000
    modifies t
    ensures r.Err? ==> r.error == Io && t.faulty
    ensures r.Ok? ==> !Shape(t.st) && Idx(r.value.0) == Idx(FINDER) && r.value.0 != FINDER
    ensures r.Ok? ==> r.value.1 in t.st.nodes && t.st.nodes[r.value.1].parent == r.value.0 && Lies(t.st, r.value.1)
  {
    hide Coherent, Shape, Ranked, Numbered, Idx, TypeOf, FreeIndex, Placed, Blank, Lies, MakeNid, Standing, Joined,
         Sprouted,
         Distinct, Depth, RowClash, Clash;
    ghost var s := t.st;
    CoherentShape(s);
    MayCreateHere(t);
    var shared := t.Create(IPM, Some(NAME));
    if shared.Err? {
      return Err(shared.error);
    }
    ghost var a := t.st;
    SharedEmpty(s, a, shared.value, t.now);
    MayCreateInside(t, s, shared.value);
    var kid := t.Create(shared.value, Some(NAME));
    if kid.Err? {
      return Err(kid.error);
    }
    LiesHere(s, a, t.st, shared.value, kid.value, t.now);
    StillShared(s, a, t.st, shared.value, kid.value);
    return Ok((shared.value, kid.value));
  }

  lemma CoherentShape(s: St)
    requires Coherent(s)
    ensures Shape(s)
  {
    hide Shape;
  }

  /** From a blank store on, folders are made and deleted until the counter reaches the search folder's index. The
      next folder is accepted and the store is no longer well formed; one more, made inside it, stands in the search
      folder's table. Only an I/O error ends the run early, and only on a file that has them. */
  method CollidingRun(display: string, now: nat, fold: string -> string, maxDepth: nat, maxFolders: nat,
                      faulty: bool)
    returns (t: FolderTree, r: Result<(nat, nat)>)
    requires maxDepth >= 4 && maxFolders >= 6
    ensures r.Err? ==> r.error == Io && faulty
    ensures r.Ok? ==> !Shape(t.st) && Idx(r.value.0) == Idx(FINDER) && r.value.0 != FINDER
    ensures r.Ok? ==> r.value.1 in t.st.nodes && t.st.nodes[r.value.1].parent == r.value.0 && Lies(t.st, r.value.1)
  {
    t := new FolderTree(display, now, fold, maxDepth, maxFolders, faulty);
    BlankStart(t.st, display, now);
    hide Coherent, Ranked, Numbered, Idx, TypeOf, FreeIndex, Placed, Blank, Lies, MakeNid, Standing, Joined;
    while t.nextFolder < 0x4000
      invariant BlankTree(t) && fresh(t) && t.faulty == faulty
      decreases 0x4000 - t.nextFolder
    {
      var step := MakeAndDelete(t);
      if step.Err? {
        return t, Err(step.error);
      }
    }
    r := CollideTwice(t);
  }

  lemma StillShared(s: St, a: St, b: St, nid: nat, kid: nat)
    requires Blank(s) && Joined(s.nodes, a.nodes, IPM, nid, NAME) && Joined(a.nodes, b.nodes, nid, kid, NAME)
    requires Idx(nid) == Idx(FINDER) && nid != FINDER
    ensures !Shape(b) && kid in b.nodes && b.nodes[kid].parent == nid
  {
    hide Idx, TypeOf;
    assert FINDER in s.nodes && FINDER in a.nodes && FINDER in b.nodes && nid in b.nodes;
  }
}
