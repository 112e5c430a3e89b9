/** An export plan made real: every planned folder becomes a folder of the tree (folders.go). */
module PlanFolders {
  import opened Common
  import opened ExportPlan
  import F = FolderModel

  datatype PlanError = CreateFailed(error: Error) | MissingParent

  datatype Outcome = Made(nids: map<nat, nat>) | Failed(error: PlanError)

  /** A planned folder that is not there from the start. */
  predicate Ordinary(r: nat) {
    r != ROOT && r != IPM
  }

  /** Every folder made so far has its own node, with the name validation gives the planned one, below the node of its
      parent. */
  ghost predicate Realized(fs: Forest, valid: string -> Option<string>, nids: map<nat, nat>, n: F.Nodes) {
    && ROOT in nids && IPM in nids && (forall r | r in nids :: r in fs && nids[r] in n)
    && (forall r, r' | r in nids && r' in nids && r != r' :: nids[r] != nids[r'])
    && forall r | r in nids && Ordinary(r) ::
         && fs[r].parent in nids && n[nids[r]].parent == nids[fs[r].parent]
         && valid(fs[r].name) == Some(n[nids[r]].pc.name)
  }

  /** Those folders are new, and all others are the old ones, with name and parent. */
  ghost predicate Grown(n0: F.Nodes, n: F.Nodes, nids: map<nat, nat>) {
    && (forall f | f in n0 :: f in n && n[f].parent == n0[f].parent && n[f].pc.name == n0[f].pc.name)
    && (forall r | r in nids && Ordinary(r) :: nids[r] in n && nids[r] !in n0)
    && forall f | f in n && f !in n0 :: exists r | r in nids :: Ordinary(r) && nids[r] == f
  }

  lemma RealizedMore(fs: Forest, valid: string -> Option<string>, nids: map<nat, nat>, n: F.Nodes, n': F.Nodes, r: nat,
                     nid: nat, name: string)
    requires Realized(fs, valid, nids, n) && r in fs && r !in nids && Ordinary(r)
    requires fs[r].parent in nids && F.Joined(n, n', nids[fs[r].parent], nid, name) && valid(fs[r].name) == Some(name)
    ensures Realized(fs, valid, nids[r := nid], n')
  {
    var more := nids[r := nid];
    forall x | x in more
      ensures x in fs && more[x] in n'
      ensures Ordinary(x) ==>
        fs[x].parent in more && n'[more[x]].parent == more[fs[x].parent] &&
          valid(fs[x].name) == Some(n'[more[x]].pc.name)
      ensures forall y | y in more && y != x :: more[x] != more[y]
    {
      assert x != r ==> x in nids && more[x] == nids[x] && nids[x] in n;
      assert Ordinary(x) ==> (if x == r then fs[r].parent in nids else fs[x].parent in nids);
      assert forall y | y in more && y != r :: y in nids && nids[y] in n;
    }
  }

  lemma GrownMore(nids: map<nat, nat>, n0: F.Nodes, n: F.Nodes, n': F.Nodes, p: nat, r: nat, nid: nat, name: string)
    requires Grown(n0, n, nids) && r !in nids && Ordinary(r) && F.Joined(n, n', p, nid, name)
    ensures Grown(n0, n', nids[r := nid])
  {
    var more := nids[r := nid];
    forall x | x in more && Ordinary(x)
      ensures more[x] in n' && more[x] !in n0
    {
      assert x != r ==> x in nids && more[x] == nids[x];
    }
    forall f | f in n' && f !in n0
      ensures exists x | x in more :: Ordinary(x) && more[x] == f
    {
      if f == nid {
        assert more[r] == f;
      } else {
        var x :| x in nids && Ordinary(x) && nids[x] == f;
        assert more[x] == f;
      }
    }
  }

  lemma RealizedStart(fs: Forest, valid: string -> Option<string>, n: F.Nodes, ipm: nat)
    requires ROOT in fs && IPM in fs && F.ROOT in n && ipm in n && ipm != F.ROOT
    ensures Realized(fs, valid, map[ROOT := F.ROOT, IPM := ipm], n) && Grown(n, n, map[ROOT := F.ROOT, IPM := ipm])
  {
  }

  // ---------- when every folder can be made ----------

  /** The plan's part: names that validation accepts, distinct among siblings whatever the case, and depths within the
      limit. */
  ghost predicate Sensible(fs: Forest, valid: string -> Option<string>, fold: string -> string, maxDepth: nat) {
    && (forall r | r in fs && Ordinary(r) :: valid(fs[r].name).Some? && fs[r].depth + 1 <= maxDepth)
    && forall a, b | a in fs && b in fs && Ordinary(a) && Ordinary(b) && a != b && fs[a].parent == fs[b].parent
         && valid(fs[a].name).Some? && valid(fs[b].name).Some? ::
         fold(valid(fs[a].name).value) != fold(valid(fs[b].name).value)
  }

  /** The tree's part: the two folders the plan hangs from, no folder of a planned name below them, room for `count`
      more, and no search folder at one of the next `count` indices. */
  ghost predicate Ready(t: F.FolderTree, fs: Forest, valid: string -> Option<string>, count: nat)
    reads t
  {
    && t.Valid() && t.ipm in t.st.nodes && t.st.nodes[t.ipm].parent == F.ROOT && t.finder in t.st.nodes
    && F.TypeOf(t.ipm) == F.NORMAL_FOLDER && t.ipm != t.finder && t.finder != F.ROOT
    && |t.st.nodes| + count <= t.maxFolders
    && (forall f | f in t.st.nodes && F.TypeOf(f) == F.SEARCH_FOLDER ::
          F.Idx(f) < t.nextFolder || F.Idx(f) >= t.nextFolder + count)
    && NoneThere(t.st.nodes, t.ipm, fs, valid, t.fold)
  }

  ghost predicate NoneThere(n: F.Nodes, ipm: nat, fs: Forest, valid: string -> Option<string>, fold: string -> string) {
    forall r, c | r in fs && Ordinary(r) && (fs[r].parent == ROOT || fs[r].parent == IPM) && c in n
      && n[c].parent == (if fs[r].parent == ROOT then F.ROOT else ipm) && valid(fs[r].name).Some? ::
      fold(n[c].pc.name) != fold(valid(fs[r].name).value)
  }

  /** On the way: what is made so far can hold children at the planned depth, and there is room for `count` more. */
  ghost predicate Going(t: F.FolderTree, fs: Forest, valid: string -> Option<string>, nids: map<nat, nat>, n0: F.Nodes,
                        count: nat)
    reads t
  {
    && t.Valid() && t.finder in n0 && |t.st.nodes| + count <= t.maxFolders
    && (forall f | f in t.st.nodes && F.TypeOf(f) == F.SEARCH_FOLDER ::
          F.Idx(f) < t.nextFolder || F.Idx(f) >= t.nextFolder + count)
    && (forall r | r in nids ::
        r in fs && t.HoldsChildren(nids[r]) && F.Depth(t.st.nodes, t.rank, nids[r]) == fs[r].depth + 1)
    && NoneThere(n0, t.ipm, fs, valid, t.fold) && Sensible(fs, valid, t.fold, t.maxDepth)
    && (forall f | f in n0 :: n0[f].parent in n0 || n0[f].parent == 0)
  }

  lemma GoingStart(t: F.FolderTree, fs: Forest, valid: string -> Option<string>, count: nat)
    requires Rooted(fs) && Ready(t, fs, valid, count) && Sensible(fs, valid, t.fold, t.maxDepth)
    ensures Going(t, fs, valid, map[ROOT := F.ROOT, IPM := t.ipm], t.st.nodes, count)
  {
    hide F.Idx, F.TypeOf, F.Coherent, F.Standing, F.Numbered, F.Ranked, F.Depth, NoneThere, Sensible;
    t.ValidWeak();
    F.RootStands(t.st);
    RootType();
    ParentsThere(t.st);
    StartDepths(t.st, t.rank, t.ipm);
  }

  lemma ParentsThere(s: F.St)
    requires F.Standing(s)
    ensures forall f | f in s.nodes :: s.nodes[f].parent in s.nodes || s.nodes[f].parent == 0
    ensures forall f | f in s.nodes && f != F.ROOT :: s.nodes[f].parent in s.nodes
  {
    hide F.Idx, F.TypeOf;
  }

  lemma StartDepths(s: F.St, rank: map<nat, nat>, ipm: nat)
    requires F.Ranked(s.nodes, rank) && F.ROOT in s.nodes && s.nodes[F.ROOT].parent == 0 && 0 !in s.nodes
    requires ipm in s.nodes && s.nodes[ipm].parent == F.ROOT && ipm != F.ROOT
    ensures F.Depth(s.nodes, rank, F.ROOT) == 1 && F.Depth(s.nodes, rank, ipm) == 2
  {
    hide F.Ranked;
  }

  lemma RootType()
    ensures F.TypeOf(F.ROOT) == F.NORMAL_FOLDER
  {
  }

  /** No folder below the parent has the name yet. */
  lemma NoClash(fs: Forest, valid: string -> Option<string>, fold: string -> string, nids: map<nat, nat>, n0: F.Nodes,
                s: F.St,
                ipm: nat, maxDepth: nat, r: nat)
    requires Rooted(fs) && Realized(fs, valid, nids, s.nodes) && Grown(n0, s.nodes, nids) && 0 !in s.nodes
    requires NoneThere(n0, ipm, fs, valid, fold) && Sensible(fs, valid, fold, maxDepth)
    requires nids[ROOT] == F.ROOT && nids[IPM] == ipm && forall f | f in n0 :: n0[f].parent in n0 || n0[f].parent == 0
    requires r in fs && r !in nids && Ordinary(r) && fs[r].parent in nids && valid(fs[r].name).Some?
    ensures !F.Clash(s, fold, nids[fs[r].parent], valid(fs[r].name).value, 0)
  {
    var p := fs[r].parent;
    forall c | F.IsKid(s, nids[p], c)
      ensures fold(s.nodes[c].pc.name) != fold(valid(fs[r].name).value)
    {
      if c in n0 {
        assert n0[c].parent == nids[p] && s.nodes[c].pc.name == n0[c].pc.name;
        assert !Ordinary(p);
      } else {
        var x :| x in nids && Ordinary(x) && nids[x] == c;
        assert nids[fs[x].parent] == nids[p];
        assert fs[x].parent == p;
      }
    }
  }

  lemma MayMake(t: F.FolderTree, fs: Forest, valid: string -> Option<string>, nids: map<nat, nat>, n0: F.Nodes,
                count: nat, r: nat)
    requires Rooted(fs) && Going(t, fs, valid, nids, n0, count) && count > 0
    requires Realized(fs, valid, nids, t.st.nodes) && Grown(n0, t.st.nodes, nids) && nids[ROOT] == F.ROOT &&
      nids[IPM] == t.ipm
    requires r in fs && r !in nids && Ordinary(r) && fs[r].parent in nids
    ensures t.Weak() && t.MayCreate(nids[fs[r].parent], valid(fs[r].name)) && F.FreeIndex(t.st, t.nextFolder)
  {
    hide F.Idx, F.TypeOf, F.Coherent, F.Standing, F.Numbered, F.RowClash, F.Clash, F.Ranked, F.Depth;
    t.ValidWeak();
    F.RootStands(t.st);
    FreeHere(t, count);
    var p := nids[fs[r].parent];
    SensibleAt(fs, valid, t.fold, t.maxDepth, r);
    NoClash(fs, valid, t.fold, nids, n0, t.st, t.ipm, t.maxDepth, r);
    hide Realized, Grown, Sensible, NoneThere;
    F.CoherentClash(t.st, t.fold, p, valid(fs[r].name).value, 0);
  }

  lemma SensibleAt(fs: Forest, valid: string -> Option<string>, fold: string -> string, maxDepth: nat, r: nat)
    requires Rooted(fs) && Sensible(fs, valid, fold, maxDepth) && r in fs && Ordinary(r)
    ensures valid(fs[r].name).Some? && fs[fs[r].parent].depth + 2 <= maxDepth
  {
  }

  lemma FreeHere(t: F.FolderTree, count: nat)
    requires t.Weak() && count > 0
    requires forall f | f in t.st.nodes && F.TypeOf(f) == F.SEARCH_FOLDER ::
      F.Idx(f) < t.nextFolder || F.Idx(f) >= t.nextFolder + count
    ensures F.FreeIndex(t.st, t.nextFolder)
  {
    F.FreshNid(t.st, t.nextFolder, t.nextMsg);
    hide F.Idx, F.TypeOf, F.MakeNid, F.Standing, F.Numbered;
  }

  /** Depths do not change when a folder joins. */
  lemma {:induction false} DepthKept(n: F.Nodes, n': F.Nodes, rank: map<nat, nat>, rank': map<nat, nat>, p: nat,
                                     nid: nat,
                                     name: string, x: nat)
    requires F.Ranked(n, rank) && F.Ranked(n', rank') && F.Joined(n, n', p, nid, name) && x in n
    requires forall f | f in n && f != F.ROOT :: n[f].parent in n
    ensures x in n' && F.Depth(n', rank', x) == F.Depth(n, rank, x)
    decreases rank[x]
  {
    if x != F.ROOT {
      DepthKept(n, n', rank, rank', p, nid, name, n[x].parent);
    }
  }

  lemma StillDeep(n: F.Nodes, n': F.Nodes, rank: map<nat, nat>, rank': map<nat, nat>, p: nat, nid: nat, name: string)
    requires F.Ranked(n, rank) && F.Ranked(n', rank') && F.Joined(n, n', p, nid, name) && nid != F.ROOT
    requires forall f | f in n && f != F.ROOT :: n[f].parent in n
    ensures forall x | x in n :: x in n' && F.Depth(n', rank', x) == F.Depth(n, rank, x)
    ensures F.Depth(n', rank', nid) == F.Depth(n, rank, p) + 1
  {
    hide F.Ranked;
    forall x | x in n
      ensures x in n' && F.Depth(n', rank', x) == F.Depth(n, rank, x)
    {
      DepthKept(n, n', rank, rank', p, nid, name, x);
    }
    assert n'[nid].parent == p && p in n';
  }

  /** What a new folder leaves for the next ones. */
  lemma GoOn(s: F.St, w: F.St, fs: Forest, nids: map<nat, nat>, more: map<nat, nat>, rank: map<nat, nat>,
             rank': map<nat, nat>,
             r: nat, nid: nat, name: string)
    requires Rooted(fs) && F.Standing(s) && F.Ranked(s.nodes, rank) && F.Ranked(w.nodes, rank')
    requires r in fs && r !in nids && Ordinary(r) && fs[r].parent in nids && more == nids[r := nid]
    requires F.Joined(s.nodes, w.nodes, nids[fs[r].parent], nid, name)
    requires forall x | x in nids :: x in fs && nids[x] in s.nodes && F.Depth(s.nodes, rank, nids[x]) == fs[x].depth + 1
    ensures |w.nodes| == |s.nodes| + 1
    ensures forall x | x in more :: x in fs && more[x] in w.nodes && F.Depth(w.nodes, rank', more[x]) == fs[x].depth + 1
  {
    hide F.Standing, F.Ranked, F.Depth;
    F.RootStands(s);
    ParentsThere(s);
    StillDeep(s.nodes, w.nodes, rank, rank', nids[fs[r].parent], nid, name);
    PlanDepth(fs, r);
    assert |w.nodes.Keys| == |s.nodes.Keys| + 1;
    hide F.Joined, Rooted;
    forall x | x in more
      ensures x in fs && more[x] in w.nodes && F.Depth(w.nodes, rank', more[x]) == fs[x].depth + 1
    {
      if x != r {
        assert x in nids && more[x] == nids[x];
      }
    }
  }

  lemma PlanDepth(fs: Forest, r: nat)
    requires Rooted(fs) && r in fs && Ordinary(r)
    ensures fs[r].parent in fs && fs[r].depth == fs[fs[r].parent].depth + 1
  {
  }

  lemma SearchStay(s: F.St, w: F.St, p: nat, nid: nat, name: string, index: nat, count: nat)
    requires F.Joined(s.nodes, w.nodes, p, nid, name) && F.TypeOf(nid) != F.SEARCH_FOLDER && count > 0
    requires forall f | f in s.nodes && F.TypeOf(f) == F.SEARCH_FOLDER :: F.Idx(f) < index || F.Idx(f) >= index + count
    ensures forall f | f in w.nodes && F.TypeOf(f) == F.SEARCH_FOLDER ::
      F.Idx(f) < index + 1 || F.Idx(f) >= index + 1 + (count - 1)
  {
    hide F.Idx, F.TypeOf;
  }

  lemma NormalNew(s: F.St, w: F.St, p: nat, nid: nat, index: nat, name: string, now: nat)
    requires F.Placed(s, w, p, nid, index, name, now)
    ensures F.TypeOf(nid) == F.NORMAL_FOLDER != F.SEARCH_FOLDER && nid !in s.nodes
  {
    hide F.Created;
  }

  // ---------- making them ----------

  /** One planned folder, by FolderTree.Create. */
  method MakeOne(t: F.FolderTree, f: Folder, nids: map<nat, nat>, valid: string -> Option<string>, ghost fs: Forest,
                 ghost n0: F.Nodes, ghost count: nat)
    returns (r: Result<nat>)
    requires t.Weak() && Rooted(fs) && f.ref in fs && fs[f.ref] == f && f.ref !in nids && Ordinary(f.ref) &&
      f.parent in nids
    requires Realized(fs, valid, nids, t.st.nodes) && Grown(n0, t.st.nodes, nids)
    requires nids[ROOT] == F.ROOT && nids[IPM] == t.ipm && count > 0
    modifies t
    ensures t.Weak()
    ensures r.Err? ==> t.st == old(t.st)
    ensures r.Ok? ==>
      Realized(fs, valid, nids[f.ref := r.value], t.st.nodes) && Grown(n0, t.st.nodes, nids[f.ref := r.value])
    ensures old(Going(t, fs, valid, nids, n0, count)) ==>
      if r.Ok? then Going(t, fs, valid, nids[f.ref := r.value], n0, count - 1) else r.error == Io && t.faulty
  {
    hide F.Idx, F.TypeOf, F.Coherent, F.Standing, F.Numbered, F.RowClash, F.Clash, F.Ranked, F.Depth, F.Placed,
         F.Joined,
         F.Sprouted, F.FreeIndex, F.Shape, F.Distinct, Realized, Grown, Rooted, NoneThere, Sensible, F.MakeNid;
    ghost var s, rank, index := t.st, t.rank, t.nextFolder;
    ghost var going := Going(t, fs, valid, nids, n0, count);
    if going {
      MayMake(t, fs, valid, nids, n0, count, f.ref);
    }
    r := t.Create(nids[f.parent], valid(f.name));
    if r.Ok? {
      ghost var name := valid(f.name).value;
      RealizedMore(fs, valid, nids, s.nodes, t.st.nodes, f.ref, r.value, name);
      GrownMore(nids, n0, s.nodes, t.st.nodes, nids[f.parent], f.ref, r.value, name);
      if going {
        FinderThere(n0, s.nodes, nids, t.finder);
        NormalNew(s, t.st, nids[f.parent], r.value, index, name, t.now);
        GoOn(s, t.st, fs, nids, nids[f.ref := r.value], rank, t.rank, f.ref, r.value, name);
        SearchStay(s, t.st, nids[f.parent], r.value, name, index, count);
      }
    }
  }

  lemma FinderThere(n0: F.Nodes, n: F.Nodes, nids: map<nat, nat>, f: nat)
    requires Grown(n0, n, nids) && f in n0
    ensures f in n
  {
  }

  /** One pass over the pending folders; nothing is made only if no parent was there. */
  method MakeRound(t: F.FolderTree, pending: seq<Folder>, given: map<nat, nat>, before: seq<nat>,
                   valid: string -> Option<string>, ghost fs: Forest, ghost n0: F.Nodes)
    returns (r: Result<(map<nat, nat>, seq<Folder>)>, order: seq<nat>, progress: nat)
    requires t.Weak() && Rooted(fs) && Split(fs, given.Keys, pending) && Once(pending)
    requires ParentsFirst(fs, before) && given.Keys == {ROOT, IPM} + set x | x in before
    requires Realized(fs, valid, given, t.st.nodes) && Grown(n0, t.st.nodes, given) && given[ROOT] == F.ROOT &&
      given[IPM] == t.ipm
    modifies t
    ensures t.Weak() && ParentsFirst(fs, order)
    ensures r.Ok? ==>
      var (nids, next) := r.value;
      && nids.Keys == {ROOT, IPM} + (set x | x in order) && Split(fs, nids.Keys, next) && Once(next)
      && |next| + progress == |pending| && nids[ROOT] == F.ROOT && nids[IPM] == t.ipm
      && Realized(fs, valid, nids, t.st.nodes) && Grown(n0, t.st.nodes, nids)
    ensures r.Ok? && progress == 0 ==> forall k | 0 <= k < |pending| :: pending[k].parent !in given
    ensures old(Going(t, fs, valid, given, n0, |pending|)) ==>
      if r.Ok? then Going(t, fs, valid, r.value.0, n0, |r.value.1|) else r.error == Io && t.faulty
  {
    hide ParentsFirst, Round, Once, Split, Rooted, Realized, Grown, Going, F.Standing, F.Ranked, F.Numbered;
    var nids, next: seq<Folder> := given, [];
    progress, order := 0, before;
    RoundStart(fs, nids.Keys, pending);
    ghost var going := Going(t, fs, valid, given, n0, |pending|);
    for i := 0 to |pending|
      invariant t.Weak() && ROOT in nids && IPM in nids && nids[ROOT] == F.ROOT && nids[IPM] == t.ipm
      invariant Realized(fs, valid, nids, t.st.nodes) && Grown(n0, t.st.nodes, nids)
      invariant Round(fs, nids.Keys, pending, i, next) && Once(next) && |next| + progress == i
      invariant given.Keys <= nids.Keys && (progress == 0 ==> forall k | 0 <= k < i :: pending[k].parent !in given)
      invariant ParentsFirst(fs, order) && nids.Keys == {ROOT, IPM} + set x | x in order
      invariant going ==> Going(t, fs, valid, nids, n0, |pending| - progress)
    {
      var f := pending[i];
      OnceMore(fs, nids.Keys, pending, i, next);
      if f.parent !in nids {
        RoundKeep(fs, nids.Keys, pending, i, next);
        next := next + [f];
        continue;
      }
      var made := MakeOne(t, f, nids, valid, fs, n0, |pending| - progress);
      if made.Err? {
        return Err(made.error), order, progress;
      }
      RoundMake(fs, nids.Keys, pending, i, next);
      OrderMore(fs, order, nids.Keys, f.ref);
      assert (nids[f.ref := made.value]).Keys == nids.Keys + {f.ref};
      nids := nids[f.ref := made.value];
      order := order + [f.ref];
      progress := progress + 1;
    }
    RoundEnd(fs, nids.Keys, pending, next);
    r := Ok((nids, next));
  }

  /** CreateFromPlan on a session's plan: every folder is made once, after its parent, with its name and below its
      parent's node; it never stalls. With a sensible plan and a tree that is ready for it, only an I/O error can stop
      it. */
  method CreateFromPlan(t: F.FolderTree, plan: seq<Folder>, valid: string -> Option<string>, ghost fs: Forest)
    returns (r: Outcome, order: seq<nat>)
    requires t.Weak() && Rooted(fs) && Mirrors(plan, fs) && t.ipm in t.st.nodes && t.ipm != F.ROOT
    modifies t
    ensures t.Weak() && r != Failed(MissingParent) && ParentsFirst(fs, order)
    ensures r.Made? ==> r.nids.Keys == fs.Keys && fs.Keys == {ROOT, IPM} + set x | x in order
    ensures r.Made? ==> r.nids[ROOT] == F.ROOT && r.nids[IPM] == t.ipm
    ensures r.Made? ==> Realized(fs, valid, r.nids, t.st.nodes) && Grown(old(t.st).nodes, t.st.nodes, r.nids)
    ensures old(Ready(t, fs, valid, |fs|)) && Sensible(fs, valid, t.fold, t.maxDepth) ==>
      if r.Made? then t.Valid() else r.error == CreateFailed(Io) && t.faulty
  {
    hide F.Standing, F.Ranked, F.Numbered, F.Coherent, F.Idx, F.TypeOf, Sensible, NoneThere, Realized, Grown, Going,
         Ready,
         Rooted, Mirrors, Once, Split, ParentsFirst;
    F.RootStands(t.st);
    Ends(fs);
    ghost var n0 := t.st.nodes;
    ghost var ready := Ready(t, fs, valid, |fs|) && Sensible(fs, valid, t.fold, t.maxDepth);
    var nids: map<nat, nat> := map[ROOT := F.ROOT, IPM := t.ipm];
    RealizedStart(fs, valid, n0, t.ipm);
    var pending := PendingOf(plan, fs);
    if ready {
      FewPending(fs, pending);
      ReadyLess(t, fs, valid, |fs|, |pending|);
      GoingStart(t, fs, valid, |pending|);
    }
    order := [];
    assert nids.Keys == {ROOT, IPM};
    while |pending| > 0
      invariant t.Weak() && nids.Keys == {ROOT, IPM} + (set x | x in order) && nids[ROOT] == F.ROOT &&
        nids[IPM] == t.ipm
      invariant Split(fs, nids.Keys, pending) && Once(pending) && ParentsFirst(fs, order)
      invariant Realized(fs, valid, nids, t.st.nodes) && Grown(n0, t.st.nodes, nids)
      invariant ready ==> Going(t, fs, valid, nids, n0, |pending|)
      decreases |pending|
    {
      NoStall(fs, nids.Keys, pending);
      var round, made, progress := MakeRound(t, pending, nids, order, valid, fs, n0);
      order := made;
      if round.Err? {
        return Failed(CreateFailed(round.error)), order;
      }
      nids := round.value.0;
      if progress == 0 {
        return Failed(MissingParent), order;
      }
      pending := round.value.1;
    }
    AllMade(fs, nids.Keys, pending);
    if ready {
      GoingValid(t, fs, valid, nids, n0, |pending|);
    }
    return Made(nids), order;
  }

  lemma Ends(fs: Forest)
    requires Rooted(fs)
    ensures ROOT in fs && IPM in fs && ParentsFirst(fs, [])
  {
  }

  lemma AllMade(fs: Forest, keys: set<nat>, pending: seq<Folder>)
    requires Split(fs, keys, pending) && pending == []
    ensures keys == fs.Keys
  {
  }

  lemma GoingValid(t: F.FolderTree, fs: Forest, valid: string -> Option<string>, nids: map<nat, nat>, n0: F.Nodes,
                   count: nat)
    requires Going(t, fs, valid, nids, n0, count)
    ensures t.Valid()
  {
  }

  lemma FewPending(fs: Forest, pending: seq<Folder>)
    requires Split(fs, {ROOT, IPM}, pending) && Once(pending)
    ensures |pending| <= |fs|
  {
    var refs := set i | 0 <= i < |pending| :: pending[i].ref;
    OnceSize(pending);
    assert refs <= fs.Keys;
    SubsetSize(refs, fs.Keys);
  }

  lemma {:induction false} OnceSize(pending: seq<Folder>)
    requires Once(pending)
    ensures |set i | 0 <= i < |pending| :: pending[i].ref| == |pending|
  {
    if pending != [] {
      var last := |pending| - 1;
      OnceSize(pending[..last]);
      assert (set i | 0 <= i < |pending| :: pending[i].ref)
          == (set i | 0 <= i < last :: pending[..last][i].ref) + {pending[last].ref};
    }
  }

  lemma ReadyLess(t: F.FolderTree, fs: Forest, valid: string -> Option<string>, count: nat, less: nat)
    requires Ready(t, fs, valid, count) && less <= count
    ensures Ready(t, fs, valid, less)
  {
    hide NoneThere, F.Idx, F.TypeOf, F.Coherent, F.Numbered, F.Ranked;
  }
}
