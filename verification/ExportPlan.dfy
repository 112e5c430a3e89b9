/** The exporter's folder plan: a forest with depths, distinct sibling names and a list that mirrors it
    (exporter.go). */
module ExportPlan {
  import opened Common

  const ROOT: nat := 1
  const IPM: nat := 2

  datatype Folder = Folder(ref: nat, nid: nat, parent: nat, name: string, depth: nat)

  type Forest = map<nat, Folder>

  /** Every folder but the root hangs one level below an existing one, so parents form a tree. */
  ghost predicate Rooted(fs: Forest) {
    && ROOT in fs && IPM in fs && fs[ROOT].parent == 0 && fs[ROOT].depth == 0 && fs[IPM].parent == ROOT
    && (forall r | r in fs :: fs[r].ref == r && r > 0)
    && forall r | r in fs && r != ROOT :: fs[r].parent in fs && fs[r].depth == fs[fs[r].parent].depth + 1
  }

  /** No two folders under one parent have names that differ only in case. */
  ghost predicate DistinctNames(fs: Forest, fold: string -> string) {
    forall a, b | a in fs && b in fs && a != b && fs[a].parent == fs[b].parent :: fold(fs[a].name) != fold(fs[b].name)
  }

  /** Another folder under `parent` already has this name. */
  ghost predicate Clash(fs: Forest, fold: string -> string, parent: nat, name: string, except_: nat) {
    exists r | r in fs :: fs[r].parent == parent && fs[r].ref != except_ && fold(fs[r].name) == fold(name)
  }

  /** The plan lists exactly the folders of the map. */
  ghost predicate Mirrors(plan: seq<Folder>, fs: Forest) {
    && (forall i, j | 0 <= i < j < |plan| :: plan[i].ref != plan[j].ref)
    && (forall i | 0 <= i < |plan| :: plan[i].ref in fs && fs[plan[i].ref] == plan[i])
    && forall r | r in fs :: exists i | 0 <= i < |plan| :: plan[i].ref == r
  }

  /** `r` is `top` or below it. */
  ghost predicate Under(fs: Forest, top: nat, r: nat)
    requires Rooted(fs) && r in fs
    decreases fs[r].depth
  {
    r == top || (r != ROOT && Under(fs, top, fs[r].parent))
  }

  lemma {:induction false} UnderDepth(fs: Forest, top: nat, r: nat)
    requires Rooted(fs) && r in fs && top in fs && Under(fs, top, r)
    ensures fs[r].depth >= fs[top].depth && (fs[r].depth == fs[top].depth ==> r == top)
    decreases fs[r].depth
  {
    if r != top {
      UnderDepth(fs, top, fs[r].parent);
    }
  }

  lemma {:induction false} UnderTrans(fs: Forest, top: nat, mid: nat, r: nat)
    requires Rooted(fs) && r in fs && mid in fs && Under(fs, top, mid) && Under(fs, mid, r)
    ensures Under(fs, top, r)
    decreases fs[r].depth
  {
    if r != mid {
      UnderTrans(fs, top, mid, fs[r].parent);
    }
  }

  /** Parents are unique, so two folders above the same one are above each other. */
  lemma {:induction false} UnderChain(fs: Forest, a: nat, b: nat, r: nat)
    requires Rooted(fs) && r in fs && a in fs && b in fs && Under(fs, a, r) && Under(fs, b, r)
    ensures Under(fs, a, b) || Under(fs, b, a)
    decreases fs[r].depth
  {
    if r != a && r != b {
      UnderChain(fs, a, b, fs[r].parent);
    }
  }

  lemma {:induction false} AllUnderRoot(fs: Forest, r: nat)
    requires Rooted(fs) && r in fs
    ensures Under(fs, ROOT, r)
    decreases fs[r].depth
  {
    if r != ROOT {
      AllUnderRoot(fs, fs[r].parent);
    }
  }

  ghost function Subtree(fs: Forest, top: nat): set<nat>
    requires Rooted(fs)
  {
    set r | r in fs && Under(fs, top, r)
  }

  lemma SubtreeShrinks(fs: Forest, top: nat, c: nat)
    requires Rooted(fs) && top in fs && c in fs && c != ROOT && fs[c].parent == top
    ensures Subtree(fs, c) < Subtree(fs, top)
  {
    forall r | r in Subtree(fs, c)
      ensures r in Subtree(fs, top)
    {
      UnderTrans(fs, top, c, r);
    }
    if Under(fs, c, top) {
      UnderDepth(fs, c, top);
    }
    assert top in Subtree(fs, top) && top !in Subtree(fs, c);
  }

  /** A folder strictly below `top` is below exactly one child of `top`. */
  ghost function Branch(fs: Forest, top: nat, r: nat): (c: nat)
    requires Rooted(fs) && r in fs && top in fs && r != top && Under(fs, top, r)
    ensures c in fs && c != ROOT && fs[c].parent == top && Under(fs, c, r)
    decreases fs[r].depth
  {
    if fs[r].parent == top then r else Branch(fs, top, fs[r].parent)
  }

  lemma BranchUnique(fs: Forest, top: nat, r: nat, c: nat)
    requires Rooted(fs) && r in fs && top in fs && c in fs && c != ROOT && fs[c].parent == top && Under(fs, c, r)
    ensures r != top && Under(fs, top, r) && Branch(fs, top, r) == c
  {
    UnderTrans(fs, top, c, r);
    UnderDepth(fs, c, r);
    var b := Branch(fs, top, r);
    UnderChain(fs, b, c, r);
    if Under(fs, b, c) {
      UnderDepth(fs, b, c);
    } else {
      UnderDepth(fs, c, b);
    }
  }

  // ---------- moving ----------

  function Shifted(depth: nat, from: nat, to: nat): int {
    depth - from + to
  }

  /** The forest after a move: one parent changed, and the whole subtree's depths follow. */
  ghost predicate Moved(fs: Forest, fs': Forest, ref: nat, parent: nat)
    requires Rooted(fs) && ref in fs && parent in fs
  {
    && fs'.Keys == fs.Keys
    && forall r | r in fs ::
         && fs'[r].(parent := 0, depth := 0) == fs[r].(parent := 0, depth := 0)
         && fs'[r].parent == (if r == ref then parent else fs[r].parent)
         && fs'[r].depth as int ==
            if Under(fs, ref, r) then Shifted(fs[r].depth, fs[ref].depth, fs[parent].depth + 1) else fs[r].depth
  }

  lemma MovedRooted(fs: Forest, fs': Forest, ref: nat, parent: nat)
    requires Rooted(fs) && ref in fs && parent in fs && ref != ROOT && ref != IPM
    requires !Under(fs, ref, parent) && Moved(fs, fs', ref, parent)
    ensures Rooted(fs')
  {
    assert !Under(fs, ref, ROOT);
    forall r | r in fs' && r != ROOT
      ensures fs'[r].parent in fs' && fs'[r].depth == fs'[fs'[r].parent].depth + 1
    {
      assert r != ref ==> (Under(fs, ref, r) <==> Under(fs, ref, fs[r].parent));
    }
    forall r | r in fs'
      ensures fs'[r].ref == r
    {
      assert fs'[r].(parent := 0, depth := 0).ref == fs[r].(parent := 0, depth := 0).ref;
    }
    assert fs'[IPM].parent == ROOT && fs'[ROOT].parent == 0;
  }

  /** While depths are being recomputed: links and names are final, depths outside the subtree are untouched. */
  ghost predicate Relinked(fs: Forest, fs': Forest, ref: nat, parent: nat) {
    && fs'.Keys == fs.Keys
    && forall r | r in fs ::
         && fs'[r].(parent := 0, depth := 0) == fs[r].(parent := 0, depth := 0)
         && fs'[r].parent == (if r == ref then parent else fs[r].parent)
  }

  lemma RelinkedStep(fs: Forest, fs': Forest, ref: nat, parent: nat, r: nat, f: Folder)
    requires Relinked(fs, fs', ref, parent) && r in fs && f.(depth := 0) == fs'[r].(depth := 0)
    ensures Relinked(fs, fs'[r := f], ref, parent)
  {
    assert f.parent == f.(depth := 0).parent == fs'[r].(depth := 0).parent == fs'[r].parent;
    assert f.(parent := 0, depth := 0) == f.(depth := 0).(parent := 0, depth := 0);
    assert fs'[r].(parent := 0, depth := 0) == fs'[r].(depth := 0).(parent := 0, depth := 0);
    assert fs'[r := f].Keys == fs'.Keys;
  }

  lemma MirrorsUpdate(plan: seq<Folder>, fs: Forest, i: nat, f: Folder)
    requires Mirrors(plan, fs) && i < |plan| && plan[i].ref == f.ref
    ensures Mirrors(plan[i := f], fs[f.ref := f])
  {
    var plan', fs' := plan[i := f], fs[f.ref := f];
    assert forall j | 0 <= j < |plan| :: plan'[j].ref == plan[j].ref;
    forall r | r in fs'
      ensures exists j | 0 <= j < |plan'| :: plan'[j].ref == r
    {
      var j :| 0 <= j < |plan| && plan[j].ref == r;
      assert plan'[j].ref == r;
    }
  }

  lemma MirrorsAdd(plan: seq<Folder>, fs: Forest, f: Folder)
    requires Mirrors(plan, fs) && f.ref !in fs
    ensures Mirrors(plan + [f], fs[f.ref := f])
  {
    var plan', fs' := plan + [f], fs[f.ref := f];
    forall r | r in fs'
      ensures exists j | 0 <= j < |plan'| :: plan'[j].ref == r
    {
      if r == f.ref {
        assert plan'[|plan|].ref == r;
      } else {
        var j :| 0 <= j < |plan| && plan[j].ref == r;
        assert plan'[j].ref == r;
      }
    }
  }

  class Session {
    const fold: string -> string
    const maxDepth: nat
    const maxFolders: nat
    var closed: bool
    var nextFold: nat
    var folders: Forest
    var plan: seq<Folder>
    /** The folder of each planned message. */
    var messages: seq<nat>

    ghost predicate Valid()
      reads this
    {
      && Rooted(folders) && DistinctNames(folders, fold) && Mirrors(plan, folders)
      && (forall r | r in folders :: r < nextFold)
      && forall m | m in messages :: m in folders
    }

    constructor (fold: string -> string, maxDepth: nat, maxFolders: nat, ipmNid: nat)
      ensures Valid() && folders.Keys == {ROOT, IPM} && messages == []
    {
      hide Rooted, DistinctNames, Mirrors;
      this.fold, this.maxDepth, this.maxFolders := fold, maxDepth, maxFolders;
      closed, nextFold, messages := false, IPM + 1, [];
      var root := Folder(ROOT, 0x122, 0, "Root", 0);
      var ipm := Folder(IPM, ipmNid, ROOT, "IPM_SUBTREE", 1);
      folders := map[ROOT := root, IPM := ipm];
      plan := [root, ipm];
      new;
      SeedForest(fold, root, ipm);
    }

    /** planCollision. */
    method Collides(parent: nat, name: string, except_: nat) returns (b: bool)
      ensures b <==> Clash(folders, fold, parent, name, except_)
    {
      var todo := folders.Keys;
      while todo != {}
        invariant todo <= folders.Keys
        invariant forall r | r in folders && r !in todo ::
          !(folders[r].parent == parent && folders[r].ref != except_ && fold(folders[r].name) == fold(name))
        decreases |todo|
      {
        var r :| r in todo;
        if folders[r].parent == parent && folders[r].ref != except_ && fold(folders[r].name) == fold(name) {
          return true;
        }
        todo := todo - {r};
      }
      return false;
    }

    /** Everything CreateFolder checks. */
    ghost predicate MayCreate(parent: nat, name: Option<string>)
      requires Valid()
      reads this
    {
      && !closed && name.Some? && parent in folders && !Clash(folders, fold, parent, name.value, 0)
      && folders[parent].depth + 1 <= maxDepth && |plan| < maxFolders
    }

    /** Parent 0 is the IPM subtree. Accepted exactly when the parent is known, no child of it has the name, and both
        limits leave room. */
    method CreateFolder(given: nat, name: Option<string>, nid: nat) returns (r: Result<nat>)
      requires Valid()
      modifies `nextFold, `folders, `plan
      ensures Valid()
      ensures r.Ok? <==> old(MayCreate(if given == 0 then IPM else given, name))
      ensures r.Err? ==> folders == old(folders) && plan == old(plan) && nextFold == old(nextFold)
      ensures r.Ok? ==> r.value == old(nextFold) && r.value !in old(folders) && name.Some? && nextFold == r.value + 1
      ensures r.Ok? ==> var parent := if given == 0 then IPM else given;
        && parent in old(folders)
        && folders == old(folders)[r.value := Folder(r.value, nid, parent, name.value, old(folders)[parent].depth + 1)]
    {
      hide Rooted, DistinctNames, Mirrors, Clash;
      if closed {
        return Err(Unsupported);
      }
      if name.None? {
        return Err(InvalidArg);
      }
      var parent := if given == 0 then IPM else given;
      if parent !in folders {
        return Err(InvalidArg);
      }
      var clash := Collides(parent, name.value, 0);
      if clash {
        return Err(InvalidArg);
      }
      var depth := folders[parent].depth + 1;
      if depth > maxDepth {
        return Err(LimitExceeded);
      }
      if |plan| >= maxFolders {
        return Err(LimitExceeded);
      }
      var ref := nextFold;
      nextFold := nextFold + 1;
      AddFolder(Folder(ref, nid, parent, name.value, depth));
      return Ok(ref);
    }

    method AddFolder(f: Folder)
      requires Rooted(folders) && DistinctNames(folders, fold) && Mirrors(plan, folders) &&
        !Clash(folders, fold, f.parent, f.name, 0)
      requires f.ref !in folders && f.ref > 0 && f.parent in folders && f.depth == folders[f.parent].depth + 1
      modifies `folders, `plan
      ensures Rooted(folders) && DistinctNames(folders, fold) && Mirrors(plan, folders) &&
        folders == old(folders)[f.ref := f]
    {
      MirrorsAdd(plan, folders, f);
      CreatedForest(folders, fold, f);
      hide Rooted, DistinctNames, Mirrors, Clash;
      folders := folders[f.ref := f];
      plan := plan + [f];
    }

    method UpdatePlanFolder(f: Folder)
      requires Mirrors(plan, folders) && f.ref in folders
      modifies `folders, `plan
      ensures Mirrors(plan, folders) && folders == old(folders)[f.ref := f]
    {
      ghost var fs := folders;
      folders := folders[f.ref := f];
      for i := 0 to |plan|
        invariant plan == old(plan) && folders == fs[f.ref := f] && forall j | 0 <= j < i :: plan[j].ref != f.ref
      {
        if plan[i].ref == f.ref {
          MirrorsUpdate(plan, fs, i, f);
          plan := plan[i := f];
          return;
        }
      }
    }

    method RenameFolder(ref: nat, name: Option<string>) returns (r: Result<()>)
      requires Valid()
      modifies `folders, `plan
      ensures Valid()
      ensures r.Err? ==> folders == old(folders) && plan == old(plan)
      ensures r.Ok? <==> !closed && name.Some? && ref != ROOT && ref != IPM && ref in old(folders)
                         && !Clash(old(folders), fold, old(folders)[ref].parent, name.value, ref)
      ensures r.Ok? ==> folders == old(folders)[ref := old(folders)[ref].(name := name.value)]
    {
      hide Rooted, DistinctNames, Mirrors, Clash;
      if closed {
        return Err(Unsupported);
      }
      if name.None? {
        return Err(InvalidArg);
      }
      if ref == ROOT || ref == IPM || ref !in folders {
        return Err(InvalidArg);
      }
      var clash := Collides(folders[ref].parent, name.value, ref);
      if clash {
        return Err(InvalidArg);
      }
      ApplyRename(ref, name.value);
      return Ok(());
    }

    method ApplyRename(ref: nat, name: string)
      requires Valid() && ref in folders && ref != ROOT && ref != IPM
      requires !Clash(folders, fold, folders[ref].parent, name, ref)
      modifies `folders, `plan
      ensures Valid() && folders == old(folders)[ref := old(folders)[ref].(name := name)]
    {
      assert folders[ref].ref == ref;
      var f := folders[ref].(name := name);
      RenamedForest(folders, fold, f);
      hide Rooted, DistinctNames, Mirrors;
      UpdatePlanFolder(f);
    }

    /** The walk up from the new parent: it ends at the root, and meets `ref` exactly when `ref` is above. */
    method AboveOrSelf(ref: nat, parent: nat) returns (b: bool)
      requires Rooted(folders) && parent in folders
      ensures b <==> Under(folders, ref, parent)
    {
      var cur := parent;
      while cur != 0
        invariant cur == 0 || cur in folders
        invariant if cur == 0 then !Under(folders, ref, parent) else Under(folders, ref, parent) <==>
          Under(folders, ref, cur)
        decreases if cur == 0 then 0 else folders[cur].depth + 1
      {
        if cur == ref {
          return true;
        }
        if cur !in folders {
          break;
        }
        if folders[cur].parent == cur {
          break;
        }
        cur := folders[cur].parent;
      }
      return false;
    }

    /** recomputeDepth: the folder and everything below it, each one level under its parent. */
    method RecomputeDepth(ref: nat, ghost fs: Forest, ghost top: nat, ghost parent: nat)
      requires Rooted(fs) && top in fs && top != ROOT && parent in fs && !Under(fs, top, parent)
      requires ref in fs && Under(fs, top, ref) && Relinked(fs, folders, top, parent) && Mirrors(plan, folders)
      requires forall r | r in fs && Under(fs, ref, r) :: folders[r].depth == fs[r].depth
      modifies `folders, `plan
      ensures Relinked(fs, folders, top, parent) && Mirrors(plan, folders)
      ensures forall r | r in fs && !Under(fs, ref, r) :: folders[r].depth == old(folders)[r].depth
      ensures folders[ref].parent in folders && folders[ref].depth == old(folders)[folders[ref].parent].depth + 1
      ensures forall r | r in fs && Under(fs, ref, r) ::
        folders[r].depth as int == Shifted(fs[r].depth, fs[ref].depth, folders[ref].depth)
      decreases Subtree(fs, ref)
    {
      hide Mirrors, Rooted, DistinctNames, Under, Subtree, Relinked;
      RelinkedKeys(fs, folders, top, parent);
      UnderSelf(fs, ref);
      LinkOf(fs, folders, top, parent, ref);
      var f := folders[ref];
      if f.parent !in folders {
        return;
      }
      var g := f.(depth := folders[f.parent].depth + 1);
      RelinkedStep(fs, folders, top, parent, ref, g);
      UpdatePlanFolder(g);
      ghost var mid := folders;
      var todo := folders.Keys;
      while todo != {}
        invariant todo <= fs.Keys && Relinked(fs, folders, top, parent) && Mirrors(plan, folders)
        invariant Halfway(fs, folders, mid, ref, todo)
        decreases |todo|
      {
        var c :| c in todo;
        ghost var before := folders;
        RelinkedKeys(fs, folders, top, parent);
        if folders[c].parent == ref {
          ChildOf(fs, folders, top, parent, ref, c);
          HalfwayChild(fs, folders, mid, ref, todo, c);
          SubtreeShrinks(fs, ref, c);
          RecomputeDepth(c, fs, top, parent);
          RelinkedKeys(fs, folders, top, parent);
          RelinkedParent(fs, folders, top, parent, c);
          HalfwayStep(fs, before, folders, mid, ref, todo, c);
        } else {
          HalfwaySkip(fs, folders, top, parent, mid, ref, todo, c);
        }
        todo := todo - {c};
      }
      RelinkedKeys(fs, folders, top, parent);
      RelinkedSame(fs, mid, folders, top, parent, ref);
      HalfwayEnd(fs, folders, mid, ref);
    }

    /** Accepted exactly when both folders exist, the new parent is not below the folder, its siblings there have
        other names, and the folder itself stays within the depth limit. */
    method MoveFolder(ref: nat, given: nat) returns (r: Result<()>)
      requires Valid()
      modifies `folders, `plan
      ensures Valid()
      ensures r.Err? ==> folders == old(folders) && plan == old(plan)
      ensures var parent := if given == 0 then IPM else given;
        r.Ok? <==>
          (&& !closed && ref != ROOT && ref != IPM && ref in old(folders) && parent in old(folders) &&
           !Under(old(folders), ref, parent)
           && !Clash(old(folders), fold, parent, old(folders)[ref].name, ref) &&
              old(folders)[parent].depth + 1 <= maxDepth)
      ensures r.Ok? ==> Moved(old(folders), folders, ref, if given == 0 then IPM else given)
    {
      hide Mirrors, DistinctNames, Clash, Moved, Under;
      if closed {
        return Err(Unsupported);
      }
      if ref == ROOT || ref == IPM {
        return Err(InvalidArg);
      }
      var parent := if given == 0 then IPM else given;
      if ref !in folders || parent !in folders {
        return Err(InvalidArg);
      }
      var below := AboveOrSelf(ref, parent);
      if below {
        return Err(InvalidArg);
      }
      var clash := Collides(parent, folders[ref].name, ref);
      if clash {
        return Err(InvalidArg);
      }
      if folders[parent].depth + 1 > maxDepth {
        return Err(LimitExceeded);
      }
      ApplyMove(ref, parent);
      return Ok(());
    }

    /** The new link, before any depth follows. */
    method Relink(ref: nat, parent: nat)
      requires Rooted(folders) && Mirrors(plan, folders) && ref in folders
      modifies `folders, `plan
      ensures Rooted(old(folders)) && Under(old(folders), ref, ref)
      ensures Relinked(old(folders), folders, ref, parent) && Mirrors(plan, folders)
      ensures forall r | r in old(folders) && Under(old(folders), ref, r) :: folders[r].depth == old(folders)[r].depth
      ensures forall r | r in old(folders) :: r in folders && folders[r].depth == old(folders)[r].depth
    {
      var f := folders[ref].(parent := parent);
      assert f.ref == ref;
      UnderSelf(folders, ref);
      RelinkedStart(folders, folders[ref := f], ref, parent, f);
      hide Rooted, Mirrors, Relinked, Under;
      UpdatePlanFolder(f);
    }

    method ApplyMove(ref: nat, parent: nat)
      requires Valid() && ref in folders && ref != ROOT && ref != IPM && parent in folders &&
        !Under(folders, ref, parent)
      requires !Clash(folders, fold, parent, folders[ref].name, ref)
      modifies `folders, `plan
      ensures Valid() && Moved(old(folders), folders, ref, parent)
    {
      hide Rooted, DistinctNames, Mirrors, Relinked, Clash, Under, Moved, Subtree, Shifted;
      ghost var fs := folders;
      Relink(ref, parent);
      RelinkedTop(fs, folders, ref, parent);
      ghost var mid := folders;
      RecomputeDepth(ref, fs, ref, parent);
      RelinkedKeys(fs, mid, ref, parent);
      RelinkedKeys(fs, folders, ref, parent);
      MoveDone(fs, mid, folders, fold, ref, parent);
    }

    /** The recursive walk of DeleteFolder. */
    method Walk(ref: nat) returns (drop: set<nat>)
      requires Rooted(folders) && ref in folders
      ensures drop == Subtree(folders, ref)
      decreases Subtree(folders, ref)
    {
      drop := {ref};
      var todo := folders.Keys;
      while todo != {}
        invariant todo <= folders.Keys && drop <= Subtree(folders, ref) && ref in drop
        invariant forall r | r in folders && r != ref && Under(folders, ref, r) :: r in drop <==>
          Branch(folders, ref, r) !in todo
        decreases |todo|
      {
        hide Under, Rooted, Branch;
        var c :| c in todo;
        if folders[c].parent == ref {
          ParentOfRoot(folders, ref, c);
          SubtreeShrinks(folders, ref, c);
          var below := Walk(c);
          forall r | r in folders
            ensures Under(folders, c, r) <==> (Under(folders, ref, r) && r != ref && Branch(folders, ref, r) == c)
          {
            BranchIs(folders, ref, r, c);
          }
          drop := drop + below;
        }
        todo := todo - {c};
      }
    }

    /** Removes the folder and everything below it, unless a planned message sits in one of them. */
    method DeleteFolder(ref: nat) returns (r: Result<()>)
      requires Valid()
      modifies `folders, `plan
      ensures Valid()
      ensures r.Err? ==> folders == old(folders) && plan == old(plan)
      ensures r.Ok? <==> !closed && ref != ROOT && ref != IPM && ref in old(folders)
                         && forall m | m in messages :: !Under(old(folders), ref, m)
      ensures r.Ok? ==> folders == old(folders) - Subtree(old(folders), ref)
    {
      hide Under, DistinctNames, Mirrors;
      if closed {
        return Err(Unsupported);
      }
      if ref == ROOT || ref == IPM || ref !in folders {
        return Err(InvalidArg);
      }
      var drop := Walk(ref);
      for i := 0 to |messages|
        invariant forall k | 0 <= k < i :: messages[k] !in drop
      {
        if messages[i] in drop {
          assert messages[i] in messages && Under(folders, ref, messages[i]);
          return Err(InvalidArg);
        }
      }
      assert forall m | m in messages :: m !in drop;
      PrunedForest(folders, fold, ref);
      hide Rooted;
      var out := FilterPlan(drop);
      folders := folders - drop;
      plan := out;
      return Ok(());
    }

    method FilterPlan(drop: set<nat>) returns (out: seq<Folder>)
      requires Mirrors(plan, folders)
      ensures Mirrors(out, folders - drop)
    {
      hide Filtered, Mirrors;
      out := [];
      FilterStart(plan, folders, drop);
      for i := 0 to |plan|
        invariant Filtered(plan, folders, drop, i, out)
      {
        FilterStep(plan, folders, drop, i, out);
        if plan[i].ref !in drop {
          out := out + [plan[i]];
        }
      }
      FilterEnd(plan, folders, drop, out);
    }

    /** CreateMessage, as far as folders go. */
    method CreateMessage(given: nat) returns (r: Result<()>)
      requires Valid()
      modifies `messages
      ensures Valid()
      ensures r.Ok? ==> messages == old(messages) + [if given == 0 then IPM else given]
      ensures r.Err? ==> messages == old(messages)
    {
      if closed {
        return Err(Unsupported);
      }
      var folder := if given == 0 then IPM else given;
      if folder !in folders {
        return Err(InvalidArg);
      }
      messages := messages + [folder];
      return Ok(());
    }
  }

  /** `out` holds the first `i` plan entries that are not dropped. */
  ghost predicate Filtered(plan: seq<Folder>, fs: Forest, drop: set<nat>, i: nat, out: seq<Folder>) {
    && i <= |plan| && Mirrors(plan, fs) && Once(out)
    && (forall f | f in out :: f.ref !in drop && f in plan[..i])
    && forall f | f in plan[..i] && f.ref !in drop :: f in out
  }

  lemma FilterStart(plan: seq<Folder>, fs: Forest, drop: set<nat>)
    requires Mirrors(plan, fs)
    ensures Filtered(plan, fs, drop, 0, [])
  {
    hide Mirrors;
  }

  lemma FilterStep(plan: seq<Folder>, fs: Forest, drop: set<nat>, i: nat, out: seq<Folder>)
    requires Filtered(plan, fs, drop, i, out) && i < |plan|
    ensures Filtered(plan, fs, drop, i + 1, if plan[i].ref in drop then out else out + [plan[i]])
  {
    PlanOnce(plan, fs, i);
    hide Mirrors, Once;
    assert plan[..i + 1] == plan[..i] + [plan[i]];
    if plan[i].ref !in drop {
      OnceSnoc(out, plan[i]);
    }
  }

  lemma OnceSnoc(out: seq<Folder>, f: Folder)
    requires Once(out) && forall o | o in out :: o.ref != f.ref
    ensures Once(out + [f])
  {
  }

  lemma FilterEnd(plan: seq<Folder>, fs: Forest, drop: set<nat>, out: seq<Folder>)
    requires Filtered(plan, fs, drop, |plan|, out)
    ensures Mirrors(out, fs - drop)
  {
    assert plan[..|plan|] == plan;
    forall a | 0 <= a < |out|
      ensures out[a].ref in fs && fs[out[a].ref] == out[a] && out[a].ref !in drop
    {
      assert out[a] in out && out[a] in plan;
    }
    var fs' := fs - drop;
    forall r | r in fs'
      ensures exists a | 0 <= a < |out| :: out[a].ref == r
    {
      var k :| 0 <= k < |plan| && plan[k].ref == r;
      assert plan[k] in plan[..|plan|];
      var a :| 0 <= a < |out| && out[a] == plan[k];
      assert out[a].ref == r;
    }
  }

  lemma UnderSelf(fs: Forest, ref: nat)
    requires Rooted(fs) && ref in fs
    ensures Under(fs, ref, ref)
  {
  }

  lemma ParentOfRoot(fs: Forest, ref: nat, c: nat)
    requires Rooted(fs) && ref in fs && c in fs && fs[c].parent == ref
    ensures c != ROOT
  {
  }

  lemma RelinkedStart(fs: Forest, fs': Forest, ref: nat, parent: nat, f: Folder)
    requires Rooted(fs) && ref in fs && f == fs[ref].(parent := parent) && fs' == fs[ref := f]
    ensures Relinked(fs, fs', ref, parent)
    ensures forall r | r in fs && Under(fs, ref, r) :: fs'[r].depth == fs[r].depth
    ensures forall r | r in fs :: fs'[r].depth == fs[r].depth
  {
    hide Under;
    assert fs'.Keys == fs.Keys;
  }

  lemma MovedFrom(fs: Forest, fs': Forest, ref: nat, parent: nat)
    requires Rooted(fs) && ref in fs && parent in fs && !Under(fs, ref, parent) && Relinked(fs, fs', ref, parent)
    requires forall r | r in fs && !Under(fs, ref, r) :: fs'[r].depth == fs[r].depth
    requires fs'[ref].depth == fs[parent].depth + 1
    requires forall r | r in fs && Under(fs, ref, r) ::
      fs'[r].depth as int == Shifted(fs[r].depth, fs[ref].depth, fs'[ref].depth)
    ensures Moved(fs, fs', ref, parent)
  {
    hide Under, Rooted;
  }

  lemma RelinkedKeys(fs: Forest, fs': Forest, top: nat, parent: nat)
    requires Relinked(fs, fs', top, parent)
    ensures fs'.Keys == fs.Keys && forall r | r in fs' :: r in fs
  {
  }

  lemma RelinkedTop(fs: Forest, fs': Forest, top: nat, parent: nat)
    requires Relinked(fs, fs', top, parent) && top in fs
    ensures fs'[top].parent == parent
  {
  }

  lemma RelinkedParent(fs: Forest, fs': Forest, top: nat, parent: nat, c: nat)
    requires Relinked(fs, fs', top, parent) && c in fs && c != top
    ensures fs'[c].parent == fs[c].parent
  {
  }

  lemma RelinkedSame(fs: Forest, a: Forest, b: Forest, top: nat, parent: nat, r: nat)
    requires Relinked(fs, a, top, parent) && Relinked(fs, b, top, parent) && r in fs
    ensures a[r].parent == b[r].parent
  {
  }

  lemma MoveDone(fs: Forest, mid: Forest, fs': Forest, fold: string -> string, ref: nat, parent: nat)
    requires Rooted(fs) && DistinctNames(fs, fold) && ref in fs && parent in fs && !Under(fs, ref, parent) &&
      ref != ROOT && ref != IPM
    requires !Clash(fs, fold, parent, fs[ref].name, ref)
    requires Relinked(fs, mid, ref, parent) && Relinked(fs, fs', ref, parent)
    requires forall r | r in fs :: mid[r].depth == fs[r].depth
    requires forall r | r in fs && !Under(fs, ref, r) :: fs'[r].depth == mid[r].depth
    requires fs'[ref].parent in mid && fs'[ref].depth == mid[fs'[ref].parent].depth + 1
    requires forall r | r in fs && Under(fs, ref, r) ::
      fs'[r].depth as int == Shifted(fs[r].depth, fs[ref].depth, fs'[ref].depth)
    ensures Moved(fs, fs', ref, parent) && Rooted(fs') && DistinctNames(fs', fold) && fs'.Keys == fs.Keys
  {
    hide Rooted, DistinctNames, Clash, Under, Moved, Shifted;
    MovedFrom(fs, fs', ref, parent);
    MovedRooted(fs, fs', ref, parent);
    MovedNames(fs, fs', fold, ref, parent);
  }

  lemma MovedNames(fs: Forest, fs': Forest, fold: string -> string, ref: nat, parent: nat)
    requires Rooted(fs) && ref in fs && parent in fs && Moved(fs, fs', ref, parent) && DistinctNames(fs, fold)
    requires !Clash(fs, fold, parent, fs[ref].name, ref)
    ensures DistinctNames(fs', fold)
  {
    hide Under;
    forall r | r in fs
      ensures fs'[r].name == fs[r].name && fs[r].ref == r
    {
      assert fs'[r].(parent := 0, depth := 0).name == fs[r].(parent := 0, depth := 0).name;
    }
  }

  lemma PrunedForest(fs: Forest, fold: string -> string, ref: nat)
    requires Rooted(fs) && DistinctNames(fs, fold) && ref in fs && ref != ROOT && ref != IPM
    ensures Rooted(fs - Subtree(fs, ref)) && DistinctNames(fs - Subtree(fs, ref), fold)
  {
    assert !Under(fs, ref, ROOT) && !Under(fs, ref, IPM);
  }

  lemma LinkOf(fs: Forest, fs': Forest, top: nat, parent: nat, ref: nat)
    requires Rooted(fs) && top in fs && top != ROOT && parent in fs && !Under(fs, top, parent)
    requires Relinked(fs, fs', top, parent) && ref in fs && Under(fs, top, ref)
    ensures fs'[ref].ref == ref && ref != ROOT && fs'[ref].parent in fs && fs'[ref].parent != ref
    ensures !Under(fs, ref, fs'[ref].parent)
  {
    assert fs'[ref].(parent := 0, depth := 0).ref == fs[ref].(parent := 0, depth := 0).ref;
    if ref == ROOT {
      UnderDepth(fs, top, ROOT);
    } else if ref != top {
      if Under(fs, ref, fs[ref].parent) {
        UnderDepth(fs, ref, fs[ref].parent);
      }
    }
  }

  /** The loop over children is done with every folder whose branch left `todo`. */
  ghost predicate Halfway(fs: Forest, now: Forest, mid: Forest, ref: nat, todo: set<nat>)
    requires Rooted(fs)
  {
    && now.Keys == fs.Keys == mid.Keys && ref in fs
    && (forall r | r in fs && (!Under(fs, ref, r) || r == ref) :: now[r].depth == mid[r].depth)
    && forall r | r in fs && Under(fs, ref, r) && r != ref ::
         now[r].depth as int ==
           if Branch(fs, ref, r) in todo then fs[r].depth else Shifted(fs[r].depth, fs[ref].depth, mid[ref].depth)
  }

  /** Among the links as they are now, the children of a folder in the subtree are its old children. */
  lemma ChildOf(fs: Forest, fs': Forest, top: nat, parent: nat, ref: nat, c: nat)
    requires Rooted(fs) && top in fs && top != ROOT && parent in fs && !Under(fs, top, parent)
    requires Relinked(fs, fs', top, parent) && ref in fs && Under(fs, top, ref) && c in fs && fs'[c].parent == ref
    ensures c != top && c != ROOT && fs[c].parent == ref && Under(fs, top, c) && Under(fs, ref, c) &&
      fs[c].depth == fs[ref].depth + 1
  {
    assert ref in fs && fs[ROOT].parent == 0 && 0 !in fs;
    assert Under(fs, ref, ref);
  }

  lemma HalfwayChild(fs: Forest, now: Forest, mid: Forest, ref: nat, todo: set<nat>, c: nat)
    requires Rooted(fs) && Halfway(fs, now, mid, ref, todo) && c in todo && c in fs && c != ROOT && fs[c].parent == ref
    ensures forall r | r in fs && Under(fs, c, r) :: now[r].depth == fs[r].depth
    ensures now[ref].depth == mid[ref].depth
  {
    hide Branch;
    forall r | r in fs && Under(fs, c, r)
      ensures now[r].depth == fs[r].depth
    {
      BranchUnique(fs, ref, r, c);
    }
  }

  lemma BranchIs(fs: Forest, ref: nat, r: nat, c: nat)
    requires Rooted(fs) && ref in fs && r in fs && c in fs && c != ROOT && fs[c].parent == ref
    ensures Under(fs, c, r) <==> (Under(fs, ref, r) && r != ref && Branch(fs, ref, r) == c)
  {
    if Under(fs, c, r) {
      BranchUnique(fs, ref, r, c);
    }
    hide Branch;
  }

  lemma HalfwayStep(fs: Forest, before: Forest, now: Forest, mid: Forest, ref: nat, todo: set<nat>, c: nat)
    requires Rooted(fs) && Halfway(fs, before, mid, ref, todo) && c in todo && c in fs && c != ROOT &&
      fs[c].parent == ref
    requires now.Keys == fs.Keys && fs[c].depth == fs[ref].depth + 1 && now[c].depth == mid[ref].depth + 1
    requires forall r | r in fs && !Under(fs, c, r) :: now[r].depth == before[r].depth
    requires forall r | r in fs && Under(fs, c, r) ::
      now[r].depth as int == Shifted(fs[r].depth, fs[c].depth, now[c].depth)
    ensures Halfway(fs, now, mid, ref, todo - {c})
  {
    hide Branch, Under, Rooted;
    forall r | r in fs
      ensures !Under(fs, ref, r) || r == ref ==> now[r].depth == mid[r].depth
      ensures Under(fs, ref, r) && r != ref && Branch(fs, ref, r) in todo - {c} ==> now[r].depth == fs[r].depth
      ensures Under(fs, ref, r) && r != ref && Branch(fs, ref, r) !in todo - {c} ==>
        now[r].depth as int == Shifted(fs[r].depth, fs[ref].depth, mid[ref].depth)
    {
      BranchIs(fs, ref, r, c);
    }
  }

  lemma HalfwaySkip(fs: Forest, now: Forest, top: nat, parent: nat, mid: Forest, ref: nat, todo: set<nat>, c: nat)
    requires Rooted(fs) && top in fs && top != ROOT && parent in fs && !Under(fs, top, parent)
    requires Relinked(fs, now, top, parent) && ref in fs && Under(fs, top, ref)
    requires Halfway(fs, now, mid, ref, todo) && c in todo && c in fs && now[c].parent != ref
    ensures Halfway(fs, now, mid, ref, todo - {c})
  {
    forall r | r in fs && Under(fs, ref, r) && r != ref
      ensures Branch(fs, ref, r) != c
    {
      var b := Branch(fs, ref, r);
      if b == top {
        UnderDepth(fs, top, ref);
      }
    }
    hide Branch;
  }

  lemma HalfwayEnd(fs: Forest, now: Forest, mid: Forest, ref: nat)
    requires Rooted(fs) && Halfway(fs, now, mid, ref, {})
    ensures now[ref].depth == mid[ref].depth
    ensures forall r | r in fs && !Under(fs, ref, r) :: now[r].depth == mid[r].depth
    ensures forall r | r in fs && Under(fs, ref, r) ::
      now[r].depth as int == Shifted(fs[r].depth, fs[ref].depth, mid[ref].depth)
  {
    hide Branch;
  }

  lemma SeedForest(fold: string -> string, root: Folder, ipm: Folder)
    requires root.ref == ROOT && root.parent == 0 && root.depth == 0 && ipm.ref == IPM && ipm.parent == ROOT &&
      ipm.depth == 1
    ensures Rooted(map[ROOT := root, IPM := ipm]) && DistinctNames(map[ROOT := root, IPM := ipm], fold)
    ensures Mirrors([root, ipm], map[ROOT := root, IPM := ipm])
  {
    assert [root, ipm][0].ref == ROOT && [root, ipm][1].ref == IPM;
  }

  lemma CreatedForest(fs: Forest, fold: string -> string, f: Folder)
    requires Rooted(fs) && DistinctNames(fs, fold) && f.ref !in fs && f.ref > 0 && f.parent in fs &&
      f.depth == fs[f.parent].depth + 1
    requires !Clash(fs, fold, f.parent, f.name, 0)
    ensures Rooted(fs[f.ref := f]) && DistinctNames(fs[f.ref := f], fold)
  {
  }

  lemma RenamedForest(fs: Forest, fold: string -> string, f: Folder)
    requires Rooted(fs) && DistinctNames(fs, fold) && f.ref in fs && f.ref != ROOT && f.ref != IPM
    requires f.(name := "") == fs[f.ref].(name := "")
    requires !Clash(fs, fold, f.parent, f.name, f.ref)
    ensures Rooted(fs[f.ref := f]) && DistinctNames(fs[f.ref := f], fold)
  {
    assert f.parent == f.(name := "").parent == fs[f.ref].(name := "").parent;
    assert f.depth == f.(name := "").depth == fs[f.ref].(name := "").depth;
  }

  // ---------- materializing a plan ----------

  /** Somewhere between a folder not made yet and the root there is one that can be made. */
  lemma {:induction false} SomeReady(fs: Forest, done: set<nat>, r: nat) returns (q: nat)
    requires Rooted(fs) && ROOT in done && r in fs && r !in done
    ensures q in fs && q !in done && fs[q].parent in done
    decreases fs[r].depth
  {
    if fs[r].parent in done {
      return r;
    }
    q := SomeReady(fs, done, fs[r].parent);
  }

  /** The folders made so far and those still pending are all folders, once each. */
  ghost predicate Split(fs: Forest, done: set<nat>, pending: seq<Folder>) {
    && {ROOT, IPM} <= done <= fs.Keys
    && (forall i | 0 <= i < |pending| ::
        pending[i].ref in fs && fs[pending[i].ref] == pending[i] && pending[i].ref !in done)
    && forall r | r in fs && r !in done :: exists i | 0 <= i < |pending| :: pending[i].ref == r
  }

  lemma NoStall(fs: Forest, done: set<nat>, pending: seq<Folder>)
    requires Rooted(fs) && Split(fs, done, pending) && pending != []
    ensures exists i | 0 <= i < |pending| :: pending[i].parent in done
  {
    var q := SomeReady(fs, done, pending[0].ref);
    var i :| 0 <= i < |pending| && pending[i].ref == q;
    assert pending[i].parent in done;
  }

  /** In creation order every folder comes after its parent, and only once. */
  ghost predicate ParentsFirst(fs: Forest, order: seq<nat>) {
    && (forall i, j | 0 <= i < j < |order| :: order[i] != order[j])
    && forall i | 0 <= i < |order| ::
       order[i] in fs && (fs[order[i]].parent in {ROOT, IPM} || fs[order[i]].parent in order[..i])
  }

  lemma OrderMore(fs: Forest, order: seq<nat>, done: set<nat>, r: nat)
    requires ParentsFirst(fs, order) && done == {ROOT, IPM} + set x | x in order
    requires r in fs && r !in done && fs[r].parent in done
    ensures ParentsFirst(fs, order + [r]) && done + {r} == {ROOT, IPM} + set x | x in order + [r]
  {
    var more := order + [r];
    assert forall i | 0 <= i < |order| :: more[i] == order[i] && more[..i] == order[..i];
    assert more[..|order|] == order;
  }

  lemma SplitStart(plan: seq<Folder>, fs: Forest, pending: seq<Folder>)
    requires Rooted(fs) && Mirrors(plan, fs)
    requires forall f :: f in pending <==> f in plan && f.ref != ROOT && f.ref != IPM
    ensures Split(fs, {ROOT, IPM}, pending)
  {
    assert forall i | 0 <= i < |pending| :: pending[i] in pending;
    forall r | r in fs && r !in {ROOT, IPM}
      ensures exists i | 0 <= i < |pending| :: pending[i].ref == r
    {
      var k :| 0 <= k < |plan| && plan[k].ref == r;
      assert plan[k] in plan;
      var i :| 0 <= i < |pending| && pending[i] == plan[k];
      assert pending[i].ref == r;
    }
  }

  /** One round over the pending folders is underway: `next` keeps those whose parent is still missing. */
  ghost predicate Round(fs: Forest, done: set<nat>, pending: seq<Folder>, i: nat, next: seq<Folder>) {
    && i <= |pending| && {ROOT, IPM} <= done <= fs.Keys && |next| <= i
    && (forall k | 0 <= k < |next| :: next[k].ref in fs && fs[next[k].ref] == next[k] && next[k].ref !in done)
    && (forall k | i <= k < |pending| ::
        pending[k].ref in fs && fs[pending[k].ref] == pending[k] && pending[k].ref !in done)
    && (forall k, m | 0 <= k < |next| && i <= m < |pending| :: next[k].ref != pending[m].ref)
    && forall r | r in fs && r !in done ::
         (exists k | 0 <= k < |next| :: next[k].ref == r) || exists k | i <= k < |pending| :: pending[k].ref == r
  }

  ghost predicate Once(pending: seq<Folder>) {
    forall i, j | 0 <= i < j < |pending| :: pending[i].ref != pending[j].ref
  }

  lemma RoundKeep(fs: Forest, done: set<nat>, pending: seq<Folder>, i: nat, next: seq<Folder>)
    requires Round(fs, done, pending, i, next) && Once(pending) && i < |pending|
    ensures Round(fs, done, pending, i + 1, next + [pending[i]])
  {
    var next' := next + [pending[i]];
    assert next'[|next|] == pending[i];
    forall r | r in fs && r !in done
      ensures (exists k | 0 <= k < |next'| :: next'[k].ref == r) || exists k | i + 1 <= k < |pending| ::
        pending[k].ref == r
    {
      if k :| 0 <= k < |next| && next[k].ref == r {
        assert next'[k].ref == r;
      }
    }
  }

  lemma RoundMake(fs: Forest, done: set<nat>, pending: seq<Folder>, i: nat, next: seq<Folder>)
    requires Round(fs, done, pending, i, next) && Once(pending) && i < |pending|
    ensures Round(fs, done + {pending[i].ref}, pending, i + 1, next)
  {
  }

  lemma RoundStart(fs: Forest, done: set<nat>, pending: seq<Folder>)
    requires Split(fs, done, pending)
    ensures Round(fs, done, pending, 0, []) && Once([])
  {
  }

  lemma RoundEnd(fs: Forest, done: set<nat>, pending: seq<Folder>, next: seq<Folder>)
    requires Round(fs, done, pending, |pending|, next)
    ensures Split(fs, done, next)
  {
  }

  lemma OnceMore(fs: Forest, done: set<nat>, pending: seq<Folder>, i: nat, next: seq<Folder>)
    requires Round(fs, done, pending, i, next) && Once(next) && i < |pending|
    ensures Once(next + [pending[i]])
    ensures pending[i].ref in fs && pending[i].ref !in done && fs[pending[i].ref] == pending[i]
  {
  }

  lemma PlanOnce(plan: seq<Folder>, fs: Forest, i: nat)
    requires Mirrors(plan, fs) && i < |plan|
    ensures forall f | f in plan[..i] :: f.ref != plan[i].ref
  {
  }

  /** The folders of the plan that do not exist yet. */
  method PendingOf(plan: seq<Folder>, ghost fs: Forest) returns (pending: seq<Folder>)
    requires Rooted(fs) && Mirrors(plan, fs)
    ensures Split(fs, {ROOT, IPM}, pending) && Once(pending)
  {
    hide Rooted, Mirrors;
    pending := [];
    for i := 0 to |plan|
      invariant forall f :: f in pending <==> f in plan[..i] && f.ref != ROOT && f.ref != IPM
      invariant Once(pending)
    {
      PlanOnce(plan, fs, i);
      assert plan[..i + 1] == plan[..i] + [plan[i]];
      if plan[i].ref != ROOT && plan[i].ref != IPM {
        assert forall k | 0 <= k < |pending| :: pending[k] in pending;
        pending := pending + [plan[i]];
      }
    }
    assert plan[..|plan|] == plan;
    SplitStart(plan, fs, pending);
  }
}
