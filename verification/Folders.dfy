/** The folder object model: NBT parents, property contexts and tables kept in step (folders.go, messages.go,
    minpst.go). */
module FolderModel {
  import opened Common

  const ROOT: nat := 0x122
  const NORMAL_FOLDER: nat := 2
  const SEARCH_FOLDER: nat := 3
  const NORMAL_MESSAGE: nat := 4

  function TypeOf(nid: nat): nat {
    nid % 32
  }

  function Idx(nid: nat): nat {
    nid / 32
  }

  function MakeNid(kind: nat, index: nat): (nid: nat)
    requires kind < 32
    ensures TypeOf(nid) == kind && Idx(nid) == index
  {
    32 * index + kind
  }

  /** What a folder's property context and its row in the parent's hierarchy table both carry. */
  datatype Props = Props(name: string, content: int, unread: int, subfolders: bool, modified: nat, entryId: nat,
                         created: nat)

  /** An NBT folder node; `other` is every property the hierarchy row does not carry. */
  datatype Folder = Folder(parent: nat, pc: Props, other: nat)

  datatype Msg = Msg(folder: nat, read: bool)

  type Table = map<nat, Props>

  /** Related tables share the folder's NID index, so the tables are keyed by it. */
  datatype St = St(
    nodes: map<nat, Folder>,
    hier: map<nat, Table>,
    contents: map<nat, map<nat, bool>>,
    fai: map<nat, set<nat>>,
    msgs: map<nat, Msg>)

  // ---------- what coherence means ----------

  /** Every folder has its own three tables and an existing parent; every message an existing folder. */
  ghost predicate Shape(s: St) {
    && ROOT in s.nodes && s.nodes[ROOT].parent == 0
    && (forall f | f in s.nodes :: f > 0 && (TypeOf(f) == NORMAL_FOLDER || TypeOf(f) == SEARCH_FOLDER))
    && (forall f | f in s.nodes :: Idx(f) in s.hier && Idx(f) in s.contents && Idx(f) in s.fai)
    && (forall f, g | f in s.nodes && g in s.nodes && f != g :: Idx(f) != Idx(g))
    && (forall f | f in s.nodes && f != ROOT :: s.nodes[f].parent in s.nodes)
    && (forall m | m in s.msgs :: TypeOf(m) == NORMAL_MESSAGE && s.msgs[m].folder in s.nodes)
  }

  /** The hierarchy table of folder `f`. */
  function Hier(s: St, f: nat): Table {
    if Idx(f) in s.hier then s.hier[Idx(f)] else map[]
  }

  function Fai(s: St, f: nat): set<nat> {
    if Idx(f) in s.fai then s.fai[Idx(f)] else {}
  }

  function Contents(s: St, f: nat): map<nat, bool> {
    if Idx(f) in s.contents then s.contents[Idx(f)] else map[]
  }

  /** rowState: the property context, with the flag read off the folder's own hierarchy table. */
  function RowOf(s: St, c: nat): Props
    requires c in s.nodes
  {
    s.nodes[c].pc.(subfolders := Hier(s, c) != map[])
  }

  predicate IsKid(s: St, p: nat, c: nat) {
    c in s.nodes && s.nodes[c].parent == p
  }

  /** The hierarchy table of `p` lists its children and nothing else; the rows of `dirty` children may be missing or
      stale. */
  ghost predicate RowsRight(s: St, dirty: set<nat>, p: nat) {
    && (forall c | c in Hier(s, p) :: IsKid(s, p, c))
    && forall c | IsKid(s, p, c) && c !in dirty :: c in Hier(s, p) && Hier(s, p)[c] == RowOf(s, c)
  }

  ghost function MsgsIn(s: St, f: nat): set<nat> {
    set m | m in s.msgs && s.msgs[m].folder == f
  }

  ghost function UnreadIn(s: St, f: nat): set<nat> {
    set m | m in s.msgs && s.msgs[m].folder == f && !s.msgs[m].read
  }

  /** The contents table lists exactly the folder's messages. */
  ghost predicate Listed(s: St, f: nat) {
    && (forall m :: m in Contents(s, f) <==> m in s.msgs && s.msgs[m].folder == f)
    && forall m | m in s.msgs && s.msgs[m].folder == f :: Contents(s, f)[m] == s.msgs[m].read
  }

  ghost predicate Counted(s: St, f: nat, pc: Props) {
    pc.content == |MsgsIn(s, f)| && pc.unread == |UnreadIn(s, f)|
  }

  /** The flag says whether there are rows, and the counters count the messages. */
  ghost predicate Tallied(s: St, f: nat, pc: Props) {
    (pc.subfolders <==> Hier(s, f) != map[]) && Counted(s, f, pc)
  }

  /** Everything agrees, except that a dirty folder's flag, counters and row in its parent's table may lag behind. */
  ghost predicate Almost(s: St, dirty: set<nat>) {
    && (forall p | p in s.nodes :: RowsRight(s, dirty, p))
    && (forall f | f in s.nodes && f !in dirty :: Tallied(s, f, s.nodes[f].pc))
    && (forall f | f in s.nodes :: Listed(s, f))
  }

  ghost predicate Coherent(s: St) {
    Shape(s) && Almost(s, {})
  }

  /** What a reader of the file sees: each hierarchy row is the child's property context, flag included. */
  lemma CoherentRows(s: St, p: nat)
    requires Coherent(s) && p in s.nodes
    ensures forall c :: c in Hier(s, p) <==> IsKid(s, p, c)
    ensures forall c | IsKid(s, p, c) :: Hier(s, p)[c] == s.nodes[c].pc
    ensures s.nodes[p].pc.subfolders <==> exists c :: IsKid(s, p, c)
    ensures Contents(s, p).Keys == MsgsIn(s, p)
    ensures s.nodes[p].pc.content == |Contents(s, p)|
  {
    hide Shape, Idx, TypeOf, Almost;
    AlmostAt(s, {}, p);
    hide Hier, Contents;
    forall c | IsKid(s, p, c)
      ensures c in Hier(s, p) && Hier(s, p)[c] == s.nodes[c].pc
    {
      AlmostAt(s, {}, c);
      hide MsgsIn, UnreadIn;
    }
    SomeKey(Hier(s, p));
    assert Contents(s, p).Keys == MsgsIn(s, p);
    hide MsgsIn, UnreadIn;
  }

  lemma SomeKey<V>(m: map<nat, V>)
    ensures m != map[] <==> exists c :: c in m
  {
    if m != map[] {
      assert m.Keys != {};
      var c :| c in m.Keys;
    }
  }

  // ---------- the steps every operation is made of ----------

  /** patchPC. */
  function Patched(s: St, f: nat, pc: Props): St
    requires f in s.nodes
  {
    s.(nodes := s.nodes[f := s.nodes[f].(pc := pc)])
  }

  /** upsertChildRow: the child's row is rewritten from its property context. */
  function Upserted(s: St, p: nat, c: nat): St
    requires c in s.nodes && Idx(p) in s.hier
  {
    var t: Table := s.hier[Idx(p)];
    s.(hier := s.hier[Idx(p) := t[c := RowOf(s, c)]])
  }

  /** removeChildRow. */
  function RowRemoved(s: St, p: nat, c: nat): St
    requires Idx(p) in s.hier
  {
    s.(hier := s.hier[Idx(p) := s.hier[Idx(p)] - {c}])
  }

  predicate Writable(s: St, f: nat) {
    f in s.nodes && (s.nodes[f].parent == 0 || Idx(s.nodes[f].parent) in s.hier)
  }

  /** mutatePC: the property context, then the row that mirrors it. */
  function Mutated(s: St, f: nat, pc: Props): St
    requires Writable(s, f)
  {
    var s' := Patched(s, f, pc);
    if s.nodes[f].parent == 0 then s' else Upserted(s', s.nodes[f].parent, f)
  }

  /** syncFlags. */
  function Synced(s: St, f: nat, now: nat): St
    requires Writable(s, f)
  {
    Mutated(s, f, s.nodes[f].pc.(subfolders := Hier(s, f) != map[], modified := now))
  }

  /** Only the one property context and the one table change. */
  ghost predicate Rewrote(s: St, s': St, f: nat, pc: Props) {
    && f in s.nodes && s'.nodes == s.nodes[f := s.nodes[f].(pc := pc)] && s'.msgs == s.msgs
    && (forall p | p in s.nodes :: Contents(s', p) == Contents(s, p))
    && forall p | p in s.nodes ::
         Hier(s', p) ==
           if p == s.nodes[f].parent then Hier(s, p)[f := pc.(subfolders := Hier(s, f) != map[])] else Hier(s, p)
  }

  lemma MutatedRewrites(s: St, f: nat, pc: Props)
    requires Shape(s) && f in s.nodes && (f == ROOT || s.nodes[f].parent != f)
    ensures Writable(s, f) && Shape(Mutated(s, f, pc)) && Rewrote(s, Mutated(s, f, pc), f, pc)
    ensures f != ROOT ==> s.nodes[f].parent in s.nodes
    ensures f == ROOT ==> s.nodes[f].parent !in s.nodes
  {
    forall p | p in s.nodes
      ensures Writable(s, f)
      ensures Contents(Mutated(s, f, pc), p) == Contents(s, p)
      ensures Hier(Mutated(s, f, pc), p) ==
            if p == s.nodes[f].parent then Hier(s, p)[f := pc.(subfolders := Hier(s, f) != map[])] else Hier(s, p)
    {
      MutatedFrame(s, f, pc, p);
    }
    MutatedFrame(s, f, pc, f);
    MutatedShape(s, f, pc);
    assert f != ROOT ==> s.nodes[f].parent in s.nodes;
    hide Shape, Hier, Contents, Writable;
  }

  lemma MutatedFrame(s: St, f: nat, pc: Props, p: nat)
    requires Shape(s) && f in s.nodes && p in s.nodes && (f == ROOT || s.nodes[f].parent != f)
    ensures Writable(s, f) && s.nodes[ROOT].parent == 0 && 0 !in s.nodes
    ensures Contents(Mutated(s, f, pc), p) == Contents(s, p) && Mutated(s, f, pc).msgs == s.msgs
    ensures Hier(Mutated(s, f, pc), p) ==
            if p == s.nodes[f].parent then Hier(s, p)[f := pc.(subfolders := Hier(s, f) != map[])] else Hier(s, p)
    ensures Mutated(s, f, pc).nodes == s.nodes[f := s.nodes[f].(pc := pc)]
  {
    assert Idx(p) in s.hier && Idx(f) in s.hier;
    if s.nodes[f].parent in s.nodes {
      var q := s.nodes[f].parent;
      assert Idx(q) in s.hier && Idx(f) != Idx(q);
      assert p != q ==> Idx(p) != Idx(q);
    }
    hide Idx, TypeOf, Shape;
  }

  lemma MutatedShape(s: St, f: nat, pc: Props)
    requires Shape(s) && Writable(s, f)
    ensures Shape(Mutated(s, f, pc))
  {
    hide Idx, TypeOf;
  }

  /** Writing a dirty folder's properties with the right flag and counters settles it. */
  lemma MutatedSettles(s: St, dirty: set<nat>, f: nat, pc: Props)
    requires Shape(s) && Almost(s, dirty) && f in s.nodes && (f == ROOT || s.nodes[f].parent != f)
    requires Tallied(s, f, pc)
    requires f != ROOT ==> f in Hier(s, s.nodes[f].parent) || s.nodes[f].parent in dirty
    ensures Writable(s, f) && Shape(Mutated(s, f, pc)) && Almost(Mutated(s, f, pc), dirty - {f})
  {
    MutatedRewrites(s, f, pc);
    hide Shape, Listed, RowsRight, Tallied, Mutated, Hier, Rewrote, Writable, Idx;
    var s' := Mutated(s, f, pc);
    RewroteNodes(s, s', f, pc);
    forall p | p in s.nodes
      ensures Listed(s', p) && RowsRight(s', dirty - {f}, p)
      ensures p !in dirty - {f} ==> Tallied(s', p, s'.nodes[p].pc)
    {
      RewroteRows(s, s', dirty, f, pc, p);
      RewroteTally(s, s', dirty, f, pc, p);
    }
  }

  lemma RewroteNodes(s: St, s': St, f: nat, pc: Props)
    requires Rewrote(s, s', f, pc)
    ensures f in s.nodes && s'.nodes.Keys == s.nodes.Keys && s'.msgs == s.msgs
    ensures s'.nodes == s.nodes[f := s.nodes[f].(pc := pc)]
  {
    hide Hier, Contents;
  }

  lemma RewroteRows(s: St, s': St, dirty: set<nat>, f: nat, pc: Props, p: nat)
    requires Rewrote(s, s', f, pc) && p in s.nodes && RowsRight(s, dirty, p) && s.nodes[f].parent != f
    requires forall c | IsKid(s, p, c) && Hier(s, c) == map[] && c == s.nodes[f].parent ::
               c in dirty || f in Hier(s, c)
    ensures RowsRight(s', dirty - {f}, p)
  {
    hide Hier, Contents;
  }

  lemma RewroteTally(s: St, s': St, dirty: set<nat>, f: nat, pc: Props, p: nat)
    requires Rewrote(s, s', f, pc) && p in s.nodes && Listed(s, p) && s.nodes[f].parent != f
    requires if p == f then Tallied(s, f, pc) else p !in dirty ==> Tallied(s, p, s.nodes[p].pc)
    requires f in Hier(s, p) || p != s.nodes[f].parent || p in dirty
    ensures Listed(s', p) && (p !in dirty - {f} ==> Tallied(s', p, s'.nodes[p].pc))
  {
    hide Hier, Contents;
    assert MsgsIn(s', p) == MsgsIn(s, p) && UnreadIn(s', p) == UnreadIn(s, p);
  }

  // ---------- the operations, as the states they leave ----------

  /** The new folder's property context and its three empty tables. */
  function WithFolder(s: St, p: nat, nid: nat, name: string, now: nat): St {
    s.(nodes := s.nodes[nid := Folder(p, Props(name, 0, 0, false, now, nid, now), 0)],
       hier := s.hier[Idx(nid) := map[]],
       contents := s.contents[Idx(nid) := map[]],
       fai := s.fai[Idx(nid) := {}])
  }

  /** createLocked, once its checks have passed. */
  function Created(s: St, p: nat, nid: nat, name: string, now: nat): St
    requires Writable(s, p) && Idx(p) in s.hier && p != nid && s.nodes[p].parent != nid
  {
    Synced(Upserted(WithFolder(s, p, nid, name, now), p, nid), p, now)
  }

  /** renameLocked, once its checks have passed. */
  function Renamed(s: St, nid: nat, name: string, now: nat): St
    requires Writable(s, nid)
  {
    Mutated(s, nid, s.nodes[nid].pc.(name := name, modified := now))
  }

  function Reparented(s: St, nid: nat, p: nat): St
    requires nid in s.nodes
  {
    s.(nodes := s.nodes[nid := s.nodes[nid].(parent := p)])
  }

  /** deleteLocked on a folder with no rows left: its row, its tables, its node. */
  function Dropped(s: St, p: nat, nid: nat): St
    requires Idx(p) in s.hier
  {
    var w := RowRemoved(s, p, nid);
    w.(nodes := w.nodes - {nid}, hier := w.hier - {Idx(nid)}, contents := w.contents - {Idx(nid)},
       fai := w.fai - {Idx(nid)})
  }

  /** The message node and its contents row. */
  function WithMessage(s: St, f: nat, m: nat, read: bool): St
    requires Idx(f) in s.contents
  {
    var t: map<nat, bool> := s.contents[Idx(f)];
    s.(msgs := s.msgs[m := Msg(f, read)], contents := s.contents[Idx(f) := t[m := read]])
  }

  function WithoutMessage(s: St, f: nat, m: nat): St
    requires Idx(f) in s.contents
  {
    s.(msgs := s.msgs - {m}, contents := s.contents[Idx(f) := s.contents[Idx(f)] - {m}])
  }

  function Clamp(n: int): int {
    if n < 0 then 0 else n
  }

  /** adjustCounts. */
  function Adjusted(s: St, f: nat, dContent: int, dUnread: int, now: nat): St
    requires Writable(s, f)
  {
    var pc := s.nodes[f].pc;
    Mutated(s, f, pc.(content := Clamp(pc.content + dContent), unread := Clamp(pc.unread + dUnread), modified := now))
  }

  // ---------- what each operation keeps ----------

  /** No folder uses this NID index, so its related tables are nobody's. */
  ghost predicate FreeIndex(s: St, index: nat) {
    forall f | f in s.nodes :: Idx(f) != index
  }

  /** Siblings have names that differ by more than case. */
  ghost predicate Distinct(s: St, fold: string -> string) {
    forall a, b | a in s.nodes && b in s.nodes && a != b && s.nodes[a].parent == s.nodes[b].parent ::
      fold(s.nodes[a].pc.name) != fold(s.nodes[b].pc.name)
  }

  /** A child of `p` other than `except_` already has this name. */
  ghost predicate Clash(s: St, fold: string -> string, p: nat, name: string, except_: nat) {
    exists c | IsKid(s, p, c) && c != except_ :: fold(s.nodes[c].pc.name) == fold(name)
  }

  /** No folder below the root is its own parent. */
  ghost predicate Proper(s: St) {
    forall f | f in s.nodes && f != ROOT :: s.nodes[f].parent != f
  }

  /** `q` has its row, whatever the row says, and its counters are right: only its flag may lag. */
  ghost predicate Ready(s: St, q: nat) {
    && q in s.nodes && Counted(s, q, s.nodes[q].pc)
    && (q == ROOT || (s.nodes[q].parent in s.nodes && s.nodes[q].parent != q && q in Hier(s, s.nodes[q].parent)))
  }

  lemma CoherentReady(s: St, q: nat)
    requires Coherent(s) && Proper(s) && q in s.nodes
    ensures Ready(s, q) && Shape(s) && Almost(s, {})
  {
    CoherentFacts(s, q);
    hide Hier, Counted, Shape, Listed, Tallied;
  }

  /** A rewrite of another folder drops no row and changes no count. */
  lemma RewroteReady(s: St, s': St, f: nat, pc: Props, q: nat)
    requires Rewrote(s, s', f, pc) && Ready(s, q) && q != f
    ensures Ready(s', q) && s'.nodes[q] == s.nodes[q]
  {
    hide Hier, Contents;
    assert MsgsIn(s', q) == MsgsIn(s, q) && UnreadIn(s', q) == UnreadIn(s, q);
  }

  /** syncFlags settles a folder whose flag may lag. */
  lemma SyncedSettles(s: St, dirty: set<nat>, f: nat, now: nat)
    requires Shape(s) && Almost(s, dirty) && Ready(s, f)
    ensures Writable(s, f) && Shape(Synced(s, f, now)) && Almost(Synced(s, f, now), dirty - {f})
    ensures Rewrote(s, Synced(s, f, now), f, s.nodes[f].pc.(subfolders := Hier(s, f) != map[], modified := now))
  {
    var pc := s.nodes[f].pc.(subfolders := Hier(s, f) != map[], modified := now);
    assert Counted(s, f, pc);
    assert f in s.nodes && (f != ROOT ==> s.nodes[f].parent != f && f in Hier(s, s.nodes[f].parent));
    hide Shape, Almost, Ready, Rewrote, Mutated, Writable, Hier, Counted;
    MutatedSettles(s, dirty, f, pc);
    MutatedRewrites(s, f, pc);
  }

  function Touch(fo: Folder, flag: bool, now: nat): Folder {
    fo.(pc := fo.pc.(subfolders := flag, modified := now))
  }

  /** A new folder at `nid` under `p`, listed in its parent's table. */
  ghost predicate Grew(s: St, w: St, p: nat, nid: nat, fo: Folder) {
    && w.nodes == s.nodes[nid := fo] && w.msgs == s.msgs
    && (forall q | q in s.nodes :: Contents(w, q) == Contents(s, q))
    && (forall q | q in s.nodes :: Hier(w, q) == if q == p then Hier(s, q)[nid := fo.pc] else Hier(s, q))
    && Contents(w, nid) == map[] && Hier(w, nid) == map[]
  }

  function NewFolder(p: nat, nid: nat, name: string, now: nat): Folder {
    Folder(p, Props(name, 0, 0, false, now, nid, now), 0)
  }

  function Grown(s: St, p: nat, nid: nat, name: string, now: nat): St
    requires Idx(p) in s.hier
  {
    Upserted(WithFolder(s, p, nid, name, now), p, nid)
  }

  lemma GrownShape(s: St, p: nat, nid: nat, name: string, now: nat)
    requires Shape(s) && p in s.nodes && Idx(p) in s.hier && FreeIndex(s, Idx(nid)) && nid > 0 &&
      TypeOf(nid) == NORMAL_FOLDER
    ensures Shape(Grown(s, p, nid, name, now)) && nid !in s.nodes
    ensures forall m | m in s.msgs :: s.msgs[m].folder in s.nodes
    ensures forall f | f in s.nodes :: s.nodes[f].parent != nid
  {
    hide TypeOf, Idx;
  }

  lemma GrownAt(s: St, p: nat, nid: nat, name: string, now: nat, q: nat)
    requires p in s.nodes && q in s.nodes && Idx(p) != Idx(nid) && Idx(q) != Idx(nid) &&
      (p != q ==> Idx(p) != Idx(q)) && nid != p
    requires Idx(p) in s.hier
    ensures Contents(Grown(s, p, nid, name, now), q) == Contents(s, q)
    ensures Hier(Grown(s, p, nid, name, now), q) ==
      if q == p then Hier(s, q)[nid := NewFolder(p, nid, name, now).pc] else Hier(s, q)
  {
    hide TypeOf, Idx;
  }

  lemma IdxApart(s: St, p: nat, q: nat)
    requires Shape(s) && p in s.nodes && q in s.nodes && p != q
    ensures Idx(p) != Idx(q)
  {
    hide Idx, TypeOf;
  }

  lemma GrownGrows(s: St, p: nat, nid: nat, name: string, now: nat)
    requires Shape(s) && p in s.nodes && Idx(p) in s.hier && FreeIndex(s, Idx(nid))
    ensures Grew(s, Grown(s, p, nid, name, now), p, nid, NewFolder(p, nid, name, now))
  {
    hide TypeOf, Idx, Shape;
    assert Idx(p) != Idx(nid);
    forall q | q in s.nodes
      ensures Contents(Grown(s, p, nid, name, now), q) == Contents(s, q)
      ensures Hier(Grown(s, p, nid, name, now), q) ==
        if q == p then Hier(s, q)[nid := NewFolder(p, nid, name, now).pc] else Hier(s, q)
    {
      assert Idx(q) != Idx(nid);
      hide Contents, Hier, Grown, FreeIndex;
      if q != p {
        IdxApart(s, p, q);
      }
      GrownAt(s, p, nid, name, now, q);
    }
    GrownBase(s, p, nid, name, now);
    hide Contents, Hier, FreeIndex, Grown;
  }

  lemma GrownBase(s: St, p: nat, nid: nat, name: string, now: nat)
    requires Idx(p) in s.hier && Idx(p) != Idx(nid)
    ensures var w := Grown(s, p, nid, name, now);
      w.nodes == s.nodes[nid := NewFolder(p, nid, name, now)] && w.msgs == s.msgs && Contents(w, nid) == map[] &&
        Hier(w, nid) == map[]
  {
    hide Idx;
  }

  lemma GrewRows(s: St, w: St, p: nat, nid: nat, fo: Folder, q: nat)
    requires Grew(s, w, p, nid, fo) && nid !in s.nodes && p in s.nodes && q in w.nodes
    requires q != nid ==> RowsRight(s, {}, q)
    requires fo.parent == p && !fo.pc.subfolders
    requires forall f | f in s.nodes :: s.nodes[f].parent != nid
    ensures RowsRight(w, {p}, q)
  {
    hide Hier, Contents;
  }

  lemma GrewTally(s: St, w: St, p: nat, nid: nat, fo: Folder, q: nat)
    requires Grew(s, w, p, nid, fo) && nid !in s.nodes && p in s.nodes && q in w.nodes
    requires q != nid ==> Listed(s, q) && Tallied(s, q, s.nodes[q].pc)
    requires fo.pc.content == 0 && fo.pc.unread == 0 && !fo.pc.subfolders
    requires forall m | m in s.msgs :: s.msgs[m].folder in s.nodes
    ensures Listed(w, q) && Counted(w, q, w.nodes[q].pc) && (q != p ==> Tallied(w, q, w.nodes[q].pc))
  {
    hide Hier, Contents;
    assert MsgsIn(w, q) == MsgsIn(s, q) && UnreadIn(w, q) == UnreadIn(s, q);
    assert q == nid ==> MsgsIn(w, q) == {} && UnreadIn(w, q) == {};
  }

  lemma GrewAlmost(s: St, w: St, p: nat, nid: nat, fo: Folder)
    requires Grew(s, w, p, nid, fo) && Almost(s, {}) && nid !in s.nodes && p in s.nodes
    requires fo.parent == p && fo.pc.content == 0 && fo.pc.unread == 0 && !fo.pc.subfolders
    requires forall m | m in s.msgs :: s.msgs[m].folder in s.nodes
    requires forall f | f in s.nodes :: s.nodes[f].parent != nid
    requires p != ROOT ==> s.nodes[p].parent in s.nodes && s.nodes[p].parent != p
    ensures Almost(w, {p}) && Ready(w, p) && nid in Hier(w, p)
  {
    hide RowsRight, Listed, Tallied, Counted, Grew, Hier, Almost, Ready;
    GrewNodes(s, w, p, nid, fo);
    forall q | q in w.nodes
      ensures RowsRight(w, {p}, q) && Listed(w, q) && Counted(w, q, w.nodes[q].pc) &&
        (q != p ==> Tallied(w, q, w.nodes[q].pc))
    {
      if q != nid {
        AlmostAt(s, {}, q);
      }
      GrewRows(s, w, p, nid, fo, q);
      GrewTally(s, w, p, nid, fo, q);
    }
    AlmostFrom(w, {p});
    if p != ROOT {
      AlmostAt(s, {}, s.nodes[p].parent);
    }
    OwnRow(s, w, p, nid, fo);
  }

  lemma AlmostAt(s: St, dirty: set<nat>, q: nat)
    requires Almost(s, dirty) && q in s.nodes
    ensures RowsRight(s, dirty, q) && Listed(s, q) && (q !in dirty ==> Tallied(s, q, s.nodes[q].pc))
  {
    hide RowsRight, Listed, Tallied;
  }

  lemma AlmostFrom(w: St, dirty: set<nat>)
    requires forall q | q in w.nodes ::
      RowsRight(w, dirty, q) && Listed(w, q) && (q !in dirty ==> Tallied(w, q, w.nodes[q].pc))
    ensures Almost(w, dirty)
  {
    hide RowsRight, Listed, Tallied;
  }

  lemma OwnRow(s: St, w: St, p: nat, nid: nat, fo: Folder)
    requires Grew(s, w, p, nid, fo) && p in s.nodes && p != nid && Counted(w, p, s.nodes[p].pc)
    requires p != ROOT ==> s.nodes[p].parent in s.nodes && s.nodes[p].parent != p && RowsRight(s, {}, s.nodes[p].parent)
    ensures Ready(w, p) && nid in Hier(w, p)
  {
    assert p != ROOT ==> IsKid(s, s.nodes[p].parent, p);
    hide Hier, Contents, Counted;
  }

  /** Looking a coherent folder up never fails. */
  lemma Reachable(s: St, p: nat)
    requires Shape(s) && p in s.nodes
    ensures Writable(s, p) && Idx(p) in s.hier && Idx(p) in s.contents && Idx(p) in s.fai
    ensures p != ROOT ==> s.nodes[p].parent in s.nodes && s.nodes[p].parent > 0
    ensures 0 !in s.nodes && ROOT in s.nodes && s.nodes[ROOT].parent == 0
  {
    hide Idx, TypeOf;
  }

  /** What Create relies on: every folder has three tables and an existing parent, whoever else may use the tables. */
  ghost predicate Standing(s: St) {
    && ROOT in s.nodes && s.nodes[ROOT].parent == 0
    && (forall f | f in s.nodes :: f > 0 && (TypeOf(f) == NORMAL_FOLDER || TypeOf(f) == SEARCH_FOLDER))
    && (forall f | f in s.nodes :: Idx(f) in s.hier && Idx(f) in s.contents && Idx(f) in s.fai)
    && forall f | f in s.nodes && f != ROOT :: s.nodes[f].parent in s.nodes
  }

  lemma ShapeStands(s: St)
    requires Shape(s)
    ensures Standing(s)
  {
    hide Idx, TypeOf;
  }

  lemma Stands(s: St, p: nat)
    requires Standing(s) && p in s.nodes
    ensures Writable(s, p) && Idx(p) in s.hier && Idx(p) in s.contents && Idx(p) in s.fai
    ensures p != ROOT ==> s.nodes[p].parent in s.nodes && s.nodes[p].parent > 0
    ensures 0 !in s.nodes && ROOT in s.nodes && s.nodes[ROOT].parent == 0
  {
    hide Idx, TypeOf;
  }

  lemma MutatedStands(s: St, f: nat, pc: Props)
    requires Standing(s) && Writable(s, f)
    ensures Standing(Mutated(s, f, pc)) && Mutated(s, f, pc).nodes.Keys == s.nodes.Keys
  {
    hide Idx, TypeOf, Hier;
  }

  lemma SyncedStands(s: St, f: nat, now: nat)
    requires Standing(s) && Writable(s, f)
    ensures Standing(Synced(s, f, now)) && Synced(s, f, now).nodes.Keys == s.nodes.Keys
  {
    MutatedStands(s, f, s.nodes[f].pc.(subfolders := Hier(s, f) != map[], modified := now));
    hide Standing, Mutated, Hier;
  }

  lemma RemovedStands(s: St, o: nat, nid: nat, p: nat)
    requires Standing(s) && nid in s.nodes && p in s.nodes && nid != ROOT && Idx(o) in s.hier
    ensures nid in RowRemoved(s, o, nid).nodes && RowRemoved(s, o, nid).nodes == s.nodes
    ensures Standing(Reparented(RowRemoved(s, o, nid), nid, p))
    ensures Reparented(RowRemoved(s, o, nid), nid, p).nodes.Keys == s.nodes.Keys
  {
    hide Idx, TypeOf;
  }

  lemma RowIn(s: St, p: nat, c: nat)
    requires c in Hier(s, p)
    ensures Idx(p) in s.hier && c in s.hier[Idx(p)]
  {
  }

  lemma RootStands(s: St)
    requires Standing(s)
    ensures ROOT in s.nodes && s.nodes[ROOT].parent == 0 && 0 !in s.nodes
  {
    hide Idx, TypeOf;
  }

  /** The hierarchy table of `p` has a row of this name. */
  ghost predicate RowClash(s: St, fold: string -> string, p: nat, name: string, except_: nat) {
    exists c | c in Hier(s, p) && c != except_ :: fold(Hier(s, p)[c].name) == fold(name)
  }

  lemma CoherentClash(s: St, fold: string -> string, p: nat, name: string, except_: nat)
    requires Coherent(s) && p in s.nodes
    ensures RowClash(s, fold, p, name, except_) <==> Clash(s, fold, p, name, except_)
  {
    CoherentRows(s, p);
    hide Coherent, Hier;
    if c :| IsKid(s, p, c) && c != except_ && fold(s.nodes[c].pc.name) == fold(name) {
      assert c in Hier(s, p);
    }
  }

  /** Create leaves everything agreeing, provided the index was free; the parent now has a child. */
  lemma CreatedCoherent(s: St, p: nat, nid: nat, name: string, now: nat)
    requires Coherent(s) && Proper(s) && p in s.nodes && FreeIndex(s, Idx(nid)) && nid > 0 &&
      TypeOf(nid) == NORMAL_FOLDER
    ensures Writable(s, p) && Idx(p) in s.hier && p != nid && s.nodes[p].parent != nid
    ensures Coherent(Created(s, p, nid, name, now)) && Created(s, p, nid, name, now).msgs == s.msgs
    ensures Created(s, p, nid, name,
                    now).nodes == s.nodes[nid := NewFolder(p, nid, name, now)][p := Touch(s.nodes[p], true, now)]
  {
    Reachable(s, p);
    var w := Grown(s, p, nid, name, now);
    var fo := NewFolder(p, nid, name, now);
    GrownShape(s, p, nid, name, now);
    GrownGrows(s, p, nid, name, now);
    assert Synced(w, p, now) == Created(s, p, nid, name, now);
    hide Shape, Hier, Grew, Grown, Ready, Writable, FreeIndex, Created, Synced, Idx, TypeOf, Rewrote, WithFolder,
         Upserted, Almost;
    GrewAlmost(s, w, p, nid, fo);
    GrewNodes(s, w, p, nid, fo);
    SyncedSettles(w, {p}, p, now);
    SyncedNodes(w, p, now);
    assert {p} - {p} == {} && Hier(w, p) != map[];
  }

  lemma GrewNodes(s: St, w: St, p: nat, nid: nat, fo: Folder)
    requires Grew(s, w, p, nid, fo)
    ensures w.nodes == s.nodes[nid := fo] && w.msgs == s.msgs
  {
    hide Hier, Contents;
  }

  // ---------- rename ----------

  lemma RenamedCoherent(s: St, nid: nat, name: string, now: nat)
    requires Coherent(s) && nid in s.nodes && (nid == ROOT || s.nodes[nid].parent != nid)
    ensures Writable(s, nid) && Coherent(Renamed(s, nid, name, now)) && Renamed(s, nid, name, now).msgs == s.msgs
    ensures Renamed(s, nid, name, now).nodes ==
            s.nodes[nid := s.nodes[nid].(pc := s.nodes[nid].pc.(name := name, modified := now))]
  {
    Reachable(s, nid);
    var pc := s.nodes[nid].pc.(name := name, modified := now);
    assert Renamed(s, nid, name, now) == Mutated(s, nid, pc);
    CoherentFacts(s, nid);
    assert Tallied(s, nid, pc);
    hide Shape, Hier, Counted, Tallied, Writable, Renamed, Mutated, Idx, Rewrote;
    AlmostMore(s, {}, {nid});
    MutatedSettles(s, {nid}, nid, pc);
    MutatedRewrites(s, nid, pc);
    RewroteNodes(s, Mutated(s, nid, pc), nid, pc);
    assert {nid} - {nid} == {};
    hide Almost;
  }

  lemma CoherentFacts(s: St, p: nat)
    requires Coherent(s) && p in s.nodes
    ensures RowsRight(s, {}, p) && Listed(s, p) && Tallied(s, p, s.nodes[p].pc) && Counted(s, p, s.nodes[p].pc)
    ensures p != ROOT ==> s.nodes[p].parent in s.nodes && p in Hier(s, s.nodes[p].parent)
    ensures Almost(s, {}) && Shape(s)
  {
    hide Hier, Counted, Listed, Idx, TypeOf;
    assert p != ROOT ==> IsKid(s, s.nodes[p].parent, p);
  }

  lemma AlmostMore(s: St, dirty: set<nat>, more: set<nat>)
    requires Almost(s, dirty) && dirty <= more
    ensures Almost(s, more)
  {
    hide Hier, Listed, Tallied;
  }

  // ---------- move ----------

  /** The folder hangs under `p`; its old parent no longer lists it and its new one does not yet. */
  ghost predicate Unhooked(s: St, w: St, nid: nat, p: nat) {
    && nid in s.nodes && w.nodes == s.nodes[nid := s.nodes[nid].(parent := p)] && w.msgs == s.msgs
    && (forall q | q in s.nodes :: Contents(w, q) == Contents(s, q))
    && forall q | q in s.nodes :: Hier(w, q) == if q == s.nodes[nid].parent then Hier(s, q) - {nid} else Hier(s, q)
  }

  /** removeChildRow on the old parent, then SetParent. */
  function Relinked(s: St, nid: nat, p: nat): St
    requires nid in s.nodes && Idx(s.nodes[nid].parent) in s.hier
  {
    Reparented(RowRemoved(s, s.nodes[nid].parent, nid), nid, p)
  }

  lemma RelinkedAt(s: St, nid: nat, p: nat, q: nat)
    requires nid in s.nodes && q in s.nodes && Idx(s.nodes[nid].parent) in s.hier
    requires q != s.nodes[nid].parent ==> Idx(q) != Idx(s.nodes[nid].parent)
    ensures Contents(Relinked(s, nid, p), q) == Contents(s, q)
    ensures Hier(Relinked(s, nid, p), q) == if q == s.nodes[nid].parent then Hier(s, q) - {nid} else Hier(s, q)
  {
    hide Idx;
  }

  lemma RelinkedUnhooks(s: St, nid: nat, p: nat)
    requires Shape(s) && nid in s.nodes && nid != ROOT && Idx(s.nodes[nid].parent) in s.hier
    ensures Unhooked(s, Relinked(s, nid, p), nid, p)
  {
    var old_ := s.nodes[nid].parent;
    assert old_ in s.nodes;
    forall q | q in s.nodes
      ensures Contents(Relinked(s, nid, p), q) == Contents(s, q)
      ensures Hier(Relinked(s, nid, p), q) == if q == old_ then Hier(s, q) - {nid} else Hier(s, q)
    {
      assert q != old_ ==> Idx(q) != Idx(old_);
      hide Shape;
      RelinkedAt(s, nid, p, q);
    }
    hide Idx, TypeOf, Hier, Contents, Shape;
  }

  lemma RelinkedShape(s: St, nid: nat, p: nat)
    requires Shape(s) && nid in s.nodes && nid != ROOT && Idx(s.nodes[nid].parent) in s.hier && p in s.nodes
    ensures Shape(Relinked(s, nid, p))
  {
    hide Idx, TypeOf;
  }

  lemma UnhookedRows(s: St, w: St, nid: nat, p: nat, q: nat)
    requires Unhooked(s, w, nid, p) && q in s.nodes && RowsRight(s, {}, q)
    ensures RowsRight(w, {nid, s.nodes[nid].parent, p}, q)
  {
    hide Hier, Contents;
  }

  lemma UnhookedTally(s: St, w: St, nid: nat, p: nat, q: nat)
    requires Unhooked(s, w, nid, p) && q in s.nodes && Listed(s, q) && Tallied(s, q, s.nodes[q].pc)
    ensures Listed(w, q) && Counted(w, q, w.nodes[q].pc) && (q != s.nodes[nid].parent ==> Tallied(w, q, w.nodes[q].pc))
  {
    hide Hier, Contents;
    assert MsgsIn(w, q) == MsgsIn(s, q) && UnreadIn(w, q) == UnreadIn(s, q);
  }

  lemma UnhookedAlmost(s: St, w: St, nid: nat, p: nat)
    requires Unhooked(s, w, nid, p) && Almost(s, {}) && p in s.nodes && s.nodes[nid].parent in s.nodes
    ensures Almost(w, {nid, s.nodes[nid].parent, p}) && w.nodes.Keys == s.nodes.Keys
    ensures forall q | q in s.nodes ::
      Counted(w, q, w.nodes[q].pc) && (q != s.nodes[nid].parent ==> Tallied(w, q, w.nodes[q].pc))
  {
    assert w.nodes.Keys == s.nodes.Keys by {
      hide Hier, Contents;
    }
    assert forall q | q in s.nodes :: RowsRight(s, {}, q) && Listed(s, q) && Tallied(s, q, s.nodes[q].pc);
    hide RowsRight, Listed, Tallied, Counted, Unhooked, Hier, Almost;
    forall q | q in w.nodes
      ensures RowsRight(w, {nid, s.nodes[nid].parent, p}, q) && Listed(w, q) && Counted(w, q, w.nodes[q].pc)
      ensures q != s.nodes[nid].parent ==> Tallied(w, q, w.nodes[q].pc)
    {
      UnhookedRows(s, w, nid, p, q);
      UnhookedTally(s, w, nid, p, q);
    }
    AlmostFrom(w, {nid, s.nodes[nid].parent, p});
  }

  lemma UnhookedReady(s: St, w: St, nid: nat, p: nat, q: nat)
    requires Unhooked(s, w, nid, p) && Ready(s, q) && q != nid
    ensures Ready(w, q) && w.nodes[q] == s.nodes[q]
  {
    hide Hier, Contents;
    assert MsgsIn(w, q) == MsgsIn(s, q) && UnreadIn(w, q) == UnreadIn(s, q);
  }

  /** mutatePC on the moved folder: its row appears under the new parent. */
  function Rehooked(s: St, nid: nat, p: nat, now: nat): St
    requires nid in s.nodes && Idx(s.nodes[nid].parent) in s.hier && Writable(Relinked(s, nid, p), nid)
  {
    var w := Relinked(s, nid, p);
    Mutated(w, nid, w.nodes[nid].pc.(modified := now))
  }

  lemma RelinkedReady(s: St, nid: nat, p: nat)
    requires Coherent(s) && Proper(s) && nid in s.nodes && nid != ROOT && p in s.nodes && p != nid
    ensures var o := s.nodes[nid].parent; o in s.nodes && o != nid && Idx(o) in s.hier
    ensures var o := s.nodes[nid].parent; var w := Relinked(s, nid, p);
      && Shape(w) && Almost(w, {nid, o, p}) && w.msgs == s.msgs && w.nodes == s.nodes[nid := s.nodes[nid].(parent := p)]
      && Ready(w, o) && Ready(w, p) && Tallied(w, nid, s.nodes[nid].pc)
  {
    Reachable(s, nid);
    var o := s.nodes[nid].parent;
    Reachable(s, o);
    var w := Relinked(s, nid, p);
    assert o != nid;
    RelinkedShape(s, nid, p);
    RelinkedUnhooks(s, nid, p);
    CoherentReady(s, o);
    CoherentReady(s, p);
    hide Shape, Hier, Ready, Tallied, Counted, Idx, TypeOf, Relinked, Almost, Unhooked, Proper, Writable;
    UnhookedAlmost(s, w, nid, p);
    UnhookedNodes(s, w, nid, p);
    UnhookedReady(s, w, nid, p, o);
    UnhookedReady(s, w, nid, p, p);
  }

  lemma RehookedNodes(s: St, nid: nat, p: nat, now: nat)
    requires nid in s.nodes && Idx(s.nodes[nid].parent) in s.hier && Writable(Relinked(s, nid, p), nid)
    ensures Rehooked(s, nid, p, now).msgs == s.msgs
    ensures Rehooked(s, nid, p,
                     now).nodes == s.nodes[nid := s.nodes[nid].(parent := p, pc := s.nodes[nid].pc.(modified := now))]
  {
    hide Idx, Hier;
  }

  lemma RehookedAlmost(s: St, nid: nat, p: nat, now: nat)
    requires Coherent(s) && Proper(s) && nid in s.nodes && nid != ROOT && p in s.nodes && p != nid
    ensures Idx(s.nodes[nid].parent) in s.hier && Writable(Relinked(s, nid, p), nid)
    ensures var r := Rehooked(s, nid, p, now); var o := s.nodes[nid].parent;
      Shape(r) && Almost(r, {o, p}) && Ready(r, o) && Ready(r, p)
  {
    var o := s.nodes[nid].parent;
    var w := Relinked(s, nid, p);
    RelinkedReady(s, nid, p);
    hide Shape, Ready, Almost, Tallied, Proper, Idx, TypeOf, Hier;
    assert Writable(w, nid) by {
      Reachable(w, nid);
    }
    assert w.nodes[nid] == s.nodes[nid].(parent := p);
    var pc := w.nodes[nid].pc.(modified := now);
    var r := Mutated(w, nid, pc);
    assert r == Rehooked(s, nid, p, now);
    hide Relinked, Writable, Rehooked, Mutated;
    MoveSettles(w, r, nid, o, p, pc, now);
  }

  lemma MoveSettles(w: St, r: St, nid: nat, o: nat, p: nat, pc: Props, now: nat)
    requires Shape(w) && Almost(w, {nid, o, p}) && nid in w.nodes && nid != o && nid != p &&
      w.nodes[nid].parent == p && nid != ROOT
    requires pc == w.nodes[nid].pc.(modified := now) && Tallied(w, nid, w.nodes[nid].pc)
    requires Ready(w, o) && Ready(w, p) && Writable(w, nid) && r == Mutated(w, nid, pc)
    ensures Shape(r) && Almost(r, {o, p}) && Ready(r, o) && Ready(r, p)
  {
    hide Shape, Ready, Tallied, Almost, Writable, Rewrote, Mutated, Hier, Idx, TypeOf;
    TalliedModified(w, nid, w.nodes[nid].pc, now);
    MutatedSettles(w, {nid, o, p}, nid, pc);
    MutatedRewrites(w, nid, pc);
    RewroteReady(w, r, nid, pc, o);
    RewroteReady(w, r, nid, pc, p);
    assert {nid, o, p} - {nid} == {o, p};
  }

  lemma UnhookedNodes(s: St, w: St, nid: nat, p: nat)
    requires Unhooked(s, w, nid, p)
    ensures w.nodes == s.nodes[nid := s.nodes[nid].(parent := p)] && w.msgs == s.msgs
  {
    hide Hier, Contents;
  }

  lemma TalliedModified(s: St, f: nat, pc: Props, now: nat)
    requires Tallied(s, f, pc)
    ensures Tallied(s, f, pc.(modified := now))
  {
    hide Hier, MsgsIn, UnreadIn;
  }

  /** moveLocked, once its checks have passed. */
  function Moved(s: St, nid: nat, p: nat, now: nat): St
    requires nid in s.nodes && Idx(s.nodes[nid].parent) in s.hier && Writable(Relinked(s, nid, p), nid)
    requires Writable(Rehooked(s, nid, p, now), s.nodes[nid].parent)
    requires Writable(Synced(Rehooked(s, nid, p, now), s.nodes[nid].parent, now), p)
  {
    Synced(Synced(Rehooked(s, nid, p, now), s.nodes[nid].parent, now), p, now)
  }

  lemma SyncedReady(s: St, dirty: set<nat>, f: nat, now: nat, q: nat)
    requires Shape(s) && Almost(s, dirty) && Ready(s, f) && Ready(s, q) && q != f
    ensures Writable(s, f) && Ready(Synced(s, f, now), q)
  {
    assert f in s.nodes;
    hide Shape, Hier, Ready, Idx, TypeOf, Almost, Writable, Rewrote, Synced;
    SyncedSettles(s, dirty, f, now);
    RewroteReady(s, Synced(s, f, now), f, s.nodes[f].pc.(subfolders := Hier(s, f) != map[], modified := now), q);
  }

  /** syncFlags on two folders in turn settles both. */
  lemma SettleTwo(r: St, o: nat, p: nat, now: nat)
    requires Shape(r) && Almost(r, {o, p}) && Ready(r, o) && Ready(r, p) && o != p
    ensures Writable(r, o) && Writable(Synced(r, o, now), p)
    ensures Shape(Synced(Synced(r, o, now), p, now)) && Almost(Synced(Synced(r, o, now), p, now), {})
  {
    hide Shape, Hier, Ready, Idx, TypeOf, Almost, Writable, Rewrote, Synced;
    SyncedReady(r, {o, p}, o, now, p);
    SyncedSettles(r, {o, p}, o, now);
    assert {o, p} - {o} == {p};
    SyncedSettles(Synced(r, o, now), {p}, p, now);
    assert {p} - {p} == {};
  }

  ghost predicate Movable(s: St, nid: nat, p: nat) {
    && Coherent(s) && Proper(s) && nid in s.nodes && nid != ROOT && p in s.nodes && p != nid && s.nodes[nid].parent != p
  }

  /** Every lookup Move makes on its way succeeds. */
  lemma MoveLegal(s: St, nid: nat, p: nat, now: nat)
    requires Movable(s, nid, p)
    ensures nid in s.nodes && Idx(s.nodes[nid].parent) in s.hier && Writable(Relinked(s, nid, p), nid)
    ensures Writable(Rehooked(s, nid, p, now), s.nodes[nid].parent)
    ensures Writable(Synced(Rehooked(s, nid, p, now), s.nodes[nid].parent, now), p)
    ensures Coherent(Moved(s, nid, p, now))
  {
    var o := s.nodes[nid].parent;
    RehookedAlmost(s, nid, p, now);
    hide Shape, Hier, Ready, Idx, TypeOf, Relinked, Almost, Writable, Rehooked, Proper, Rewrote, Synced, Movable;
    SettleTwo(Rehooked(s, nid, p, now), o, p, now);
    hide Coherent;
  }

  lemma SyncedNodes(s: St, f: nat, now: nat)
    requires Writable(s, f)
    ensures Synced(s, f, now).msgs == s.msgs
    ensures Synced(s, f, now).nodes == s.nodes[f := Touch(s.nodes[f], Hier(s, f) != map[], now)]
  {
    hide Hier, Idx;
  }

  /** The moved folder under its new parent; the two parents with new flags and times; nothing else. */
  ghost predicate MovedNodes(n: map<nat, Folder>, m: map<nat, Folder>, nid: nat, p: nat, now: nat) {
    && nid in n && p in n && n[nid].parent in n && m.Keys == n.Keys
    && m[nid] == n[nid].(parent := p, pc := n[nid].pc.(modified := now))
    && (forall f | f in {n[nid].parent, p} :: m[f] == Touch(n[f], m[f].pc.subfolders, now))
    && forall f | f in n && f !in {nid, n[nid].parent, p} :: m[f] == n[f]
  }

  lemma MovedNodesHold(n: map<nat, Folder>, r: map<nat, Folder>, nid: nat, p: nat, x: bool, y: bool, now: nat)
    requires nid in n && p in n && n[nid].parent in n && n[nid].parent != p && n[nid].parent != nid && p != nid
    requires r == n[nid := n[nid].(parent := p, pc := n[nid].pc.(modified := now))]
    ensures var b := r[n[nid].parent := Touch(r[n[nid].parent], x, now)];
      MovedNodes(n, b[p := Touch(b[p], y, now)], nid, p, now)
  {
  }

  /** Move leaves everything agreeing: the row goes from one table to the other and both flags follow. */
  lemma MovedCoherent(s: St, nid: nat, p: nat, now: nat)
    requires Movable(s, nid, p)
    ensures nid in s.nodes && Idx(s.nodes[nid].parent) in s.hier && Writable(Relinked(s, nid, p), nid)
    ensures Writable(Rehooked(s, nid, p, now), s.nodes[nid].parent)
    ensures Writable(Synced(Rehooked(s, nid, p, now), s.nodes[nid].parent, now), p)
    ensures Coherent(Moved(s, nid, p, now)) && Moved(s, nid, p, now).msgs == s.msgs
    ensures MovedNodes(s.nodes, Moved(s, nid, p, now).nodes, nid, p, now)
  {
    var o := s.nodes[nid].parent;
    MoveLegal(s, nid, p, now);
    assert o in s.nodes && o != nid && p in s.nodes && o != p && p != nid by {
      Reachable(s, nid);
    }
    var r := Rehooked(s, nid, p, now);
    RehookedNodes(s, nid, p, now);
    hide Shape, Hier, Idx, TypeOf, Almost, Relinked, Writable, Rehooked, Synced, Proper, Coherent, Movable;
    SyncedNodes(r, o, now);
    SyncedNodes(Synced(r, o, now), p, now);
    MovedNodesHold(s.nodes, r.nodes, nid, p, Hier(r, o) != map[], Hier(Synced(r, o, now), p) != map[], now);
    hide MovedNodes;
  }


  // ---------- delete ----------

  /** The folder is gone, and its row from its parent's table. */
  ghost predicate Cut(s: St, w: St, nid: nat) {
    && nid in s.nodes && w.nodes == s.nodes - {nid} && w.msgs == s.msgs
    && (forall q | q in w.nodes :: Contents(w, q) == Contents(s, q))
    && forall q | q in w.nodes :: Hier(w, q) == if q == s.nodes[nid].parent then Hier(s, q) - {nid} else Hier(s, q)
  }

  lemma DroppedAt(s: St, p: nat, nid: nat, q: nat)
    requires Idx(p) in s.hier && Idx(q) != Idx(nid) && (p != q ==> Idx(p) != Idx(q))
    ensures Contents(Dropped(s, p, nid), q) == Contents(s, q)
    ensures Hier(Dropped(s, p, nid), q) == if q == p then Hier(s, q) - {nid} else Hier(s, q)
  {
    hide Idx;
  }

  lemma DroppedCuts(s: St, nid: nat)
    requires Shape(s) && nid in s.nodes && s.nodes[nid].parent in s.nodes && Idx(s.nodes[nid].parent) in s.hier
    ensures Cut(s, Dropped(s, s.nodes[nid].parent, nid), nid)
  {
    hide TypeOf, Idx, Shape;
    var p := s.nodes[nid].parent;
    var w := Dropped(s, p, nid);
    assert w.nodes == s.nodes - {nid} && w.msgs == s.msgs;
    hide Dropped;
    forall q | q in w.nodes
      ensures Contents(w, q) == Contents(s, q)
      ensures Hier(w, q) == if q == p then Hier(s, q) - {nid} else Hier(s, q)
    {
      hide Contents, Hier;
      IdxApart(s, q, nid);
      if q != p {
        IdxApart(s, p, q);
      }
      DroppedAt(s, p, nid, q);
    }
    hide Contents, Hier;
  }

  lemma DroppedShape(s: St, nid: nat)
    requires Shape(s) && nid in s.nodes && nid != ROOT && Idx(s.nodes[nid].parent) in s.hier
    requires forall c | c in s.nodes :: s.nodes[c].parent != nid
    requires forall m | m in s.msgs :: s.msgs[m].folder != nid
    ensures Shape(Dropped(s, s.nodes[nid].parent, nid))
  {
    hide TypeOf, Idx;
  }

  lemma CutRows(s: St, w: St, nid: nat, q: nat)
    requires Cut(s, w, nid) && q in w.nodes && RowsRight(s, {}, q) &&
      (forall c | c in s.nodes :: s.nodes[c].parent != nid)
    ensures RowsRight(w, {s.nodes[nid].parent}, q)
  {
    hide Hier, Contents;
  }

  lemma CutTally(s: St, w: St, nid: nat, q: nat)
    requires Cut(s, w, nid) && q in w.nodes && Listed(s, q) && Tallied(s, q, s.nodes[q].pc)
    ensures w.nodes[q] == s.nodes[q] && Listed(w, q) && (q != s.nodes[nid].parent ==> Tallied(w, q, w.nodes[q].pc))
  {
    hide Hier, Contents;
    assert MsgsIn(w, q) == MsgsIn(s, q) && UnreadIn(w, q) == UnreadIn(s, q);
  }

  lemma CutReady(s: St, w: St, nid: nat, q: nat)
    requires Cut(s, w, nid) && Ready(s, q) && q != nid && (q != ROOT ==> s.nodes[q].parent != nid)
    ensures Ready(w, q) && w.nodes[q] == s.nodes[q]
  {
    hide Hier, Contents;
    assert MsgsIn(w, q) == MsgsIn(s, q) && UnreadIn(w, q) == UnreadIn(s, q);
  }

  lemma CutNodes(s: St, w: St, nid: nat)
    requires Cut(s, w, nid)
    ensures w.nodes == s.nodes - {nid} && w.msgs == s.msgs
  {
    hide Hier, Contents;
  }

  /** A folder with no rows and no contents has no children and no messages. */
  lemma NothingInside(s: St, nid: nat)
    requires Coherent(s) && nid in s.nodes && Hier(s, nid) == map[] && Contents(s, nid) == map[]
    ensures forall c | c in s.nodes :: s.nodes[c].parent != nid
    ensures forall m | m in s.msgs :: s.msgs[m].folder != nid
  {
    hide Shape, Almost, Idx, TypeOf;
    AlmostAt(s, {}, nid);
    hide Hier, Contents, Tallied;
    assert forall c | c in s.nodes && s.nodes[c].parent == nid :: IsKid(s, nid, c);
  }

  /** deleteLocked, once the children are gone and its checks have passed. */
  function Removed(s: St, nid: nat, now: nat): St
    requires nid in s.nodes && Idx(s.nodes[nid].parent) in s.hier
    requires Writable(Dropped(s, s.nodes[nid].parent, nid), s.nodes[nid].parent)
  {
    Synced(Dropped(s, s.nodes[nid].parent, nid), s.nodes[nid].parent, now)
  }

  ghost predicate Empty(s: St, nid: nat) {
    Coherent(s) && Proper(s) && nid in s.nodes && nid != ROOT && Hier(s, nid) == map[] && Contents(s, nid) == map[]
  }

  /** Delete leaves everything agreeing; nothing but the parent's flag and time changes elsewhere. */
  lemma RemovedCoherent(s: St, nid: nat, now: nat)
    requires Empty(s, nid)
    ensures nid in s.nodes && Idx(s.nodes[nid].parent) in s.hier && s.nodes[nid].parent in s.nodes
    ensures Writable(Dropped(s, s.nodes[nid].parent, nid), s.nodes[nid].parent)
    ensures Coherent(Removed(s, nid, now)) && Removed(s, nid, now).msgs == s.msgs
    ensures var p := s.nodes[nid].parent; var r := Removed(s, nid, now);
      p in r.nodes && r.nodes == (s.nodes - {nid})[p := Touch(s.nodes[p], r.nodes[p].pc.subfolders, now)]
  {
    Reachable(s, nid);
    var p := s.nodes[nid].parent;
    Reachable(s, p);
    var w := Dropped(s, p, nid);
    assert p != nid && Coherent(s);
    NothingInside(s, nid);
    DroppedCuts(s, nid);
    DroppedShape(s, nid);
    CoherentReady(s, p);
    assert p != ROOT ==> s.nodes[p].parent != nid;
    hide Shape, Ready, Almost, Hier, Contents, Cut, Idx, TypeOf, Dropped, Writable, Synced, Rewrote, Empty, Proper;
    CutAlmost(s, w, nid);
    CutReady(s, w, nid, p);
    CutNodes(s, w, nid);
    SyncedSettles(w, {p}, p, now);
    SyncedNodes(w, p, now);
    assert {p} - {p} == {};
  }

  lemma CutAlmost(s: St, w: St, nid: nat)
    requires Cut(s, w, nid) && Almost(s, {}) && nid in s.nodes && (forall c | c in s.nodes :: s.nodes[c].parent != nid)
    ensures Almost(w, {s.nodes[nid].parent})
  {
    hide RowsRight, Listed, Tallied, Cut, Almost;
    CutNodes(s, w, nid);
    forall q | q in w.nodes
      ensures RowsRight(w, {s.nodes[nid].parent}, q) && Listed(w, q) &&
        (q !in {s.nodes[nid].parent} ==> Tallied(w, q, w.nodes[q].pc))
    {
      AlmostAt(s, {}, q);
      CutRows(s, w, nid, q);
      CutTally(s, w, nid, q);
    }
    AlmostFrom(w, {s.nodes[nid].parent});
  }

  // ---------- messages ----------

  /** Only the messages of `f` and its contents table change. */
  ghost predicate Posted(s: St, w: St, f: nat, m: nat) {
    && w.nodes == s.nodes && (forall q | q in s.nodes :: Hier(w, q) == Hier(s, q))
    && (forall q | q in s.nodes && q != f :: Contents(w, q) == Contents(s, q))
    && (forall x | x != m :: x in w.msgs <==> x in s.msgs)
    && (forall x | x != m && x in s.msgs :: w.msgs[x] == s.msgs[x])
    && (m in s.msgs ==> s.msgs[m].folder == f) && (m in w.msgs ==> w.msgs[m].folder == f)
  }

  lemma PostedRows(s: St, w: St, f: nat, m: nat, q: nat)
    requires Posted(s, w, f, m) && q in s.nodes && RowsRight(s, {}, q)
    ensures RowsRight(w, {f}, q)
  {
    hide Hier, Contents;
  }

  lemma PostedTally(s: St, w: St, f: nat, m: nat, q: nat)
    requires Posted(s, w, f, m) && q in s.nodes && q != f && Listed(s, q) && Tallied(s, q, s.nodes[q].pc)
    ensures w.nodes == s.nodes && Listed(w, q) && Tallied(w, q, w.nodes[q].pc)
  {
    hide Hier, Contents;
    assert MsgsIn(w, q) == MsgsIn(s, q) && UnreadIn(w, q) == UnreadIn(s, q);
  }

  lemma PostedAlmost(s: St, w: St, f: nat, m: nat)
    requires Posted(s, w, f, m) && Almost(s, {}) && Listed(w, f) && w.nodes == s.nodes
    ensures Almost(w, {f})
  {
    hide RowsRight, Listed, Tallied, Posted, Almost;
    forall q | q in w.nodes
      ensures RowsRight(w, {f}, q) && Listed(w, q) && (q !in {f} ==> Tallied(w, q, w.nodes[q].pc))
    {
      AlmostAt(s, {}, q);
      PostedRows(s, w, f, m, q);
      if q != f {
        PostedTally(s, w, f, m, q);
      }
    }
    AlmostFrom(w, {f});
  }

  lemma PostedReady(s: St, w: St, f: nat, m: nat)
    requires Posted(s, w, f, m) && f in s.nodes && Ready(s, f)
    ensures f != ROOT ==> s.nodes[f].parent in s.nodes && s.nodes[f].parent != f && f in Hier(w, s.nodes[f].parent)
    ensures Hier(w, f) == Hier(s, f) && w.nodes == s.nodes
  {
    hide Hier, Contents, Counted;
  }

  lemma PostedSettles(s: St, w: St, f: nat, m: nat, pc: Props)
    requires Coherent(s) && Proper(s) && f in s.nodes && Posted(s, w, f, m) && Shape(w) && Listed(w, f) &&
      Counted(w, f, pc)
    requires pc.subfolders == s.nodes[f].pc.subfolders
    ensures Writable(w, f) && Coherent(Mutated(w, f, pc)) && Mutated(w, f, pc).msgs == w.msgs
    ensures Mutated(w, f, pc).nodes == s.nodes[f := s.nodes[f].(pc := pc)]
  {
    CoherentReady(s, f);
    AlmostAt(s, {}, f);
    PostedReady(s, w, f, m);
    assert Tallied(w, f, pc);
    hide Shape, Ready, Almost, Hier, Posted, Listed, Tallied, Counted, Proper, Writable, Mutated, Rewrote, Idx, TypeOf;
    PostedAlmost(s, w, f, m);
    MutatedSettles(w, {f}, f, pc);
    MutatedRewrites(w, f, pc);
    RewroteNodes(w, Mutated(w, f, pc), f, pc);
    assert {f} - {f} == {};
  }

  lemma WithMessageAt(s: St, f: nat, m: nat, read: bool, q: nat)
    requires Idx(f) in s.contents && (q != f ==> Idx(q) != Idx(f))
    ensures var w := WithMessage(s, f, m, read);
      && Hier(w, q) == Hier(s, q) && w.nodes == s.nodes && w.msgs == s.msgs[m := Msg(f, read)]
      && Contents(w, q) == if q == f then Contents(s, f)[m := read] else Contents(s, q)
  {
    hide Idx;
  }

  lemma WithMessageShape(s: St, f: nat, m: nat, read: bool)
    requires Shape(s) && f in s.nodes && TypeOf(m) == NORMAL_MESSAGE && Idx(f) in s.contents
    ensures Shape(WithMessage(s, f, m, read))
  {
    hide Idx, TypeOf;
  }

  lemma WithMessageListed(s: St, f: nat, m: nat, read: bool)
    requires m !in s.msgs && Listed(s, f) && Idx(f) in s.contents
    ensures Listed(WithMessage(s, f, m, read), f)
  {
    WithMessageAt(s, f, m, read, f);
    hide Idx, Hier, Contents, WithMessage;
  }

  lemma WithMessageFrame(s: St, f: nat, m: nat, read: bool)
    requires Shape(s) && f in s.nodes && m !in s.msgs && Idx(f) in s.contents
    ensures Posted(s, WithMessage(s, f, m, read), f, m)
  {
    hide Idx, TypeOf, Hier, Contents, WithMessage, Shape;
    var w := WithMessage(s, f, m, read);
    WithMessageAt(s, f, m, read, f);
    forall q | q in s.nodes
      ensures Hier(w, q) == Hier(s, q) && (q != f ==> Contents(w, q) == Contents(s, q))
    {
      if q != f {
        IdxApart(s, q, f);
      }
      WithMessageAt(s, f, m, read, q);
    }
  }

  lemma WithMessagePosts(s: St, f: nat, m: nat, read: bool)
    requires Shape(s) && f in s.nodes && Listed(s, f) && m !in s.msgs && TypeOf(m) == NORMAL_MESSAGE &&
      Idx(f) in s.contents
    ensures Posted(s, WithMessage(s, f, m, read), f, m) && Shape(WithMessage(s, f, m, read)) &&
      Listed(WithMessage(s, f, m, read), f)
  {
    hide Idx, TypeOf, Posted, Listed, WithMessage, Shape;
    WithMessageShape(s, f, m, read);
    WithMessageFrame(s, f, m, read);
    WithMessageListed(s, f, m, read);
  }

  lemma WithoutMessageAt(s: St, f: nat, m: nat, q: nat)
    requires Idx(f) in s.contents && (q != f ==> Idx(q) != Idx(f))
    ensures var w := WithoutMessage(s, f, m);
      && Hier(w, q) == Hier(s, q) && w.nodes == s.nodes && w.msgs == s.msgs - {m}
      && Contents(w, q) == if q == f then Contents(s, f) - {m} else Contents(s, q)
  {
    hide Idx;
  }

  lemma WithoutMessageShape(s: St, f: nat, m: nat)
    requires Shape(s) && f in s.nodes && Idx(f) in s.contents
    ensures Shape(WithoutMessage(s, f, m))
  {
    hide Idx, TypeOf;
  }

  lemma WithoutMessageListed(s: St, f: nat, m: nat)
    requires m in s.msgs && f == s.msgs[m].folder && Listed(s, f) && Idx(f) in s.contents
    ensures Listed(WithoutMessage(s, f, m), f)
  {
    WithoutMessageAt(s, f, m, f);
    hide Idx, Hier, Contents, WithoutMessage;
  }

  lemma WithoutMessageFrame(s: St, f: nat, m: nat)
    requires Shape(s) && f in s.nodes && m in s.msgs && f == s.msgs[m].folder && Idx(f) in s.contents
    ensures Posted(s, WithoutMessage(s, f, m), f, m)
  {
    hide Idx, TypeOf, Hier, Contents, WithoutMessage, Shape;
    var w := WithoutMessage(s, f, m);
    WithoutMessageAt(s, f, m, f);
    forall q | q in s.nodes
      ensures Hier(w, q) == Hier(s, q) && (q != f ==> Contents(w, q) == Contents(s, q))
    {
      if q != f {
        IdxApart(s, q, f);
      }
      WithoutMessageAt(s, f, m, q);
    }
  }

  lemma WithoutMessagePosts(s: St, f: nat, m: nat)
    requires Shape(s) && f in s.nodes && Listed(s, f) && m in s.msgs && f == s.msgs[m].folder && Idx(f) in s.contents
    ensures Posted(s, WithoutMessage(s, f, m), f, m) && Shape(WithoutMessage(s, f, m)) &&
      Listed(WithoutMessage(s, f, m), f)
  {
    hide Idx, TypeOf, Posted, Listed, WithoutMessage, Shape;
    WithoutMessageShape(s, f, m);
    WithoutMessageFrame(s, f, m);
    WithoutMessageListed(s, f, m);
  }

  /** createMessageLocked, once its checks have passed. */
  function Delivered(s: St, f: nat, m: nat, read: bool, now: nat): St
    requires Idx(f) in s.contents && Writable(WithMessage(s, f, m, read), f)
  {
    Adjusted(WithMessage(s, f, m, read), f, 1, if read then 0 else 1, now)
  }

  function Withdrawn(s: St, m: nat, now: nat): St
    requires m in s.msgs && Idx(s.msgs[m].folder) in s.contents &&
      Writable(WithoutMessage(s, s.msgs[m].folder, m), s.msgs[m].folder)
  {
    Adjusted(WithoutMessage(s, s.msgs[m].folder, m), s.msgs[m].folder, -1, if s.msgs[m].read then 0 else -1, now)
  }

  /** The folder's properties with one message more or less. */
  function Bumped(fo: Folder, d: int, read: bool, now: nat): Folder {
    fo.(pc := fo.pc.(content := fo.pc.content + d, unread := fo.pc.unread + (if read then 0 else d), modified := now))
  }

  lemma DeliveredIs(s: St, f: nat, m: nat, read: bool, now: nat)
    requires Idx(f) in s.contents && f in s.nodes && Writable(WithMessage(s, f, m, read), f)
    requires s.nodes[f].pc.content >= 0 && s.nodes[f].pc.unread >= 0
    ensures Delivered(s, f, m, read, now) == Mutated(WithMessage(s, f, m, read), f, Bumped(s.nodes[f], 1, read, now).pc)
  {
    hide Idx, Hier, Mutated, Writable;
  }

  lemma WithdrawnIs(s: St, f: nat, m: nat, now: nat)
    requires m in s.msgs && f == s.msgs[m].folder && Idx(f) in s.contents && f in s.nodes &&
      Writable(WithoutMessage(s, f, m), f)
    requires Bumped(s.nodes[f], -1, s.msgs[m].read, now).pc.content >= 0 &&
      Bumped(s.nodes[f], -1, s.msgs[m].read, now).pc.unread >= 0
    ensures Withdrawn(s, m, now) == Mutated(WithoutMessage(s, f, m), f, Bumped(s.nodes[f], -1, s.msgs[m].read, now).pc)
  {
    hide Idx, Hier, Mutated, Writable;
  }

  lemma DeliveredSets(s: St, w: St, f: nat, m: nat, read: bool)
    requires m !in s.msgs && w.msgs == s.msgs[m := Msg(f, read)]
    ensures MsgsIn(w, f) == MsgsIn(s, f) + {m} && m !in MsgsIn(s, f)
    ensures UnreadIn(w, f) == (if read then UnreadIn(s, f) else UnreadIn(s, f) + {m}) && m !in UnreadIn(s, f)
  {
  }

  lemma DeliveredCounts(s: St, f: nat, m: nat, read: bool, now: nat)
    requires m !in s.msgs && f in s.nodes && Idx(f) in s.contents && Counted(s, f, s.nodes[f].pc)
    ensures Counted(WithMessage(s, f, m, read), f, Bumped(s.nodes[f], 1, read, now).pc)
  {
    hide Idx, MsgsIn, UnreadIn;
    DeliveredSets(s, WithMessage(s, f, m, read), f, m, read);
    hide WithMessage;
  }

  lemma WithdrawnCounts(s: St, f: nat, m: nat, now: nat)
    requires m in s.msgs && f == s.msgs[m].folder && f in s.nodes && Idx(f) in s.contents &&
      Counted(s, f, s.nodes[f].pc)
    ensures Counted(WithoutMessage(s, f, m), f, Bumped(s.nodes[f], -1, s.msgs[m].read, now).pc)
  {
    hide Idx;
    var w := WithoutMessage(s, f, m);
    var read := s.msgs[m].read;
    assert MsgsIn(w, f) == MsgsIn(s, f) - {m} && m in MsgsIn(s, f);
    assert UnreadIn(w, f) == (if read then UnreadIn(s, f) else UnreadIn(s, f) - {m}) && (read || m in UnreadIn(s, f));
    hide MsgsIn, UnreadIn, WithoutMessage;
  }

  lemma CountedNatural(s: St, f: nat, pc: Props)
    requires Counted(s, f, pc)
    ensures pc.content >= 0 && pc.unread >= 0
  {
  }

  /** A new message raises the counters by what it adds; nothing is clamped. */
  lemma DeliveredCoherent(s: St, f: nat, m: nat, read: bool, now: nat)
    requires Coherent(s) && Proper(s) && f in s.nodes && m !in s.msgs && TypeOf(m) == NORMAL_MESSAGE
    ensures Idx(f) in s.contents && Writable(WithMessage(s, f, m, read), f)
    ensures Coherent(Delivered(s, f, m, read, now)) && Delivered(s, f, m, read, now).msgs == s.msgs[m := Msg(f, read)]
    ensures Delivered(s, f, m, read, now).nodes == s.nodes[f := Bumped(s.nodes[f], 1, read, now)]
  {
    Reachable(s, f);
    hide Shape, Almost, Hier, Contents, Posted, Listed, WithMessage, Delivered, Mutated, Counted, Proper, Idx, TypeOf,
         Writable;
    AlmostAt(s, {}, f);
    WithMessageAt(s, f, m, read, f);
    WithMessagePosts(s, f, m, read);
    CountedNatural(s, f, s.nodes[f].pc);
    DeliveredCounts(s, f, m, read, now);
    PostedSettles(s, WithMessage(s, f, m, read), f, m, Bumped(s.nodes[f], 1, read, now).pc);
    DeliveredIs(s, f, m, read, now);
  }

  /** Deleting a message lowers the counters by what it had added; the clamp at zero is never needed. */
  lemma WithdrawnCoherent(s: St, m: nat, now: nat)
    requires Coherent(s) && Proper(s) && m in s.msgs
    ensures Idx(s.msgs[m].folder) in s.contents && Writable(WithoutMessage(s, s.msgs[m].folder, m), s.msgs[m].folder)
    ensures Coherent(Withdrawn(s, m, now)) && Withdrawn(s, m, now).msgs == s.msgs - {m}
    ensures var f := s.msgs[m].folder;
      f in s.nodes && Withdrawn(s, m, now).nodes == s.nodes[f := Bumped(s.nodes[f], -1, s.msgs[m].read, now)]
  {
    var f := s.msgs[m].folder;
    assert f in s.nodes;
    Reachable(s, f);
    hide Shape, Almost, Hier, Contents, Posted, Listed, WithoutMessage, Withdrawn, Mutated, Counted, Proper, Idx,
         TypeOf, Writable;
    AlmostAt(s, {}, f);
    WithoutMessageAt(s, f, m, f);
    WithoutMessagePosts(s, f, m);
    WithdrawnCounts(s, f, m, now);
    var pc := Bumped(s.nodes[f], -1, s.msgs[m].read, now).pc;
    CountedNatural(WithoutMessage(s, f, m), f, pc);
    PostedSettles(s, WithoutMessage(s, f, m), f, m, pc);
    WithdrawnIs(s, f, m, now);
  }

  // ---------- the tree of folders ----------

  type Nodes = map<nat, Folder>

  /** Parents form a tree: ranks grow from parent to child. */
  ghost predicate Ranked(n: Nodes, rank: map<nat, nat>) {
    && (forall f | f in n :: f in rank)
    && forall f | f in n && f != ROOT && n[f].parent in n :: rank[n[f].parent] < rank[f]
  }

  lemma RankedSelf(s: St, rank: map<nat, nat>, nid: nat)
    requires Ranked(s.nodes, rank) && nid in s.nodes && nid != ROOT
    ensures s.nodes[nid].parent != nid
  {
  }

  /** `x` is `top` or below it. */
  ghost predicate Below(n: Nodes, rank: map<nat, nat>, top: nat, x: nat)
    requires Ranked(n, rank) && x in n
    decreases rank[x]
  {
    x == top || (x != ROOT && n[x].parent in n && Below(n, rank, top, n[x].parent))
  }

  /** Every folder hangs, however deep, from the root. */
  lemma {:induction false} AllBelowRoot(s: St, rank: map<nat, nat>, x: nat)
    requires Shape(s) && Ranked(s.nodes, rank) && x in s.nodes
    ensures Below(s.nodes, rank, ROOT, x)
    decreases rank[x]
  {
    if x != ROOT {
      AllBelowRoot(s, rank, s.nodes[x].parent);
    }
    hide Idx, TypeOf;
  }

  lemma RankedProper(s: St, rank: map<nat, nat>)
    requires Ranked(s.nodes, rank)
    ensures Proper(s)
  {
  }

  /** Under the same parents the same folders are below, as long as the chain is still there. */
  lemma {:induction false} BelowSame(n: Nodes, m: Nodes, rank: map<nat, nat>, top: nat, x: nat)
    requires Ranked(n, rank) && Ranked(m, rank) && x in m
    requires forall f | f in m :: f in n && m[f].parent == n[f].parent && (f != ROOT ==> n[f].parent in m)
    ensures Below(m, rank, top, x) <==> Below(n, rank, top, x)
    decreases rank[x]
  {
    if x != top && x != ROOT {
      BelowSame(n, m, rank, top, n[x].parent);
    }
  }

  /** The child of `top` that `x` hangs from. */
  ghost function Branch(n: Nodes, rank: map<nat, nat>, top: nat, x: nat): (c: nat)
    requires Ranked(n, rank) && x in n && x != top && Below(n, rank, top, x)
    ensures c in n && c != ROOT && n[c].parent == top && top in n
    decreases rank[x]
  {
    if n[x].parent == top then x else Branch(n, rank, top, n[x].parent)
  }

  lemma {:induction false} BelowRank(n: Nodes, rank: map<nat, nat>, top: nat, x: nat)
    requires Ranked(n, rank) && x in n && top in n && Below(n, rank, top, x) && x != top
    ensures rank[top] < rank[x]
    decreases rank[x]
  {
    if n[x].parent != top {
      BelowRank(n, rank, top, n[x].parent);
    }
  }

  /** The subtrees of the children are the parts of the subtree. */
  lemma {:induction false} BranchIs(n: Nodes, rank: map<nat, nat>, top: nat, c: nat, x: nat)
    requires Ranked(n, rank) && x in n && c in n && top in n && c != ROOT && n[c].parent == top
    ensures Below(n, rank, c, x) <==> x != top && Below(n, rank, top, x) && Branch(n, rank, top, x) == c
    decreases rank[x]
  {
    if x == top {
      if Below(n, rank, c, top) && c != top {
        BelowRank(n, rank, c, top);
      }
    } else if x == c {
      assert Below(n, rank, top, top);
      assert Below(n, rank, top, c) && Branch(n, rank, top, c) == c;
    } else if x != ROOT && n[x].parent in n {
      BranchIs(n, rank, top, c, n[x].parent);
      assert Below(n, rank, c, x) <==> Below(n, rank, c, n[x].parent);
      assert Below(n, rank, top, x) <==> Below(n, rank, top, n[x].parent);
    }
  }

  /** Moving `nid` under `p` lifts the ranks of the whole subtree above `p`'s. */
  ghost function Lifted(n: Nodes, rank: map<nat, nat>, nid: nat, p: nat): map<nat, nat>
    requires Ranked(n, rank) && p in n
  {
    map x | x in n :: if Below(n, rank, nid, x) then rank[x] + rank[p] + 1 else rank[x]
  }

  lemma MovedRanked(n: Nodes, m: Nodes, rank: map<nat, nat>, nid: nat, p: nat)
    requires Ranked(n, rank) && p in n && nid in n && nid != ROOT && !Below(n, rank, nid, p)
    requires m.Keys == n.Keys && m[nid].parent == p && forall f | f in n && f != nid :: m[f].parent == n[f].parent
    ensures Ranked(m, Lifted(n, rank, nid, p))
  {
    var up := Lifted(n, rank, nid, p);
    forall f | f in m && f != ROOT && m[f].parent in m
      ensures up[m[f].parent] < up[f]
    {
      assert f in n && m[f].parent in n;
    }
  }

  /** Two levels of the parent relation never loop: how deep a folder is. */
  ghost function Depth(n: Nodes, rank: map<nat, nat>, x: nat): (d: nat)
    requires Ranked(n, rank) && x in n
    ensures d >= 1
    decreases rank[x]
  {
    if x != ROOT && n[x].parent in n then 1 + Depth(n, rank, n[x].parent) else 1
  }

  // ---------- names ----------

  lemma SameNames(s: St, w: St, fold: string -> string)
    requires Distinct(s, fold)
    requires forall f | f in w.nodes ::
      f in s.nodes && w.nodes[f].parent == s.nodes[f].parent && w.nodes[f].pc.name == s.nodes[f].pc.name
    ensures Distinct(w, fold)
  {
  }

  /** One folder gains a parent and a name no other child of that parent has. */
  lemma OneNamed(s: St, w: St, fold: string -> string, nid: nat)
    requires Distinct(s, fold) && nid in w.nodes && !Clash(s, fold, w.nodes[nid].parent, w.nodes[nid].pc.name, nid)
    requires forall f | f in w.nodes && f != nid ::
      f in s.nodes && w.nodes[f].parent == s.nodes[f].parent && w.nodes[f].pc.name == s.nodes[f].pc.name
    ensures Distinct(w, fold)
  {
    forall b | b in w.nodes && b != nid && w.nodes[b].parent == w.nodes[nid].parent
      ensures fold(w.nodes[b].pc.name) != fold(w.nodes[nid].pc.name)
    {
      assert IsKid(s, w.nodes[nid].parent, b);
    }
  }

  // ---------- what each operation does to the tree and the names ----------

  /** Indices are handed out upwards, so everything numbered so far lies below the counters. */
  ghost predicate Numbered(s: St, nextFolder: nat, nextMsg: nat) {
    && nextFolder > Idx(ROOT)
    && (forall f | f in s.nodes && TypeOf(f) == NORMAL_FOLDER :: Idx(f) < nextFolder)
    && forall m | m in s.msgs :: Idx(m) < nextMsg
  }

  lemma NewLeafRanked(n: Nodes, rank: map<nat, nat>, p: nat, nid: nat, name: string, now: nat)
    requires Ranked(n, rank) && p in n && nid !in n && nid != ROOT && p != nid && forall f | f in n ::
      n[f].parent != nid
    ensures forall flag ::
      Ranked(n[nid := NewFolder(p, nid, name, now)][p := Touch(n[p], flag, now)], rank[nid := rank[p] + 1])
  {
  }

  /** Create's whole effect on folders and messages: the tables follow from coherence. */
  ghost predicate Sprouted(s: St, w: St, p: nat, nid: nat, name: string, now: nat) {
    && nid !in s.nodes && p in s.nodes && w.msgs == s.msgs
    && w.nodes == s.nodes[nid := NewFolder(p, nid, name, now)][p := Touch(s.nodes[p], true, now)]
  }

  /** One folder more, with this name and parent; every other one keeps its name and parent. */
  ghost predicate Joined(n: Nodes, n': Nodes, p: nat, nid: nat, name: string) {
    && nid !in n && p in n && n'.Keys == n.Keys + {nid} && n'[nid].parent == p && n'[nid].pc.name == name
    && forall f | f in n :: n'[f].parent == n[f].parent && n'[f].pc.name == n[f].pc.name
  }

  /** The state createLocked leaves, from whatever state it was called in. */
  ghost predicate Placed(s: St, w: St, p: nat, nid: nat, index: nat, name: string, now: nat) {
    && nid == MakeNid(NORMAL_FOLDER, index) && nid !in s.nodes
    && Writable(s, p) && Idx(p) in s.hier && p != nid && s.nodes[p].parent != nid && w == Created(s, p, nid, name, now)
  }

  lemma CreatedSprouts(s: St, rank: map<nat, nat>, p: nat, nid: nat, name: string, now: nat)
    requires Coherent(s) && Ranked(s.nodes, rank) && p in s.nodes && FreeIndex(s, Idx(nid)) && nid > 0 &&
      TypeOf(nid) == NORMAL_FOLDER
    ensures Writable(s, p) && Idx(p) in s.hier && p != nid && s.nodes[p].parent != nid
    ensures Coherent(Created(s, p, nid, name, now)) && Sprouted(s, Created(s, p, nid, name, now), p, nid, name, now)
  {
    RankedProper(s, rank);
    assert nid !in s.nodes;
    hide Coherent, Created, Writable, Idx, TypeOf, Ranked, Proper, FreeIndex, NewFolder, Touch;
    CreatedCoherent(s, p, nid, name, now);
  }

  lemma SproutedRanked(s: St, w: St, rank: map<nat, nat>, p: nat, nid: nat, name: string, now: nat)
    requires Ranked(s.nodes, rank) && Sprouted(s, w, p, nid, name, now) && nid != ROOT && forall f | f in s.nodes ::
      s.nodes[f].parent != nid
    ensures p in rank && Ranked(w.nodes, rank[nid := rank[p] + 1])
  {
    assert p in rank;
    NewLeafRanked(s.nodes, rank, p, nid, name, now);
  }

  lemma CreatedDistinct(s: St, w: St, fold: string -> string, p: nat, nid: nat, name: string, now: nat)
    requires Distinct(s, fold) && p in s.nodes && nid !in s.nodes && !Clash(s, fold, p, name, 0) && 0 !in s.nodes
    requires w.nodes == s.nodes[nid := NewFolder(p, nid, name, now)][p := Touch(s.nodes[p], true, now)]
    ensures Distinct(w, fold)
  {
    assert !Clash(s, fold, p, name, nid);
    hide Clash, Distinct;
    OneNamed(s, w, fold, nid);
  }

  lemma SameParentsRanked(n: Nodes, m: Nodes, rank: map<nat, nat>)
    requires Ranked(n, rank) && forall f | f in m :: f in n && m[f].parent == n[f].parent
    ensures Ranked(m, rank)
  {
  }

  lemma RenamedRanked(n: Nodes, rank: map<nat, nat>, nid: nat, name: string, now: nat)
    requires Ranked(n, rank) && nid in n
    ensures Ranked(n[nid := n[nid].(pc := n[nid].pc.(name := name, modified := now))], rank)
  {
  }

  lemma RenamedDistinct(s: St, w: St, fold: string -> string, nid: nat, name: string, now: nat)
    requires nid in s.nodes && Distinct(s, fold) && !Clash(s, fold, s.nodes[nid].parent, name, nid)
    requires w.nodes == s.nodes[nid := s.nodes[nid].(pc := s.nodes[nid].pc.(name := name, modified := now))]
    ensures Distinct(w, fold)
  {
    hide Clash, Distinct;
    OneNamed(s, w, fold, nid);
  }

  lemma MovedTree(s: St, m: St, rank: map<nat, nat>, nid: nat, p: nat, now: nat)
    requires Ranked(s.nodes, rank) && nid in s.nodes && p in s.nodes && nid != ROOT && !Below(s.nodes, rank, nid, p)
    requires MovedNodes(s.nodes, m.nodes, nid, p, now)
    ensures Ranked(m.nodes, Lifted(s.nodes, rank, nid, p))
  {
    assert p != nid;
    hide MovedNodes, Below;
    MovedParents(s.nodes, m.nodes, rank, nid, p, now);
    MovedRanked(s.nodes, m.nodes, rank, nid, p);
  }

  lemma MovedParents(n: Nodes, m: Nodes, rank: map<nat, nat>, nid: nat, p: nat, now: nat)
    requires MovedNodes(n, m, nid, p, now) && Ranked(n, rank) && nid != ROOT && p != nid
    ensures nid in n && m.Keys == n.Keys && m[nid].parent == p && m[nid].pc.name == n[nid].pc.name
    ensures forall f | f in n && f != nid :: m[f].parent == n[f].parent && m[f].pc.name == n[f].pc.name
  {
    assert n[nid].parent != nid;
    forall f | f in n && f != nid
      ensures m[f].parent == n[f].parent && m[f].pc.name == n[f].pc.name
    {
      if f in {n[nid].parent, p} {
        assert m[f] == Touch(n[f], m[f].pc.subfolders, now);
      }
    }
  }

  /** What Delete leaves: the subtree is gone, the parent touched, every other folder and every message as it was. */
  ghost predicate Deleted(s: St, w: St, rank: map<nat, nat>, nid: nat, now: nat) {
    && Ranked(s.nodes, rank) && nid in s.nodes && nid != ROOT && w.msgs == s.msgs
    && (forall f :: f in w.nodes <==> f in s.nodes && !Below(s.nodes, rank, nid, f))
    && (forall f | f in w.nodes && f != s.nodes[nid].parent :: w.nodes[f] == s.nodes[f])
    && (forall f | f in w.nodes :: Fai(w, f) == Fai(s, f))
    && (s.nodes[nid].parent in w.nodes ==>
          w.nodes[s.nodes[nid].parent] == Touch(s.nodes[s.nodes[nid].parent],
                                                w.nodes[s.nodes[nid].parent].pc.subfolders, now))
  }

  /** Below a child that is still whole, or outside. */
  ghost predicate Remains(n: Nodes, rank: map<nat, nat>, nid: nat, todo: set<nat>, f: nat) {
    Ranked(n, rank) && f in n && (f == nid || !Below(n, rank, nid, f) || Branch(n, rank, nid, f) in todo)
  }

  /** Part of the way through the children of `nid`: those in `todo` are still whole. */
  ghost predicate Thinned(s: St, w: St, rank: map<nat, nat>, nid: nat, todo: set<nat>) {
    && Ranked(s.nodes, rank) && nid in s.nodes && nid != ROOT && w.msgs == s.msgs && nid in w.nodes
    && (forall f :: f in w.nodes <==> Remains(s.nodes, rank, nid, todo, f))
    && (forall f | f in w.nodes && f != nid :: f in s.nodes && w.nodes[f] == s.nodes[f])
    && (forall f | f in w.nodes :: Fai(w, f) == Fai(s, f))
    && w.nodes[nid] == Touch(s.nodes[nid], w.nodes[nid].pc.subfolders, w.nodes[nid].pc.modified)
  }

  lemma StillWhole(n: Nodes, rank: map<nat, nat>, nid: nat, kids: set<nat>, f: nat)
    requires Ranked(n, rank) && forall c | c in n && n[c].parent == nid :: c in kids
    ensures f in n <==> Remains(n, rank, nid, kids, f)
  {
    hide Ranked, Below;
  }

  lemma ThinnedStart(s: St, rank: map<nat, nat>, nid: nat, kids: set<nat>)
    requires Coherent(s) && Ranked(s.nodes, rank) && nid in s.nodes && nid != ROOT && kids == Hier(s, nid).Keys
    ensures Thinned(s, s, rank, nid, kids)
    ensures forall c | c in kids :: IsKid(s, nid, c)
  {
    hide Coherent, Hier, Ranked, Remains, Fai;
    CoherentRows(s, nid);
    forall c | c in s.nodes && s.nodes[c].parent == nid
      ensures c in kids
    {
      assert IsKid(s, nid, c);
    }
    forall f
      ensures f in s.nodes <==> Remains(s.nodes, rank, nid, kids, f)
    {
      StillWhole(s.nodes, rank, nid, kids, f);
    }
  }

  /** What is below a child still whole is still there, and still below it. */
  lemma ThinnedKid(s: St, w: St, rank: map<nat, nat>, nid: nat, todo: set<nat>, c: nat)
    requires Thinned(s, w, rank, nid, todo) && Shape(s) && Shape(w) && c in todo && IsKid(s, nid, c)
    ensures c in w.nodes && c != nid && c != ROOT && w.nodes[c].parent == nid && Ranked(s.nodes, rank) &&
      Ranked(w.nodes, rank)
    ensures rank[c] > rank[nid]
    ensures forall f | f in w.nodes :: f in s.nodes && (Below(w.nodes, rank, c, f) <==> Below(s.nodes, rank, c, f))
  {
    assert c != ROOT by {
      Reachable(s, c);
      assert nid > 0;
    }
    assert Remains(s.nodes, rank, nid, todo, c) by {
      hide Ranked;
      assert Ranked(s.nodes, rank);
      BranchIs(s.nodes, rank, nid, c, c);
    }
    ThinnedParents(s, w, rank, nid, todo);
    hide Thinned, Remains, Below;
    SameParentsRanked(s.nodes, w.nodes, rank);
    forall f | f in w.nodes
      ensures f in s.nodes && (Below(w.nodes, rank, c, f) <==> Below(s.nodes, rank, c, f))
    {
      BelowSame(s.nodes, w.nodes, rank, c, f);
    }
  }

  lemma ThinnedParents(s: St, w: St, rank: map<nat, nat>, nid: nat, todo: set<nat>)
    requires Thinned(s, w, rank, nid, todo) && Shape(w)
    ensures nid in s.nodes && Ranked(s.nodes, rank)
    ensures forall f | f in w.nodes ::
      f in s.nodes && w.nodes[f].parent == s.nodes[f].parent && (f != ROOT ==> s.nodes[f].parent in w.nodes)
  {
    hide Idx, TypeOf, Remains, Ranked, Fai;
  }

  lemma ThinnedStep(s: St, mid: St, w: St, rank: map<nat, nat>, nid: nat, todo: set<nat>, c: nat, now: nat)
    requires Thinned(s, mid, rank, nid, todo) && Shape(s) && Shape(mid) && c in todo && IsKid(s, nid, c)
    requires Deleted(mid, w, rank, c, now)
    ensures Thinned(s, w, rank, nid, todo - {c})
  {
    ThinnedKid(s, mid, rank, nid, todo, c);
    hide Shape, Idx, TypeOf, Fai;
    hide Remains, Below, Branch, Ranked;
    forall f
      ensures f in w.nodes <==> Remains(s.nodes, rank, nid, todo - {c}, f)
    {
      assert f in mid.nodes <==> Remains(s.nodes, rank, nid, todo, f);
      assert f in w.nodes <==> f in mid.nodes && !Below(mid.nodes, rank, c, f);
      hide Thinned, Deleted;
      RemainsStep(s.nodes, rank, nid, todo, c, f);
    }
    NotAbove(mid.nodes, rank, nid, c);
    ThinnedFrame(s, mid, w, rank, nid, todo, c, now);
  }

  lemma RemainsStep(n: Nodes, rank: map<nat, nat>, nid: nat, todo: set<nat>, c: nat, f: nat)
    requires Ranked(n, rank) && c in n && nid in n && c != ROOT && n[c].parent == nid
    ensures Remains(n, rank, nid, todo - {c}, f) <==> Remains(n, rank, nid, todo, f) && f in n && !Below(n, rank, c, f)
  {
    if f in n {
      BranchIs(n, rank, nid, c, f);
    }
    hide Below, Branch, Ranked;
  }

  lemma NotAbove(n: Nodes, rank: map<nat, nat>, nid: nat, c: nat)
    requires Ranked(n, rank) && c in n && nid in n && rank[c] > rank[nid]
    ensures !Below(n, rank, c, nid)
  {
    if Below(n, rank, c, nid) {
      BelowRank(n, rank, c, nid);
    }
  }

  lemma ThinnedFrame(s: St, mid: St, w: St, rank: map<nat, nat>, nid: nat, todo: set<nat>, c: nat, now: nat)
    requires Thinned(s, mid, rank, nid, todo) && Deleted(mid, w, rank, c, now) && nid in w.nodes && c in mid.nodes &&
      mid.nodes[c].parent == nid
    requires forall f :: f in w.nodes <==> Remains(s.nodes, rank, nid, todo - {c}, f)
    ensures Thinned(s, w, rank, nid, todo - {c})
  {
    hide Remains, Below, Ranked, Fai;
  }

  /** Once no child is left, the table is empty. */
  lemma ThinnedEmpty(s: St, w: St, rank: map<nat, nat>, nid: nat)
    requires Thinned(s, w, rank, nid, {}) && Coherent(w) && Coherent(s)
    ensures Hier(w, nid) == map[] && nid in w.nodes
  {
    CoherentRows(w, nid);
    ThinnedParents(s, w, rank, nid, {});
    hide Shape, Almost, Hier;
    if Hier(w, nid) != map[] {
      SomeKey(Hier(w, nid));
      var c :| c in Hier(w, nid);
      assert IsKid(w, nid, c);
      assert Remains(s.nodes, rank, nid, {}, c);
      Reachable(s, nid);
      BranchIs(s.nodes, rank, nid, c, c);
    }
  }

  /** Deleting `nid` itself, once all its children are gone. */
  lemma ThinnedEnd(s: St, w: St, r: St, rank: map<nat, nat>, nid: nat, now: nat)
    requires Thinned(s, w, rank, nid, {}) && s.nodes[nid].parent in w.nodes && s.nodes[nid].parent != nid
    requires r.msgs == w.msgs && s.nodes[nid].parent in r.nodes
    requires r.nodes == (w.nodes - {nid})[s.nodes[nid].parent := Touch(w.nodes[s.nodes[nid].parent],
        r.nodes[s.nodes[nid].parent].pc.subfolders, now)]
    requires forall f | f in r.nodes :: Fai(r, f) == Fai(w, f)
    ensures Deleted(s, r, rank, nid, now)
  {
    forall f
      ensures f in r.nodes <==> f in s.nodes && !Below(s.nodes, rank, nid, f)
    {
      assert f in w.nodes <==> Remains(s.nodes, rank, nid, {}, f);
      hide Branch, Fai, Ranked;
    }
    hide Branch, Remains, Below, Fai, Ranked;
  }

  /** Nobody else's FAI table goes with a folder's. */
  lemma RemovedFai(s: St, nid: nat, now: nat)
    requires Shape(s) && nid in s.nodes && Idx(s.nodes[nid].parent) in s.hier
    requires Writable(Dropped(s, s.nodes[nid].parent, nid), s.nodes[nid].parent)
    ensures forall f | f in s.nodes && f != nid :: Fai(Removed(s, nid, now), f) == Fai(s, f)
  {
    hide Idx, TypeOf, Hier;
    forall f | f in s.nodes && f != nid
      ensures Fai(Removed(s, nid, now), f) == Fai(s, f)
    {
      IdxApart(s, f, nid);
      hide Shape;
    }
  }

  lemma AfterRename(s: St, w: St, rank: map<nat, nat>, nid: nat, name: string, now: nat, nextFolder: nat, nextMsg: nat)
    requires Ranked(s.nodes, rank) && nid in s.nodes && Numbered(s, nextFolder, nextMsg) && w.msgs == s.msgs
    requires w.nodes == s.nodes[nid := s.nodes[nid].(pc := s.nodes[nid].pc.(name := name, modified := now))]
    ensures Ranked(w.nodes, rank) && Numbered(w, nextFolder, nextMsg)
  {
    RenamedRanked(s.nodes, rank, nid, name, now);
    hide Ranked, Idx, TypeOf;
  }

  lemma AfterMove(s: St, w: St, nid: nat, p: nat, now: nat, nextFolder: nat, nextMsg: nat)
    requires MovedNodes(s.nodes, w.nodes, nid, p, now) && Numbered(s, nextFolder, nextMsg) && w.msgs == s.msgs
    ensures Numbered(w, nextFolder, nextMsg)
  {
    hide Idx, TypeOf;
  }

  lemma AfterCreate(s: St, w: St, p: nat, nid: nat, name: string, now: nat, nextFolder: nat, nextMsg: nat)
    requires Numbered(s, nextFolder, nextMsg) && Sprouted(s, w, p, nid, name, now) && Idx(nid) == nextFolder
    ensures Numbered(w, nextFolder + 1, nextMsg)
  {
    hide Idx, TypeOf;
  }

  lemma CreatedNodes(s: St, p: nat, nid: nat, name: string, now: nat)
    requires Writable(s, p) && Idx(p) in s.hier && p != nid && s.nodes[p].parent != nid
    ensures var w := Created(s, p, nid, name, now);
      && w.msgs == s.msgs && p in w.nodes
      && w.nodes == s.nodes[nid := NewFolder(p, nid, name, now)][p := Touch(s.nodes[p], w.nodes[p].pc.subfolders, now)]
  {
    hide Hier, Idx;
  }

  lemma AddedNode(n: Nodes, n': Nodes, rank: map<nat, nat>, p: nat, nid: nat, name: string, flag: bool, now: nat)
    requires Ranked(n, rank) && p in n && nid !in n && nid != ROOT && p != nid && forall f | f in n ::
      n[f].parent != nid
    requires n' == n[nid := NewFolder(p, nid, name, now)][p := Touch(n[p], flag, now)]
    ensures Joined(n, n', p, nid, name) && p in rank && Ranked(n', rank[nid := rank[p] + 1])
  {
    assert p in rank;
    NewLeafRanked(n, rank, p, nid, name, now);
    hide Ranked;
  }

  lemma AddedNumber(s: St, w: St, nid: nat, index: nat, nextMsg: nat)
    requires Numbered(s, index, nextMsg) && w.msgs == s.msgs && w.nodes.Keys == s.nodes.Keys + {nid} &&
      Idx(nid) == index
    ensures Numbered(w, index + 1, nextMsg)
  {
    hide Idx, TypeOf;
  }

  lemma PlacedNodes(s: St, w: St, rank: map<nat, nat>, p: nat, nid: nat, index: nat, nextMsg: nat, name: string,
                    now: nat)
    requires Standing(s) && Ranked(s.nodes, rank) && Numbered(s, index, nextMsg) &&
      Placed(s, w, p, nid, index, name, now)
    ensures Joined(s.nodes, w.nodes, p, nid, name)
    ensures p in rank && Standing(w) && Ranked(w.nodes, rank[nid := rank[p] + 1]) && Numbered(w, index + 1, nextMsg)
  {
    hide MakeNid, Idx, TypeOf, Created, Standing, Hier, Ranked, Numbered, Joined;
    FreshNid(s, index, nextMsg);
    CreatedNodes(s, p, nid, name, now);
    AddedNode(s.nodes, w.nodes, rank, p, nid, name, w.nodes[p].pc.subfolders, now);
    PlacedStands(s, w, p, nid, name, now);
    AddedNumber(s, w, nid, index, nextMsg);
  }

  lemma PlacedStands(s: St, w: St, p: nat, nid: nat, name: string, now: nat)
    requires Standing(s) && Writable(s, p) && Idx(p) in s.hier && p != nid && s.nodes[p].parent != nid && nid > 0 &&
      nid != ROOT
    requires w == Created(s, p, nid, name, now) && TypeOf(nid) == NORMAL_FOLDER && nid !in s.nodes
    ensures Standing(w)
  {
    hide Idx, TypeOf, Hier;
  }

  /** The search folder's index is the only one a new folder can run into. */
  lemma FreshNid(s: St, nextFolder: nat, nextMsg: nat)
    requires Standing(s) && Numbered(s, nextFolder, nextMsg)
    ensures var nid := MakeNid(NORMAL_FOLDER, nextFolder);
      nid !in s.nodes && nid > 0 && TypeOf(nid) == NORMAL_FOLDER && Idx(nid) == nextFolder && nid != ROOT &&
        ROOT in s.nodes
    ensures forall f | f in s.nodes && Idx(f) == nextFolder :: TypeOf(f) == SEARCH_FOLDER
    ensures forall f | f in s.nodes :: s.nodes[f].parent != MakeNid(NORMAL_FOLDER, nextFolder)
  {
    assert TypeOf(MakeNid(NORMAL_FOLDER, nextFolder)) == NORMAL_FOLDER &&
      Idx(MakeNid(NORMAL_FOLDER, nextFolder)) == nextFolder;
    assert ROOT == 9 * 32 + 2;
    hide Idx, TypeOf, MakeNid;
  }

  /** Two folders with one index share their tables. */
  lemma SharedIndex(s: St, w: St, p: nat, nid: nat, index: nat)
    requires !FreeIndex(s, index) && Idx(nid) == index && nid in w.nodes && nid !in s.nodes &&
      forall f | f in s.nodes :: f in w.nodes
    ensures !Shape(w)
  {
    var f :| f in s.nodes && Idx(f) == index;
    assert f != nid;
    hide Idx, TypeOf;
  }

  // ---------- the blank store ----------

  const IPM: nat := 0x400 * 32 + NORMAL_FOLDER
  const WASTE: nat := 0x401 * 32 + NORMAL_FOLDER
  const FINDER: nat := 0x4000 * 32 + SEARCH_FOLDER

  function BlankFolder(nid: nat, parent: nat, name: string, now: nat): Folder {
    Folder(parent, Props(name, 0, 0, parent == 0, now, nid, now), 0)
  }

  /** What WriteMinimum leaves: the root with three children and empty tables. */
  function Minimum(display: string, now: nat): St {
    var ipm := BlankFolder(IPM, ROOT, display, now);
    var waste := BlankFolder(WASTE, ROOT, "Deleted Items", now);
    var finder := BlankFolder(FINDER, ROOT, "Search Root", now);
    var rows: Table := map[IPM := ipm.pc, WASTE := waste.pc, FINDER := finder.pc];
    var none: Table := map[];
    var noMsgs: map<nat, bool> := map[];
    St(map[ROOT := BlankFolder(ROOT, 0, "", now), IPM := ipm, WASTE := waste, FINDER := finder],
       map[9 := rows, 0x400 := none, 0x401 := none, 0x4000 := none],
       map[9 := noMsgs, 0x400 := noMsgs, 0x401 := noMsgs, 0x4000 := noMsgs],
       map[9 := {}, 0x400 := {}, 0x401 := {}, 0x4000 := {}],
       map[])
  }

  lemma MinimumIndices()
    ensures Idx(ROOT) == 9 && Idx(IPM) == 0x400 && Idx(WASTE) == 0x401 && Idx(FINDER) == 0x4000
    ensures TypeOf(ROOT) == NORMAL_FOLDER && TypeOf(IPM) == NORMAL_FOLDER && TypeOf(WASTE) == NORMAL_FOLDER &&
      TypeOf(FINDER) == SEARCH_FOLDER
    ensures ROOT == 290 && IPM == 32770 && WASTE == 32802 && FINDER == 524291
  {
  }

  lemma MinimumShape(display: string, now: nat)
    ensures Shape(Minimum(display, now))
  {
    MinimumIndices();
    hide Idx, TypeOf;
  }

  lemma MinimumTables(s: St, display: string, now: nat)
    requires s == Minimum(display, now)
    ensures s.nodes.Keys == {ROOT, IPM, WASTE, FINDER} && Hier(s, ROOT).Keys == {IPM, WASTE, FINDER} && s.msgs == map[]
    ensures forall f | f in {IPM, WASTE, FINDER} ::
      Hier(s, f) == map[] && Hier(s, ROOT)[f] == s.nodes[f].pc && !s.nodes[f].pc.subfolders
    ensures forall f | f in s.nodes :: Contents(s, f) == map[] && s.nodes[f].parent == (if f == ROOT then 0 else ROOT)
    ensures s.nodes[ROOT].pc.subfolders && forall f | f in s.nodes ::
      s.nodes[f].pc.content == 0 && s.nodes[f].pc.unread == 0
  {
    MinimumIndices();
    hide Idx, TypeOf;
  }

  lemma MinimumAlmost(s: St, display: string, now: nat)
    requires s == Minimum(display, now)
    ensures Almost(s, {})
  {
    MinimumIndices();
    hide Idx, TypeOf, Minimum;
    MinimumTables(s, display, now);
    hide Hier, Contents;
    forall f | f in s.nodes
      ensures RowsRight(s, {}, f) && Listed(s, f) && Tallied(s, f, s.nodes[f].pc)
    {
      assert MsgsIn(s, f) == {} && UnreadIn(s, f) == {};
      assert ROOT in s.nodes;
    }
    hide RowsRight, Listed, Tallied;
    AlmostFrom(s, {});
  }

  const BLANK_RANK: map<nat, nat> := map[ROOT := 0, IPM := 1, WASTE := 1, FINDER := 1]

  lemma MinimumRanked(s: St, display: string, now: nat)
    requires s == Minimum(display, now)
    ensures Ranked(s.nodes, BLANK_RANK) && Numbered(s, 0x402, 0x10000) && FreeIndex(s, 0x402)
  {
    MinimumIndices();
    hide Idx, TypeOf, Minimum;
    MinimumTables(s, display, now);
    hide Hier, Contents;
  }

  /** A blank store is coherent, and new folders number from a free index. */
  lemma MinimumCoherent(s: St, display: string, now: nat)
    requires s == Minimum(display, now)
    ensures Coherent(s) && Ranked(s.nodes, BLANK_RANK) && Numbered(s, 0x402, 0x10000) && FreeIndex(s, 0x402)
  {
    hide Idx, TypeOf, Minimum, Shape, Almost, Ranked, Numbered, FreeIndex;
    MinimumShape(display, now);
    MinimumAlmost(s, display, now);
    MinimumRanked(s, display, now);
  }

  /** Its names are distinct exactly when the display name is neither of the two fixed ones. */
  lemma MinimumDistinct(display: string, now: nat, fold: string -> string)
    requires fold("Deleted Items") != fold("Search Root")
    ensures Distinct(Minimum(display, now), fold) <==>
      fold(display) != fold("Deleted Items") && fold(display) != fold("Search Root")
  {
    MinimumIndices();
    var n := Minimum(display, now).nodes;
    assert n[IPM].pc.name == display && n[WASTE].pc.name == "Deleted Items" && n[FINDER].pc.name == "Search Root";
    assert n[IPM].parent == n[WASTE].parent == n[FINDER].parent == ROOT && n[ROOT].parent == 0;
    assert n.Keys == {ROOT, IPM, WASTE, FINDER};
  }

  /** Once a new folder shares a search folder's index, a folder created inside it shows up in the search folder's
      table too, while the search folder's own flag still says it has none. */
  lemma SharedTablesLie(s: St, a: St, b: St, f: nat, p: nat, nid: nat, kid: nat, name: string, inner: string, now: nat)
    requires Shape(s) && f in s.nodes && p in s.nodes && Idx(nid) == Idx(f) && nid !in s.nodes && kid != f &&
      kid != nid && p != f
    requires !s.nodes[f].pc.subfolders && Idx(kid) != Idx(f) && s.nodes[p].parent != nid
    requires Writable(s, p) && Idx(p) in s.hier && a == Created(s, p, nid, name, now)
    requires Writable(a, nid) && Idx(nid) in a.hier && p != kid && b == Created(a, nid, kid, inner, now)
    ensures kid in Hier(b, f) && f in b.nodes && b.nodes[f] == s.nodes[f] && !b.nodes[f].pc.subfolders &&
      !IsKid(b, f, kid)
  {
    hide TypeOf, Shape, Writable;
  }

  /** FolderTree. */
  class FolderTree {
    const ipm: nat
    const waste: nat
    const finder: nat
    const maxDepth: nat
    const maxFolders: nat
    const now: nat
    const fold: string -> string
    /** Whether reads and writes of the file can fail. */
    const faulty: bool
    var st: St
    var nextFolder: nat
    var nextMsg: nat
    ghost var rank: map<nat, nat>

    /** WriteMinimum, then OpenFolderTree. */
    constructor (display: string, now: nat, fold: string -> string, maxDepth: nat, maxFolders: nat, faulty: bool)
      ensures Valid() && st == Minimum(display, now) && this.fold == fold && this.now == now
      ensures ipm == IPM && waste == WASTE && finder == FINDER && this.maxDepth == maxDepth &&
        this.maxFolders == maxFolders && this.faulty == faulty
      ensures nextFolder == 0x402 && FreeIndex(st, nextFolder)
    {
      hide Shape, Almost, Idx, TypeOf, Minimum, Ranked, Numbered, FreeIndex;
      ipm, waste, finder := IPM, WASTE, FINDER;
      this.maxDepth, this.maxFolders, this.now, this.fold, this.faulty := maxDepth, maxFolders, now, fold, faulty;
      st := Minimum(display, now);
      nextFolder := 0x402;
      nextMsg := 0x10000;
      rank := BLANK_RANK;
      new;
      MinimumCoherent(st, display, now);
    }

    ghost predicate Valid()
      reads this
    {
      Coherent(st) && Ranked(st.nodes, rank) && Numbered(st, nextFolder, nextMsg)
    }

    predicate Protected(nid: nat) {
      nid == ROOT || nid == ipm || nid == waste || nid == finder || TypeOf(nid) == SEARCH_FOLDER
    }

    /** The root, the display, waste and finder folders and every search folder are still there, with name and
        parent. */
    ghost predicate Fixtures(n: Nodes, m: Nodes) {
      forall f | f in n && (f == 0x122 || f == ipm || f == waste || f == finder || f % 32 == 3) ::
        f in m && m[f].parent == n[f].parent && m[f].pc.name == n[f].pc.name
    }

    predicate HoldsChildren(nid: nat)
      reads `st
    {
      nid in st.nodes && nid != finder && TypeOf(nid) != SEARCH_FOLDER && (nid == ROOT || TypeOf(nid) == NORMAL_FOLDER)
    }

    /** The walk up from `nid`; its visited set never stops it on a tree. */
    method Contains(ancestor: nat, nid: nat) returns (b: bool)
      requires Ranked(st.nodes, rank) && Shape(st) && nid in st.nodes
      ensures b <==> Below(st.nodes, rank, ancestor, nid)
    {
      hide Shape, Idx, TypeOf;
      var seen: set<nat> := {};
      var cur := nid;
      Reachable(st, nid);
      while cur != 0
        invariant cur == 0 || cur in st.nodes
        invariant cur != 0 ==> forall x | x in seen :: x in rank && rank[x] > rank[cur]
        invariant if cur == 0 then !Below(st.nodes, rank, ancestor, nid)
                  else Below(st.nodes, rank, ancestor, nid) <==> Below(st.nodes, rank, ancestor, cur)
        decreases if cur == 0 then 0 else rank[cur] + 1
      {
        Reachable(st, cur);
        if cur == ancestor {
          return true;
        }
        if cur in seen {
          return false;
        }
        seen := seen + {cur};
        var next := st.nodes[cur].parent;
        if next == cur {
          return false;
        }
        cur := next;
      }
      return false;
    }

    method DepthOf(nid: nat) returns (d: nat)
      requires Ranked(st.nodes, rank) && Standing(st) && nid in st.nodes
      ensures d == Depth(st.nodes, rank, nid)
    {
      hide Standing, Idx, TypeOf;
      d := 0;
      var seen: set<nat> := {};
      var cur := nid;
      Stands(st, nid);
      while cur != 0
        invariant cur == 0 || cur in st.nodes
        invariant cur != 0 ==> forall x | x in seen :: x in rank && rank[x] > rank[cur]
        invariant d + (if cur == 0 then 0 else Depth(st.nodes, rank, cur)) == Depth(st.nodes, rank, nid)
        decreases if cur == 0 then 0 else rank[cur] + 1
      {
        Stands(st, cur);
        if cur in seen {
          break;
        }
        seen := seen + {cur};
        d := d + 1;
        cur := st.nodes[cur].parent;
      }
    }

    method Collision(parent: nat, name: string, except_: nat) returns (b: bool)
      ensures b <==> RowClash(st, fold, parent, name, except_)
      ensures Coherent(st) && parent in st.nodes ==> (b <==> Clash(st, fold, parent, name, except_))
    {
      if Coherent(st) && parent in st.nodes {
        CoherentClash(st, fold, parent, name, except_);
      }
      hide Coherent, Hier, Clash;
      var rows := Hier(st, parent);
      var todo := rows.Keys;
      while todo != {}
        invariant todo <= rows.Keys
        invariant forall c | c in rows.Keys - todo && c != except_ :: fold(rows[c].name) != fold(name)
        decreases |todo|
      {
        var c :| c in todo;
        if c != except_ && fold(rows[c].name) == fold(name) {
          return true;
        }
        todo := todo - {c};
      }
      return false;
    }

    // ---------- steps; any of them can fail on I/O ----------

    method Fails() returns (io: bool)
      ensures io ==> faulty
    {
      io := *;
      io := io && faulty;
    }

    method PatchPc(f: nat, pc: Props) returns (r: Result<()>)
      modifies `st
      ensures r.Ok? ==> f in old(st).nodes && st == Patched(old(st), f, pc)
      ensures r.Err? ==> st == old(st)
      ensures f in old(st).nodes && !faulty ==> r.Ok?
    {
      var io := Fails();
      if f !in st.nodes || io {
        return Err(Io);
      }
      st := Patched(st, f, pc);
      return Ok(());
    }

    method UpsertChildRow(p: nat, c: nat) returns (r: Result<()>)
      modifies `st
      ensures r.Ok? ==> c in old(st).nodes && Idx(p) in old(st).hier && st == Upserted(old(st), p, c)
      ensures c in old(st).nodes && Idx(c) in old(st).hier && Idx(p) in old(st).hier && !faulty ==> r.Ok?
    {
      var io := Fails();
      if c !in st.nodes || Idx(c) !in st.hier || Idx(p) !in st.hier || io {
        return Err(Io);
      }
      st := Upserted(st, p, c);
      return Ok(());
    }

    method RemoveChildRow(p: nat, c: nat) returns (r: Result<()>)
      modifies `st
      ensures r.Ok? ==> Idx(p) in old(st).hier && st == RowRemoved(old(st), p, c)
      ensures Idx(p) in old(st).hier && c in old(st).hier[Idx(p)] && !faulty ==> r.Ok?
    {
      var io := Fails();
      if Idx(p) !in st.hier || c !in st.hier[Idx(p)] || io {
        return Err(Io);
      }
      st := RowRemoved(st, p, c);
      return Ok(());
    }

    method MutatePc(f: nat, pc: Props) returns (r: Result<()>)
      modifies `st
      ensures r.Ok? ==> Writable(old(st), f) && st == Mutated(old(st), f, pc)
      ensures Writable(old(st), f) && Idx(f) in old(st).hier && !faulty ==> r.Ok?
    {
      hide Idx, Upserted;
      var r0 := PatchPc(f, pc);
      if r0.Err? {
        return r0;
      }
      var parent := st.nodes[f].parent;
      if parent == 0 {
        return Ok(());
      }
      r := UpsertChildRow(parent, f);
    }

    method SyncFlags(f: nat) returns (r: Result<()>)
      modifies `st
      ensures r.Ok? ==> Writable(old(st), f) && st == Synced(old(st), f, now)
      ensures Writable(old(st), f) && Idx(f) in old(st).hier && !faulty ==> r.Ok?
    {
      hide Mutated, Hier, Idx;
      if f !in st.nodes {
        return Err(Io);
      }
      hide Writable;
      r := MutatePc(f, st.nodes[f].pc.(subfolders := Hier(st, f) != map[], modified := now));
    }
  
    // ---------- transactions ----------

    /** What Create needs of the tree; less than Valid. */
    ghost predicate Weak()
      reads this
    {
      Standing(st) && Ranked(st.nodes, rank) && Numbered(st, nextFolder, nextMsg)
    }

    lemma ValidWeak()
      requires Valid()
      ensures Weak()
    {
      ShapeStands(st);
      hide Shape, Almost, Ranked, Numbered, Standing;
    }

    /** What Create checks before it writes. */
    ghost predicate MayCreate(parent: nat, name: Option<string>)
      requires Weak()
      reads this
    {
      && name.Some? && HoldsChildren(parent) && !RowClash(st, fold, parent, name.value, 0)
      && Depth(st.nodes, rank, parent) + 1 <= maxDepth && |st.nodes| < maxFolders
    }

    method WriteFolder(parent: nat, nid: nat, name: string) returns (r: Result<()>)
      modifies `st
      ensures r.Ok? ==> st == WithFolder(old(st), parent, nid, name, now)
      ensures !faulty ==> r.Ok?
    {
      hide Idx;
      var io := Fails();
      if io {
        return Err(Io);
      }
      st := st.(nodes := st.nodes[nid := NewFolder(parent, nid, name, now)]);
      st := st.(hier := st.hier[Idx(nid) := map[]]);
      st := st.(contents := st.contents[Idx(nid) := map[]]);
      st := st.(fai := st.fai[Idx(nid) := {}]);
      return Ok(());
    }

    method CreateLocked(parent: nat, name: Option<string>) returns (r: Result<nat>)
      requires Weak()
      modifies `st, `nextFolder
      ensures r.Ok? ==> old(MayCreate(parent, name)) && name.Some?
      ensures r.Ok? && Coherent(old(st)) ==> !Clash(old(st), fold, parent, name.value, 0)
      ensures !old(MayCreate(parent, name)) ==> r.Err? && r.error != Io
      ensures old(MayCreate(parent, name)) && r.Err? ==> r.error == Io && faulty
      ensures r.Ok? ==>
        var nid := MakeNid(NORMAL_FOLDER, old(nextFolder)); var s := old(st);
        && r.value == nid && nextFolder == old(nextFolder) + 1 && nid !in s.nodes && parent in s.nodes
        && Writable(s, parent) && Idx(parent) in s.hier && parent != nid && s.nodes[parent].parent != nid
        && st == Created(s, parent, nid, name.value, now)
    {
      hide Idx, TypeOf, Clash, RowClash, Coherent, Standing, Ranked, Numbered, Synced, Upserted, WithFolder, Depth,
           MakeNid,
           Writable;
      if name.None? {
        return Err(InvalidArg);
      }
      if parent !in st.nodes {
        return Err(InvalidArg);
      }
      if parent == finder || TypeOf(parent) == SEARCH_FOLDER {
        return Err(Unsupported);
      }
      if parent != ROOT && TypeOf(parent) != NORMAL_FOLDER {
        return Err(InvalidArg);
      }
      var clash := Collision(parent, name.value, 0);
      if clash {
        return Err(InvalidArg);
      }
      var depth := DepthOf(parent);
      if depth + 1 > maxDepth {
        return Err(LimitExceeded);
      }
      if |st.nodes| >= maxFolders {
        return Err(LimitExceeded);
      }
      r := CreateNode(parent, name.value);
    }

    method CreateNode(parent: nat, name: string) returns (r: Result<nat>)
      requires Weak() && parent in st.nodes
      modifies `st, `nextFolder
      ensures r.Err? ==> r.error == Io && faulty
      ensures r.Ok? ==>
        var nid := MakeNid(NORMAL_FOLDER, old(nextFolder)); var s := old(st);
        && r.value == nid && nextFolder == old(nextFolder) + 1 && nid !in s.nodes && parent in s.nodes
        && Writable(s, parent) && Idx(parent) in s.hier && parent != nid && s.nodes[parent].parent != nid
        && st == Created(s, parent, nid, name, now)
    {
      var nid := MakeNid(NORMAL_FOLDER, nextFolder);
      FreshNid(st, nextFolder, nextMsg);
      Stands(st, parent);
      StepsOpen(st, parent, nid, name);
      hide Idx, TypeOf, Standing, Ranked, Numbered, Synced, Upserted, WithFolder, MakeNid, Writable;
      nextFolder := nextFolder + 1;
      var r1 := WriteFolder(parent, nid, name);
      if r1.Err? {
        return Err(Io);
      }
      var r2 := UpsertChildRow(parent, nid);
      if r2.Err? {
        return Err(Io);
      }
      var r3 := SyncFlags(parent);
      if r3.Err? {
        return Err(Io);
      }
      return Ok(nid);
    }

    /** Every step of Create finds what it writes to. */
    lemma StepsOpen(s: St, parent: nat, nid: nat, name: string)
      requires Writable(s, parent) && Idx(parent) in s.hier && nid !in s.nodes
      ensures var w := WithFolder(s, parent, nid, name, now);
        && nid in w.nodes && Idx(nid) in w.hier && Idx(parent) in w.hier
        && Writable(Upserted(w, parent, nid), parent) && Idx(parent) in Upserted(w, parent, nid).hier
    {
      hide Idx, Hier;
    }

    /** Create: all or nothing. The tree stays coherent exactly when no search folder holds the new folder's index; in
        any case the new folder has its name and parent, and every other folder keeps its own. */
    method Create(parent: nat, name: Option<string>) returns (r: Result<nat>)
      requires Weak()
      modifies this
      ensures Weak()
      ensures r.Ok? ==> old(MayCreate(parent, name))
      ensures !old(MayCreate(parent, name)) ==> r.Err? && r.error != Io
      ensures old(MayCreate(parent, name)) && r.Err? ==> r.error == Io && faulty
      ensures r.Err? ==> st == old(st) && nextFolder == old(nextFolder) && nextMsg == old(nextMsg) && rank == old(rank)
      ensures r.Ok? && Coherent(old(st)) && FreeIndex(old(st), old(nextFolder)) ==>
        Valid() && Sprouted(old(st), st, parent, r.value, name.value, now)
      ensures r.Ok? && Coherent(old(st)) && FreeIndex(old(st), old(nextFolder)) && Distinct(old(st), fold) ==>
        Distinct(st, fold)
      ensures r.Ok? && !FreeIndex(old(st), old(nextFolder)) ==> !Shape(st)
      ensures r.Ok? ==>
        nextFolder == old(nextFolder) + 1 && Placed(old(st), st, parent, r.value, old(nextFolder), name.value, now)
      ensures r.Ok? ==> Joined(old(st).nodes, st.nodes, parent, r.value, name.value)
      ensures Fixtures(old(st).nodes, st.nodes)
    {
      ghost var s0 := st;
      ghost var rank0 := rank;
      var snapshot, folders := st, nextFolder;
      hide Ranked, Numbered, Distinct, Clash, Shape, FreeIndex, Created, Sprouted, MakeNid, Idx, TypeOf, Writable,
           Almost, MayCreate, Standing, Joined, Placed, Coherent, Fixtures;
      StillFixed(s0.nodes);
      r := CreateLocked(parent, name);
      if r.Err? {
        st, nextFolder := snapshot, folders;
        return;
      }
      PlacedHere(s0, st, parent, r.value, folders, name.value);
      PlacedNodes(s0, st, rank0, parent, r.value, folders, nextMsg, name.value, now);
      JoinedFixed(s0.nodes, st.nodes, parent, r.value, name.value);
      rank := rank[r.value := rank[parent] + 1];
      if FreeIndex(s0, folders) {
        if Coherent(s0) {
          CreateFree(s0, st, rank0, parent, r.value, name.value, folders);
          if Distinct(s0, fold) {
            CreateDistinct(s0, st, parent, r.value, name.value);
          }
        }
      } else {
        CreateShared(s0, parent, r.value, name.value, folders);
      }
    }

    lemma StillFixed(n: Nodes)
      ensures Fixtures(n, n)
    {
    }

    lemma JoinedFixed(n: Nodes, m: Nodes, p: nat, nid: nat, name: string)
      requires Joined(n, m, p, nid, name)
      ensures Fixtures(n, m)
    {
    }

    lemma PlacedHere(s: St, w: St, parent: nat, nid: nat, index: nat, name: string)
      requires nid == MakeNid(NORMAL_FOLDER, index) && nid !in s.nodes && Writable(s, parent) && Idx(parent) in s.hier
      requires parent != nid && s.nodes[parent].parent != nid && w == Created(s, parent, nid, name, now)
      ensures Placed(s, w, parent, nid, index, name, now)
    {
    }

    lemma CreateFree(s0: St, w: St, rank: map<nat, nat>, parent: nat, nid: nat, name: string, index: nat)
      requires Coherent(s0) && Ranked(s0.nodes, rank) && Numbered(s0, index, nextMsg) && parent in s0.nodes
      requires nid == MakeNid(NORMAL_FOLDER, index) && FreeIndex(s0, index)
      requires Writable(s0, parent) && Idx(parent) in s0.hier && parent != nid && s0.nodes[parent].parent != nid
      requires w == Created(s0, parent, nid, name, now)
      ensures Coherent(w) && Sprouted(s0, w, parent, nid, name, now)
      ensures parent in rank && Ranked(w.nodes, rank[nid := rank[parent] + 1]) && Numbered(w, index + 1, nextMsg)
    {
      hide Shape, Almost, Ranked, Numbered, FreeIndex, Idx, TypeOf, Writable, MakeNid, Created, Sprouted;
      ShapeStands(s0);
      FreshNid(s0, index, nextMsg);
      hide Coherent;
      CreatedSprouts(s0, rank, parent, nid, name, now);
      AfterCreate(s0, w, parent, nid, name, now, index, nextMsg);
      SproutedRanked(s0, w, rank, parent, nid, name, now);
    }

    lemma CreateDistinct(s0: St, w: St, parent: nat, nid: nat, name: string)
      requires Coherent(s0) && Sprouted(s0, w, parent, nid, name, now)
      requires Distinct(s0, fold) && !Clash(s0, fold, parent, name, 0)
      ensures Distinct(w, fold)
    {
      Reachable(s0, parent);
      hide Distinct, Clash, Shape;
      CreatedDistinct(s0, w, fold, parent, nid, name, now);
    }

    lemma CreateShared(s0: St, parent: nat, nid: nat, name: string, index: nat)
      requires parent in s0.nodes && Standing(s0) && Numbered(s0, index, nextMsg)
      requires nid == MakeNid(NORMAL_FOLDER, index) && !FreeIndex(s0, index)
      requires Writable(s0, parent) && Idx(parent) in s0.hier && parent != nid && s0.nodes[parent].parent != nid
      ensures !Shape(Created(s0, parent, nid, name, now))
    {
      FreshNid(s0, index, nextMsg);
      hide Numbered, Standing, Shape, FreeIndex, Idx, TypeOf, Writable, MakeNid;
      var w := Created(s0, parent, nid, name, now);
      assert w.nodes.Keys == s0.nodes.Keys + {nid} by {
        hide Hier;
      }
      hide Created;
      SharedIndex(s0, w, parent, nid, index);
    }
  
    ghost predicate MayRename(nid: nat, name: Option<string>)
      reads this
    {
      name.Some? && !Protected(nid) && nid in st.nodes && !Clash(st, fold, st.nodes[nid].parent, name.value, nid)
    }

    method RenameLocked(nid: nat, name: Option<string>) returns (r: Result<()>)
      requires Valid()
      modifies `st
      ensures r.Ok? ==>
        old(MayRename(nid, name)) && Writable(old(st), nid) && st == Renamed(old(st), nid, name.value, now)
      ensures !old(MayRename(nid, name)) ==> r.Err? && r.error != Io
      ensures old(MayRename(nid, name)) && r.Err? ==> r.error == Io && faulty
    {
      hide Idx, TypeOf, Clash, Almost, Shape, Ranked, Numbered, Mutated, Writable;
      if name.None? || Protected(nid) || nid !in st.nodes {
        return Err(InvalidArg);
      }
      Reachable(st, nid);
      var parent := st.nodes[nid].parent;
      if parent == 0 {
        return Err(InvalidArg);
      }
      var clash := Collision(parent, name.value, nid);
      if clash {
        return Err(InvalidArg);
      }
      var w := MutatePc(nid, st.nodes[nid].pc.(name := name.value, modified := now));
      r := if w.Ok? then w else Err(Io);
    }

    /** Rename: all or nothing; one name and one time change, and the tables follow. */
    method Rename(nid: nat, name: Option<string>) returns (r: Result<()>)
      requires Valid()
      modifies this
      ensures Valid() && nextFolder == old(nextFolder) && nextMsg == old(nextMsg)
      ensures r.Ok? ==> old(MayRename(nid, name))
      ensures !old(MayRename(nid, name)) ==> r.Err? && r.error != Io
      ensures old(MayRename(nid, name)) && r.Err? ==> r.error == Io && faulty
      ensures r.Err? ==> st == old(st)
      ensures r.Ok? ==> st.msgs == old(st).msgs && nid in old(st).nodes
      ensures r.Ok? ==>
        st.nodes == old(st).nodes[nid := old(st).nodes[nid].(pc := old(st).nodes[nid].pc.(name := name.value,
            modified := now))]
      ensures Distinct(old(st), fold) ==> Distinct(st, fold)
      ensures Fixtures(old(st).nodes, st.nodes)
    {
      hide Ranked, Numbered, Distinct, Clash, Shape, Renamed, Idx, TypeOf, Writable, Almost, Fixtures;
      StillFixed(st.nodes);
      ghost var s0 := st;
      var snapshot := st;
      r := RenameLocked(nid, name);
      if r.Err? {
        st := snapshot;
        return;
      }
      RankedSelf(s0, rank, nid);
      RenamedCoherent(s0, nid, name.value, now);
      RenamedFixed(s0.nodes, st.nodes, nid);
      AfterRename(s0, st, rank, nid, name.value, now, nextFolder, nextMsg);
      if Distinct(s0, fold) {
        RenamedDistinct(s0, st, fold, nid, name.value, now);
      }
    }

    lemma RenamedFixed(n: Nodes, m: Nodes, nid: nat)
      requires !Protected(nid) && m.Keys == n.Keys && forall f | f in n && f != nid :: m[f] == n[f]
      ensures Fixtures(n, m)
    {
    }

    ghost predicate MayMove(nid: nat, p: nat)
      requires Valid()
      reads this
    {
      && !Protected(nid) && nid in st.nodes && HoldsChildren(p) && !Below(st.nodes, rank, nid, p)
      && (st.nodes[nid].parent == p ||
          (!Clash(st, fold, p, st.nodes[nid].pc.name, 0) && Depth(st.nodes, rank, p) + 1 <= maxDepth))
    }

    method MoveLocked(nid: nat, p: nat) returns (r: Result<()>)
      requires Valid()
      modifies `st
      ensures r.Ok? ==> old(MayMove(nid, p)) && nid in old(st).nodes && p in old(st).nodes
      ensures !old(MayMove(nid, p)) ==> r.Err? && r.error != Io
      ensures old(MayMove(nid, p)) && r.Err? ==> r.error == Io && faulty
      ensures r.Ok? && old(st).nodes[nid].parent == p ==> st == old(st)
      ensures r.Ok? && old(st).nodes[nid].parent != p ==> MoveStates(old(st), st, nid, p, now)
    {
      hide Idx, TypeOf, Clash, Almost, Shape, Ranked, Numbered, Depth, Below, Writable, MoveStates;
      if Protected(nid) || nid !in st.nodes {
        return Err(InvalidArg);
      }
      if p !in st.nodes {
        return Err(InvalidArg);
      }
      if p == finder || TypeOf(p) == SEARCH_FOLDER {
        return Err(Unsupported);
      }
      if p != ROOT && TypeOf(p) != NORMAL_FOLDER {
        return Err(InvalidArg);
      }
      var below := Contains(nid, p);
      if below {
        return Err(InvalidArg);
      }
      Reachable(st, nid);
      var oldParent := st.nodes[nid].parent;
      if oldParent == 0 {
        return Err(InvalidArg);
      }
      if oldParent == p {
        return Ok(());
      }
      var clash := Collision(p, st.nodes[nid].pc.name, 0);
      if clash {
        return Err(InvalidArg);
      }
      ShapeStands(st);
      var depth := DepthOf(p);
      if depth + 1 > maxDepth {
        return Err(LimitExceeded);
      }
      CoherentRows(st, oldParent);
      r := MoveSteps(nid, oldParent, p);
    }

    method MoveSteps(nid: nat, oldParent: nat, p: nat) returns (r: Result<()>)
      requires nid in st.nodes && st.nodes[nid].parent == oldParent
      requires Standing(st) && oldParent in st.nodes && p in st.nodes && nid != ROOT && nid in Hier(st, oldParent)
      modifies `st
      ensures r.Err? ==> r.error == Io && faulty
      ensures r.Ok? ==> MoveStates(old(st), st, nid, p, now)
    {
      Stands(st, oldParent);
      Stands(st, nid);
      Stands(st, p);
      RowIn(st, oldParent, nid);
      hide Idx, TypeOf, Hier, Writable, Synced, Mutated, Standing, RowRemoved, Reparented;
      RemovedStands(st, oldParent, nid, p);
      var r1 := RemoveChildRow(oldParent, nid);
      if r1.Err? {
        return Err(Io);
      }
      var r2 := SetParent(nid, p);
      if r2.Err? {
        return Err(Io);
      }
      Stands(st, nid);
      MutatedStands(st, nid, st.nodes[nid].pc.(modified := now));
      var r3 := MutatePc(nid, st.nodes[nid].pc.(modified := now));
      if r3.Err? {
        return Err(Io);
      }
      Stands(st, oldParent);
      SyncedStands(st, oldParent, now);
      var r4 := SyncFlags(oldParent);
      if r4.Err? {
        return Err(Io);
      }
      Stands(st, p);
      var r5 := SyncFlags(p);
      if r5.Err? {
        return Err(Io);
      }
      return Ok(());
    }

    method SetParent(nid: nat, p: nat) returns (r: Result<()>)
      modifies `st
      ensures r.Ok? ==> nid in old(st).nodes && st == Reparented(old(st), nid, p)
      ensures nid in old(st).nodes && !faulty ==> r.Ok?
    {
      var io := Fails();
      if nid !in st.nodes || io {
        return Err(Io);
      }
      st := Reparented(st, nid, p);
      return Ok(());
    }
  
    /** Move: all or nothing; the folder hangs under its new parent with its whole subtree, and both parents' flags
        follow. */
    method Move(nid: nat, p: nat) returns (r: Result<()>)
      requires Valid()
      modifies this
      ensures Valid() && nextFolder == old(nextFolder) && nextMsg == old(nextMsg)
      ensures r.Ok? ==> old(MayMove(nid, p)) && nid in old(st).nodes
      ensures !old(MayMove(nid, p)) ==> r.Err? && r.error != Io
      ensures old(MayMove(nid, p)) && r.Err? ==> r.error == Io && faulty
      ensures r.Err? || old(st).nodes[nid].parent == p ==> st == old(st)
      ensures r.Ok? && old(st).nodes[nid].parent != p ==>
        st.msgs == old(st).msgs && MovedNodes(old(st).nodes, st.nodes, nid, p, now)
      ensures Distinct(old(st), fold) ==> Distinct(st, fold)
      ensures Fixtures(old(st).nodes, st.nodes)
    {
      hide Ranked, Numbered, Distinct, Clash, Shape, Idx, TypeOf, Almost, Below, Depth, MoveStates, MovedNodes,
           Fixtures;
      StillFixed(st.nodes);
      ghost var s0 := st;
      var snapshot := st;
      r := MoveLocked(nid, p);
      if r.Err? {
        st := snapshot;
        return;
      }
      if snapshot.nodes[nid].parent == p {
        return;
      }
      ghost var up := Lifted(s0.nodes, rank, nid, p);
      MoveDone(s0, st, nid, p);
      MovedFixed(s0.nodes, st.nodes, nid, p);
      if Distinct(s0, fold) {
        MoveDistinct(s0, st, nid, p);
      }
      rank := up;
    }

    lemma MovedFixed(n: Nodes, m: Nodes, nid: nat, p: nat)
      requires !Protected(nid) && MovedNodes(n, m, nid, p, now)
      ensures Fixtures(n, m)
    {
    }

    lemma MoveDone(s0: St, w: St, nid: nat, p: nat)
      requires Coherent(s0) && Ranked(s0.nodes, rank) && Numbered(s0, nextFolder, nextMsg)
      requires nid in s0.nodes && p in s0.nodes && nid != ROOT && !Below(s0.nodes, rank, nid, p) &&
        s0.nodes[nid].parent != p
      requires MoveStates(s0, w, nid, p, now)
      ensures Coherent(w) && w.msgs == s0.msgs && MovedNodes(s0.nodes, w.nodes, nid, p, now)
      ensures Ranked(w.nodes, Lifted(s0.nodes, rank, nid, p)) && Numbered(w, nextFolder, nextMsg)
    {
      RankedProper(s0, rank);
      assert p != nid;
      assert Movable(s0, nid, p);
      hide Ranked, Numbered, Shape, Idx, TypeOf, Almost, Below, Writable, MovedNodes, Lifted, Relinked, Rehooked,
           Synced, Proper, Movable;
      MovedCoherent(s0, nid, p, now);
      assert w == Moved(s0, nid, p, now);
      hide Moved, MoveStates, Coherent;
      MovedTree(s0, w, rank, nid, p, now);
      AfterMove(s0, w, nid, p, now, nextFolder, nextMsg);
    }

    lemma MoveDistinct(s0: St, w: St, nid: nat, p: nat)
      requires Shape(s0) && MovedNodes(s0.nodes, w.nodes, nid, p, now) && nid in s0.nodes && s0.nodes[nid].parent != p
      requires Ranked(s0.nodes, rank) && nid != ROOT && p in s0.nodes && !Below(s0.nodes, rank, nid, p)
      requires Distinct(s0, fold) && !Clash(s0, fold, p, s0.nodes[nid].pc.name, 0)
      ensures Distinct(w, fold)
    {
      assert p != nid;
      hide Below, MovedNodes, Distinct;
      MovedParents(s0.nodes, w.nodes, rank, nid, p, now);
      Reachable(s0, nid);
      assert !Clash(s0, fold, p, s0.nodes[nid].pc.name, nid);
      hide Clash, Shape, Ranked;
      OneNamed(s0, w, fold, nid);
    }
  
    /** Delete may take `x`: not a special folder, no messages, no associated contents. */
    ghost predicate Clean(s: St, x: nat) {
      !Protected(x) && Fai(s, x) == {} && forall m | m in s.msgs :: s.msgs[m].folder != x
    }

    /** Everything from `nid` down may go. */
    ghost predicate Deletable(s: St, nid: nat)
      reads `rank
    {
      Ranked(s.nodes, rank) && nid in s.nodes && forall x | x in s.nodes && Below(s.nodes, rank, nid, x) :: Clean(s, x)
    }

    /** What has been taken so far could be taken. */
    ghost predicate CleanSoFar(s: St, nid: nat, todo: set<nat>)
      reads `rank
    {
      Ranked(s.nodes, rank) && forall x | x in s.nodes && !Remains(s.nodes, rank, nid, todo, x) :: Clean(s, x)
    }

    lemma CleanStep(s: St, mid: St, nid: nat, todo: set<nat>, c: nat)
      requires Thinned(s, mid, rank, nid, todo) && Shape(s) && Shape(mid) && c in todo && IsKid(s, nid, c)
      requires CleanSoFar(s, nid, todo) && Deletable(mid, c)
      ensures CleanSoFar(s, nid, todo - {c})
    {
      hide Shape, Ranked, Remains, Below, Clean;
      ThinnedKid(s, mid, rank, nid, todo, c);
      forall x | x in s.nodes && !Remains(s.nodes, rank, nid, todo - {c}, x)
        ensures Clean(s, x)
      {
        hide CleanSoFar, Deletable;
        RemainsStep(s.nodes, rank, nid, todo, c, x);
        CleanAt(s, mid, nid, todo, c, x);
      }
    }

    lemma CleanAt(s: St, mid: St, nid: nat, todo: set<nat>, c: nat, x: nat)
      requires Thinned(s, mid, rank, nid, todo) && Ranked(mid.nodes, rank) && Ranked(s.nodes, rank) && x in s.nodes
      requires forall f | f in mid.nodes ::
        f in s.nodes && (Below(mid.nodes, rank, c, f) <==> Below(s.nodes, rank, c, f))
      requires !Remains(s.nodes, rank, nid, todo, x) || Below(s.nodes, rank, c, x)
      requires CleanSoFar(s, nid, todo) && Deletable(mid, c)
      ensures Clean(s, x)
    {
      hide Ranked, Remains, Below, Fai, Protected;
      if Remains(s.nodes, rank, nid, todo, x) {
        assert x in mid.nodes;
        assert Clean(mid, x);
      }
    }

    /** A child that may not go keeps its parent. */
    lemma ChildRefused(s: St, mid: St, nid: nat, todo: set<nat>, c: nat)
      requires Thinned(s, mid, rank, nid, todo) && Shape(s) && Shape(mid) && c in todo && IsKid(s, nid, c)
      requires Deletable(s, nid)
      ensures Deletable(mid, c)
    {
      hide Shape, Ranked, Remains, Below, Clean, Fai;
      ThinnedKid(s, mid, rank, nid, todo, c);
      forall x | x in mid.nodes && Below(mid.nodes, rank, c, x)
        ensures Clean(mid, x)
      {
        BranchIs(s.nodes, rank, nid, c, x);
        hide Branch;
        assert Clean(s, x);
        assert Fai(mid, x) == Fai(s, x) && mid.msgs == s.msgs;
        hide Thinned, Deletable;
        SameClean(s, mid, x);
      }
    }

    lemma SameClean(s: St, mid: St, x: nat)
      requires Clean(s, x) && Fai(mid, x) == Fai(s, x) && mid.msgs == s.msgs
      ensures Clean(mid, x)
    {
      hide Protected, Fai;
    }

    /** The recursion of Delete: children first, in any order. */
    method DeleteLocked(nid: nat, ghost bound: nat) returns (r: Result<()>)
      requires Coherent(st) && Ranked(st.nodes, rank) && forall f | f in st.nodes :: f in rank && rank[f] <= bound
      modifies `st
      ensures r.Ok? ==>
        Deletable(old(st), nid) && Coherent(st) && Ranked(st.nodes, rank) && Deleted(old(st), st, rank, nid, now)
      ensures r.Err? ==> if r.error == Io then faulty else !Deletable(old(st), nid)
      decreases if nid in rank && rank[nid] <= bound then bound - rank[nid] + 1 else 0
    {
      hide Shape, Almost, Ranked, Below, Remains, Idx, TypeOf, Hier, Thinned, Deleted, Deletable, CleanSoFar, Clean;
      if Protected(nid) {
        RefusedSelf(st, nid);
        return Err(InvalidArg);
      }
      if nid !in st.nodes {
        assert !Deletable(st, nid) by {
          AbsentRefused(st, nid);
        }
        return Err(InvalidArg);
      }
      ghost var s0 := st;
      var todo := Hier(st, nid).Keys;
      ThinnedStart(st, rank, nid, todo);
      CleanStart(st, nid, todo);
      while todo != {}
        invariant Coherent(st) && Ranked(st.nodes, rank) && Thinned(s0, st, rank, nid, todo) &&
          CleanSoFar(s0, nid, todo)
        invariant forall c | c in todo :: IsKid(s0, nid, c)
        decreases |todo|
      {
        var c :| c in todo;
        ghost var mid := st;
        ThinnedKid(s0, mid, rank, nid, todo, c);
        r := DeleteLocked(c, bound);
        if r.Err? {
          if r.error != Io && Deletable(s0, nid) {
            ChildRefused(s0, mid, nid, todo, c);
          }
          return;
        }
        ThinnedStep(s0, mid, st, rank, nid, todo, c, now);
        CleanStep(s0, mid, nid, todo, c);
        todo := todo - {c};
      }
      ThinnedEmpty(s0, st, rank, nid);
      r := DeleteNode(nid, s0);
    }
  
    lemma RefusedSelf(s: St, nid: nat)
      requires Protected(nid)
      ensures !Deletable(s, nid)
    {
      hide Protected, Fai, Ranked;
      assert Ranked(s.nodes, rank) && nid in s.nodes ==> Below(s.nodes, rank, nid, nid);
    }

    lemma AbsentRefused(s: St, nid: nat)
      requires nid !in s.nodes
      ensures !Deletable(s, nid)
    {
    }

    lemma DirtyRefused(s: St, nid: nat)
      requires !Clean(s, nid)
      ensures !Deletable(s, nid)
    {
      hide Clean, Ranked;
      assert Ranked(s.nodes, rank) && nid in s.nodes ==> Below(s.nodes, rank, nid, nid);
    }

    lemma CleanStart(s: St, nid: nat, kids: set<nat>)
      requires Thinned(s, s, rank, nid, kids)
      ensures CleanSoFar(s, nid, kids)
    {
      hide Remains, Ranked, Clean, Fai;
      assert forall x | x in s.nodes :: Remains(s.nodes, rank, nid, kids, x);
    }

    lemma CleanEnd(s: St, nid: nat)
      requires CleanSoFar(s, nid, {}) && Clean(s, nid) && nid in s.nodes
      ensures Deletable(s, nid)
    {
      hide Ranked, Clean;
      forall x | x in s.nodes && Below(s.nodes, rank, nid, x)
        ensures Clean(s, x)
      {
        if x != nid {
          assert !Remains(s.nodes, rank, nid, {}, x);
        }
      }
    }

    /** The messages of `nid` are still there, and still in its contents table. */
    lemma CleanWhen(s: St, w: St, nid: nat)
      requires Thinned(s, w, rank, nid, {}) && Coherent(w)
      ensures nid in w.nodes && Fai(w, nid) == Fai(s, nid)
      ensures !Protected(nid) && Contents(w, nid) == map[] && Fai(s, nid) == {} <==> Clean(s, nid)
    {
      hide Shape, Almost, Ranked, Remains, Fai, Protected, Hier;
      CoherentRows(w, nid);
      hide Contents;
      if Contents(w, nid) != map[] {
        SomeKey(Contents(w, nid));
        var m :| m in Contents(w, nid);
        assert m in MsgsIn(w, nid);
      } else {
        assert MsgsIn(w, nid) == {};
        forall m | m in s.msgs
          ensures s.msgs[m].folder != nid
        {
          assert m !in MsgsIn(w, nid);
        }
      }
    }

    /** The row, the three tables and the node itself. */
    method DropNode(p: nat, nid: nat) returns (r: Result<()>)
      modifies `st
      ensures r.Ok? ==> Idx(p) in old(st).hier && st == Dropped(old(st), p, nid)
      ensures Standing(old(st)) && nid in old(st).nodes && nid in Hier(old(st), p) && !faulty ==> r.Ok?
    {
      if Standing(st) && nid in st.nodes {
        Stands(st, nid);
      }
      hide Idx, Standing;
      var r1 := RemoveChildRow(p, nid);
      if r1.Err? {
        return Err(Io);
      }
      var io := Fails();
      if io || Idx(nid) !in st.hier || Idx(nid) !in st.contents || Idx(nid) !in st.fai || nid !in st.nodes {
        return Err(Io);
      }
      st := st.(hier := st.hier - {Idx(nid)});
      st := st.(contents := st.contents - {Idx(nid)});
      st := st.(fai := st.fai - {Idx(nid)});
      st := st.(nodes := st.nodes - {nid});
      return Ok(());
    }

    /** The end of deleteLocked, once the children are gone. */
    method DeleteNode(nid: nat, ghost s0: St) returns (r: Result<()>)
      requires Coherent(s0) && Coherent(st) && Ranked(st.nodes, rank) && Thinned(s0, st, rank, nid, {}) &&
        CleanSoFar(s0, nid, {})
      requires nid in st.nodes && nid != ROOT && !Protected(nid) && Hier(st, nid) == map[]
      modifies `st
      ensures r.Ok? ==> Deletable(s0, nid) && Coherent(st) && Ranked(st.nodes, rank) && Deleted(s0, st, rank, nid, now)
      ensures r.Err? ==> if r.error == Io then faulty else !Deletable(s0, nid)
    {
      hide Shape, Almost, Ranked, Remains, Idx, TypeOf, Hier, Thinned, Deleted, Deletable, CleanSoFar, Clean,
           Protected, Contents, Fai, Dropped, Synced, Writable, Standing;
      CleanWhen(s0, st, nid);
      Reachable(st, nid);
      if Contents(st, nid) != map[] {
        DirtyRefused(s0, nid);
        return Err(InvalidArg);
      }
      if Fai(st, nid) != {} {
        DirtyRefused(s0, nid);
        return Err(InvalidArg);
      }
      InThinned(s0, st, nid);
      CleanEnd(s0, nid);
      ghost var w := st;
      var parent := st.nodes[nid].parent;
      ShapeStands(st);
      CoherentRows(st, parent);
      DropOpen(st, parent, nid);
      var r1 := DropNode(parent, nid);
      if r1.Err? {
        return Err(Io);
      }
      var r2 := SyncFlags(parent);
      if r2.Err? {
        return Err(Io);
      }
      DeleteDone(s0, w, st, nid);
      return Ok(());
    }

    lemma DropOpen(s: St, p: nat, nid: nat)
      requires Shape(s) && nid in s.nodes && p in s.nodes && s.nodes[nid].parent == p && Ranked(s.nodes, rank)
      ensures Idx(p) in s.hier && Writable(Dropped(s, p, nid), p) && Idx(p) in Dropped(s, p, nid).hier
    {
      hide TypeOf, Idx;
    }

    lemma InThinned(s0: St, w: St, nid: nat)
      requires Thinned(s0, w, rank, nid, {})
      ensures nid in s0.nodes
    {
    }

    lemma DeleteDone(s0: St, w: St, r: St, nid: nat)
      requires Coherent(s0) && Coherent(w) && Ranked(w.nodes, rank) && Thinned(s0, w, rank, nid, {})
      requires nid in w.nodes && nid != ROOT && Hier(w, nid) == map[] && Contents(w, nid) == map[]
      requires Idx(w.nodes[nid].parent) in w.hier && Writable(Dropped(w, w.nodes[nid].parent, nid), w.nodes[nid].parent)
      requires r == Removed(w, nid, now)
      ensures Coherent(r) && Ranked(r.nodes, rank) && Deleted(s0, r, rank, nid, now)
    {
      hide Shape, Almost, Ranked, Remains, Idx, TypeOf, Hier, Thinned, Deleted, Contents, Fai, Dropped, Synced,
           Writable, Proper;
      RankedProper(w, rank);
      RankedSelf(w, rank, nid);
      assert Empty(w, nid);
      RemovedCoherent(w, nid, now);
      RemovedFai(w, nid, now);
      hide Removed, Coherent, Empty;
      ThinnedParents(s0, w, rank, nid, {});
      var p := w.nodes[nid].parent;
      ThinnedEnd(s0, w, r, rank, nid, now);
      SameParentsRanked(w.nodes, r.nodes, rank);
    }

    /** Delete: all or nothing. What remains is exactly what is not below the folder; nothing below it was protected
        or held messages. */
    method Delete(nid: nat) returns (r: Result<()>)
      requires Valid()
      modifies this
      ensures Valid() && nextFolder == old(nextFolder) && nextMsg == old(nextMsg)
      ensures r.Ok? ==> old(Deletable(st, nid)) && Deleted(old(st), st, old(rank), nid, now)
      ensures r.Err? ==> if r.error == Io then faulty else !old(Deletable(st, nid))
      ensures r.Err? ==> st == old(st)
      ensures Distinct(old(st), fold) ==> Distinct(st, fold)
      ensures Fixtures(old(st).nodes, st.nodes)
    {
      hide Shape, Almost, Ranked, Numbered, Deleted, Deletable, Distinct, Fixtures;
      StillFixed(st.nodes);
      ghost var s0 := st;
      var snapshot := st;
      ghost var bound := RanksBounded();
      r := DeleteLocked(nid, bound);
      if r.Err? {
        st := snapshot;
        return;
      }
      AfterDelete(s0, st, nid);
      DeletedFixed(s0, st, nid);
    }

    lemma DeletedFixed(s: St, w: St, nid: nat)
      requires Deletable(s, nid) && Deleted(s, w, rank, nid, now)
      ensures Fixtures(s.nodes, w.nodes)
    {
      hide Below, Ranked, Fai;
    }

    lemma AfterDelete(s: St, w: St, nid: nat)
      requires Deleted(s, w, rank, nid, now) && Numbered(s, nextFolder, nextMsg)
      ensures Numbered(w, nextFolder, nextMsg)
      ensures Distinct(s, fold) ==> Distinct(w, fold)
    {
      hide Below, Ranked, Idx, TypeOf, Fai;
      forall f | f in w.nodes
        ensures f in s.nodes && w.nodes[f].parent == s.nodes[f].parent && w.nodes[f].pc.name == s.nodes[f].pc.name
      {
      }
      assert Numbered(w, nextFolder, nextMsg);
      hide Numbered, Deleted;
      if Distinct(s, fold) {
        SameNames(s, w, fold);
      }
    }

    /** Some number no rank exceeds. */
    lemma Bounded(fs: set<nat>) returns (b: nat)
      requires forall f | f in fs :: f in rank
      ensures forall f | f in fs :: rank[f] <= b
    {
      b := 0;
      if fs != {} {
        var x :| x in fs;
        var c := Bounded(fs - {x});
        b := if rank[x] <= c then c else rank[x];
      }
    }

    lemma RanksBounded() returns (b: nat)
      requires Ranked(st.nodes, rank)
      ensures forall f | f in st.nodes :: f in rank && rank[f] <= b
    {
      b := Bounded(st.nodes.Keys);
    }
  
    /** What CreateMessage checks before it writes; `wellFormed` stands for the limits and enumerations of the message
        itself. */
    ghost predicate MayPost(folder: nat, planned: nat, wellFormed: bool)
      reads `st
    {
      wellFormed && HoldsChildren(folder) &&
        (planned == 0 || (TypeOf(planned) == NORMAL_MESSAGE && planned !in st.msgs))
    }

    method WriteMessage(folder: nat, m: nat, read: bool) returns (r: Result<()>)
      modifies `st
      ensures r.Ok? ==> Idx(folder) in old(st).contents && st == WithMessage(old(st), folder, m, read)
      ensures Idx(folder) in old(st).contents && !faulty ==> r.Ok?
    {
      hide Idx;
      var io := Fails();
      if io || Idx(folder) !in st.contents {
        return Err(Io);
      }
      st := st.(msgs := st.msgs[m := Msg(folder, read)]);
      var t: map<nat, bool> := st.contents[Idx(folder)];
      st := st.(contents := st.contents[Idx(folder) := t[m := read]]);
      return Ok(());
    }

    /** The contents row, then the message node. */
    method DropMessage(folder: nat, m: nat) returns (r: Result<()>)
      modifies `st
      ensures r.Ok? ==> Idx(folder) in old(st).contents && st == WithoutMessage(old(st), folder, m)
      ensures m in Contents(old(st), folder) && m in old(st).msgs && !faulty ==> r.Ok?
    {
      hide Idx;
      var io := Fails();
      if io || Idx(folder) !in st.contents || m !in st.contents[Idx(folder)] || m !in st.msgs {
        return Err(Io);
      }
      st := st.(contents := st.contents[Idx(folder) := st.contents[Idx(folder)] - {m}]);
      st := st.(msgs := st.msgs - {m});
      return Ok(());
    }

    method AdjustCounts(f: nat, dContent: int, dUnread: int) returns (r: Result<()>)
      modifies `st
      ensures r.Ok? ==> Writable(old(st), f) && st == Adjusted(old(st), f, dContent, dUnread, now)
      ensures Writable(old(st), f) && Idx(f) in old(st).hier && !faulty ==> r.Ok?
    {
      hide Idx, Mutated;
      if f !in st.nodes {
        return Err(Io);
      }
      var content := st.nodes[f].pc.content + dContent;
      var unread := st.nodes[f].pc.unread + dUnread;
      if content < 0 {
        content := 0;
      }
      if unread < 0 {
        unread := 0;
      }
      r := MutatePc(f, st.nodes[f].pc.(content := content, unread := unread, modified := now));
    }

    /** The NID: the planned one, or the next. */
    method TakeMessageNid(planned: nat) returns (m: nat)
      requires Numbered(st, nextFolder, nextMsg)
      requires planned == 0 || (TypeOf(planned) == NORMAL_MESSAGE && planned !in st.msgs)
      modifies `nextMsg
      ensures m == (if planned == 0 then MakeNid(NORMAL_MESSAGE, old(nextMsg)) else planned)
      ensures m !in st.msgs && TypeOf(m) == NORMAL_MESSAGE && Idx(m) < nextMsg && nextMsg >= old(nextMsg)
    {
      if planned == 0 {
        m := MakeNid(NORMAL_MESSAGE, nextMsg);
        nextMsg := nextMsg + 1;
      } else {
        m := planned;
        if nextMsg < Idx(planned) + 1 {
          nextMsg := Idx(planned) + 1;
        }
      }
      hide Idx, TypeOf, MakeNid;
    }

    method CreateMessageLocked(folder: nat, planned: nat, read: bool, wellFormed: bool) returns (r: Result<nat>)
      requires Valid()
      modifies `st, `nextMsg
      ensures r.Ok? ==> old(MayPost(folder, planned, wellFormed))
      ensures !old(MayPost(folder, planned, wellFormed)) ==> r.Err? && r.error != Io
      ensures old(MayPost(folder, planned, wellFormed)) && r.Err? ==> r.error == Io && faulty
      ensures r.Ok? ==>
        && folder in old(st).nodes && r.value !in old(st).msgs && TypeOf(r.value) == NORMAL_MESSAGE &&
           Idx(r.value) < nextMsg
        && nextMsg >= old(nextMsg) && (planned != 0 ==> r.value == planned)
        && Idx(folder) in old(st).contents && Writable(WithMessage(old(st), folder, r.value, read), folder)
        && st == Delivered(old(st), folder, r.value, read, now)
    {
      hide Idx, TypeOf, Almost, Shape, Ranked, Numbered, WithMessage, Writable, Adjusted, MakeNid;
      if folder !in st.nodes {
        return Err(InvalidArg);
      }
      if folder == finder || TypeOf(folder) == SEARCH_FOLDER {
        return Err(Unsupported);
      }
      if folder != ROOT && TypeOf(folder) != NORMAL_FOLDER {
        return Err(InvalidArg);
      }
      if !wellFormed {
        return Err(InvalidArg);
      }
      if planned != 0 && (TypeOf(planned) != NORMAL_MESSAGE || planned in st.msgs) {
        return Err(InvalidArg);
      }
      Reachable(st, folder);
      var m := TakeMessageNid(planned);
      PostOpen(st, folder, m, read);
      var r1 := WriteMessage(folder, m, read);
      if r1.Err? {
        return Err(Io);
      }
      var r2 := AdjustCounts(folder, 1, if read then 0 else 1);
      if r2.Err? {
        return Err(Io);
      }
      return Ok(m);
    }

    lemma PostOpen(s: St, folder: nat, m: nat, read: bool)
      requires Writable(s, folder) && Idx(folder) in s.hier && Idx(folder) in s.contents
      ensures Writable(WithMessage(s, folder, m, read), folder) && Idx(folder) in WithMessage(s, folder, m, read).hier
    {
      hide Idx;
    }

    /** CreateMessage: all or nothing; the folder's counters count the new message. */
    method CreateMessage(folder: nat, planned: nat, read: bool, wellFormed: bool) returns (r: Result<nat>)
      requires Valid()
      modifies this
      ensures Valid() && nextFolder == old(nextFolder)
      ensures r.Ok? ==> old(MayPost(folder, planned, wellFormed)) && folder in old(st).nodes
      ensures !old(MayPost(folder, planned, wellFormed)) ==> r.Err? && r.error != Io
      ensures old(MayPost(folder, planned, wellFormed)) && r.Err? ==> r.error == Io && faulty
      ensures r.Err? ==> st == old(st) && nextMsg == old(nextMsg)
      ensures r.Ok? ==>
        && r.value !in old(st).msgs && (planned != 0 ==> r.value == planned) &&
           st.msgs == old(st).msgs[r.value := Msg(folder, read)]
        && st.nodes == old(st).nodes[folder := Bumped(old(st).nodes[folder], 1, read, now)]
      ensures Distinct(old(st), fold) ==> Distinct(st, fold)
      ensures Fixtures(old(st).nodes, st.nodes)
    {
      hide Idx, TypeOf, Almost, Shape, Ranked, Numbered, WithMessage, Writable, Distinct, Delivered, Bumped, Fixtures;
      StillFixed(st.nodes);
      ghost var s0 := st;
      var snapshot, msgs := st, nextMsg;
      r := CreateMessageLocked(folder, planned, read, wellFormed);
      if r.Err? {
        st, nextMsg := snapshot, msgs;
        return;
      }
      RankedProper(s0, rank);
      DeliveredCoherent(s0, folder, r.value, read, now);
      AfterBump(s0, st, folder, 1, read, msgs);
    }

    lemma AfterBump(s: St, w: St, f: nat, d: int, read: bool, msgs: nat)
      requires Ranked(s.nodes, rank) && f in s.nodes && Numbered(s, nextFolder, msgs) && nextMsg >= msgs
      requires w.nodes == s.nodes[f := Bumped(s.nodes[f], d, read, now)]
      requires forall m | m in w.msgs :: m in s.msgs || Idx(m) < nextMsg
      ensures Ranked(w.nodes, rank) && Numbered(w, nextFolder, nextMsg)
      ensures Distinct(s, fold) ==> Distinct(w, fold)
      ensures Fixtures(s.nodes, w.nodes)
    {
      SameParentsRanked(s.nodes, w.nodes, rank);
      hide Idx, TypeOf, Ranked;
      assert Numbered(w, nextFolder, nextMsg);
      hide Numbered;
      if Distinct(s, fold) {
        SameNames(s, w, fold);
      }
    }

    method DeleteMessageLocked(m: nat) returns (r: Result<()>)
      requires Valid()
      modifies `st
      ensures r.Ok? ==>
        && m in old(st).msgs && Idx(old(st).msgs[m].folder) in old(st).contents
        && Writable(WithoutMessage(old(st), old(st).msgs[m].folder, m), old(st).msgs[m].folder) &&
           st == Withdrawn(old(st), m, now)
      ensures m !in old(st).msgs ==> r.Err? && r.error != Io
      ensures m in old(st).msgs && r.Err? ==> r.error == Io && faulty
    {
      if m in st.msgs {
        MessageShape(st, m);
      }
      hide Idx, Almost, Shape, Ranked, Numbered, WithoutMessage, Writable, Adjusted;
      if TypeOf(m) != NORMAL_MESSAGE || m !in st.msgs {
        return Err(InvalidArg);
      }
      var folder := st.msgs[m].folder;
      var unread := if st.msgs[m].read then 0 else 1;
      var r1 := DropMessage(folder, m);
      if r1.Err? {
        return Err(Io);
      }
      var r2 := AdjustCounts(folder, -1, -unread);
      if r2.Err? {
        return Err(Io);
      }
      return Ok(());
    }

    lemma MessageShape(s: St, m: nat)
      requires Shape(s) && m in s.msgs
      ensures TypeOf(m) == NORMAL_MESSAGE && s.msgs[m].folder in s.nodes
    {
      hide Idx;
    }

    /** DeleteMessage: all or nothing; the folder's counters no longer count it. */
    method DeleteMessage(m: nat) returns (r: Result<()>)
      requires Valid()
      modifies this
      ensures Valid() && nextFolder == old(nextFolder) && nextMsg == old(nextMsg)
      ensures r.Ok? ==> m in old(st).msgs
      ensures m !in old(st).msgs ==> r.Err? && r.error != Io
      ensures m in old(st).msgs && r.Err? ==> r.error == Io && faulty
      ensures r.Err? ==> st == old(st)
      ensures r.Ok? ==> st.msgs == old(st).msgs - {m} && old(st).msgs[m].folder in old(st).nodes
      ensures r.Ok? ==>
        var f := old(st).msgs[m].folder;
        st.nodes == old(st).nodes[f := Bumped(old(st).nodes[f], -1, old(st).msgs[m].read, now)]
      ensures Distinct(old(st), fold) ==> Distinct(st, fold)
      ensures Fixtures(old(st).nodes, st.nodes)
    {
      hide Idx, TypeOf, Almost, Shape, Ranked, Numbered, WithoutMessage, Writable, Distinct, Withdrawn, Bumped,
           Fixtures;
      StillFixed(st.nodes);
      ghost var s0 := st;
      var snapshot := st;
      r := DeleteMessageLocked(m);
      if r.Err? {
        st := snapshot;
        return;
      }
      RankedProper(s0, rank);
      WithdrawnCoherent(s0, m, now);
      AfterBump(s0, st, s0.msgs[m].folder, -1, s0.msgs[m].read, nextMsg);
    }
  }

  /** moveLocked's writes all went through. */
  ghost predicate MoveStates(s: St, w: St, nid: nat, p: nat, now: nat) {
    && nid in s.nodes && Idx(s.nodes[nid].parent) in s.hier && Writable(Relinked(s, nid, p), nid)
    && Writable(Rehooked(s, nid, p, now), s.nodes[nid].parent)
    && Writable(Synced(Rehooked(s, nid, p, now), s.nodes[nid].parent, now), p)
    && w == Moved(s, nid, p, now)
  }
}
