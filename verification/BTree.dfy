/** BTPAGEs and the multi-level trees over them (btree.go, ndb.go), with the package reader's search
    (pkg/ndb/database.go). */
module BTree {
  import opened Common
  import opened Geometry
  import opened Blocks

  const MAX_NBT_LEAF: nat := 15
  const MAX_BBT_LEAF: nat := 20
  const MAX_NONLEAF: nat := 20

  datatype PType = NBT | BBT

  datatype Entry = N(n: NBTEntry) | B(b: BBTEntry)

  datatype BTEntry = BTEntry(key: nat, ref: BREF)

  /** A decoded BTPAGE. */
  datatype Page = Page(bid: nat, ptype: PType, level: nat, leaves: seq<Entry>, kids: seq<BTEntry>)

  type Image = map<nat, Page>

  function Key(e: Entry): nat {
    match e
    case N(n) => n.nid
    case B(b) => b.bid
  }

  function MaxLeaf(ptype: PType): nat {
    if ptype == NBT then MAX_NBT_LEAF else MAX_BBT_LEAF
  }

  /** The checks on one leaf entry. */
  predicate EntryOk(ptype: PType, e: Entry) {
    match e
    case N(n) => ptype == NBT && 0 < n.nid < U32
    case B(b) => ptype == BBT && b.bid != 0 && !HasReserved(b.bid) && b.refs != 0
  }

  /** What encodeBTPayload produces and InspectBTPage accepts. */
  predicate PageOk(p: Page) {
    if p.level == 0 then
      && p.kids == [] && |p.leaves| <= MaxLeaf(p.ptype)
      && (forall i | 0 <= i < |p.leaves| :: EntryOk(p.ptype, p.leaves[i]))
      && forall i | 0 < i < |p.leaves| :: Key(p.leaves[i - 1]) < Key(p.leaves[i])
    else
      && p.leaves == [] && |p.kids| <= MAX_NONLEAF
      && (forall i | 0 <= i < |p.kids| :: p.kids[i].ref.bid != 0)
      && forall i | 0 < i < |p.kids| :: p.kids[i - 1].key < p.kids[i].key
  }

  /** A finite tree of pages, as followed from a root reference. */
  datatype Shape = Shape(ref: BREF, level: nat, leaves: seq<Entry>, kids: seq<Shape>)

  function Flat(s: Shape): seq<Entry>
    decreases s, 1
  {
    if s.level == 0 then s.leaves else FlatAll(s.kids)
  }

  function FlatAll(ss: seq<Shape>): seq<Entry>
    decreases ss, 0
  {
    if ss == [] then [] else Flat(ss[0]) + FlatAll(ss[1..])
  }

  /** The pages of a tree, parents first. */
  function Refs(s: Shape): seq<BREF>
    decreases s, 1
  {
    [s.ref] + if s.level == 0 then [] else RefsAll(s.kids)
  }

  function RefsAll(ss: seq<Shape>): seq<BREF>
    decreases ss, 0
  {
    if ss == [] then [] else Refs(ss[0]) + RefsAll(ss[1..])
  }

  function FirstKey(s: Shape): nat
    decreases s
  {
    if s.level == 0 then if s.leaves == [] then 0 else Key(s.leaves[0])
    else if s.kids == [] then 0 else FirstKey(s.kids[0])
  }

  /** The image holds the tree: every page is there, and separators are first keys of the children. */
  ghost predicate In(img: Image, ptype: PType, s: Shape)
    decreases s
  {
    && s.ref.ib in img
    && img[s.ref.ib].bid == s.ref.bid && img[s.ref.ib].ptype == ptype && img[s.ref.ib].level == s.level &&
       PageOk(img[s.ref.ib])
    && img[s.ref.ib].leaves == s.leaves && (s.level == 0 ==> s.kids == [])
    && (s.level > 0 ==> |img[s.ref.ib].kids| == |s.kids|)
    && (s.level > 0 ==> forall i | 0 <= i < |s.kids| ::
          img[s.ref.ib].kids[i] == BTEntry(FirstKey(s.kids[i]), s.kids[i].ref) && In(img, ptype, s.kids[i]))
  }

  ghost predicate InAll(img: Image, ptype: PType, ss: seq<Shape>) {
    forall i | 0 <= i < |ss| :: In(img, ptype, ss[i])
  }

  ghost function IBs(refs: seq<BREF>): set<nat> {
    set r | r in refs :: r.ib
  }

  /** A key as a search compares it: the package reader clears the internal bit of block BIDs. */
  function View(strip: bool, key: nat): nat {
    if strip then Strip(key) else key
  }

  ghost predicate Sorted(es: seq<Entry>, strip: bool) {
    forall i, j | 0 <= i < j < |es| :: View(strip, Key(es[i])) < View(strip, Key(es[j]))
  }

  lemma FlatAllCons(s: Shape, ss: seq<Shape>)
    ensures FlatAll([s] + ss) == Flat(s) + FlatAll(ss) && RefsAll([s] + ss) == Refs(s) + RefsAll(ss)
  {
    assert ([s] + ss)[0] == s && ([s] + ss)[1..] == ss;
    hide Flat, Refs;
  }

  lemma FlatAllNone()
    ensures FlatAll([]) == [] && RefsAll([]) == []
  {
  }

  lemma {:induction false} FlatAllAppend(a: seq<Shape>, b: seq<Shape>)
    ensures FlatAll(a + b) == FlatAll(a) + FlatAll(b)
    ensures RefsAll(a + b) == RefsAll(a) + RefsAll(b)
  {
    hide FlatAll, RefsAll;
    if a == [] {
      FlatAllNone();
      assert a + b == b;
    } else {
      FlatAllAppend(a[1..], b);
      FlatAllCons(a[0], a[1..]);
      FlatAllCons(a[0], a[1..] + b);
      assert [a[0]] + a[1..] == a;
      assert [a[0]] + (a[1..] + b) == a + b;
    }
  }

  lemma FlatAllOne(s: Shape)
    ensures FlatAll([s]) == Flat(s) && RefsAll([s]) == Refs(s)
  {
    hide FlatAll, RefsAll;
    FlatAllNone();
    FlatAllCons(s, []);
    assert [s] + [] == [s];
  }

  /** A new page elsewhere does not disturb a tree. */
  lemma {:induction false} InKept(img: Image, img': Image, ptype: PType, s: Shape)
    requires In(img, ptype, s) && forall r | r in Refs(s) :: r.ib in img' && (r.ib in img ==> img'[r.ib] == img[r.ib])
    ensures In(img', ptype, s)
    decreases s, 1
  {
    assert s.ref in Refs(s);
    if s.level > 0 {
      assert forall r | r in RefsAll(s.kids) :: r in Refs(s);
      InAllKept(img, img', ptype, s.kids);
    }
  }

  lemma {:induction false} InAllKept(img: Image, img': Image, ptype: PType, ss: seq<Shape>)
    requires InAll(img, ptype, ss) && forall r | r in RefsAll(ss) ::
      r.ib in img' && (r.ib in img ==> img'[r.ib] == img[r.ib])
    ensures InAll(img', ptype, ss)
    decreases ss, 0
  {
    if ss != [] {
      InKept(img, img', ptype, ss[0]);
      assert forall i | 0 <= i < |ss| - 1 :: ss[1..][i] == ss[i + 1];
      InAllKept(img, img', ptype, ss[1..]);
      forall i | 0 <= i < |ss|
        ensures In(img', ptype, ss[i])
      {
        if i > 0 {
          assert ss[1..][i - 1] == ss[i];
        }
      }
    }
  }

  /** All pages of a tree in the image are pages of the image. */
  lemma {:induction false} RefsIn(img: Image, ptype: PType, s: Shape)
    requires In(img, ptype, s)
    ensures forall r | r in Refs(s) :: r.ib in img && img[r.ib].bid == r.bid
    decreases s, 1
  {
    if s.level > 0 {
      RefsAllIn(img, ptype, s.kids);
    }
  }

  lemma {:induction false} RefsAllIn(img: Image, ptype: PType, ss: seq<Shape>)
    requires InAll(img, ptype, ss)
    ensures forall r | r in RefsAll(ss) :: r.ib in img && img[r.ib].bid == r.bid
    decreases ss, 0
  {
    if ss != [] {
      RefsIn(img, ptype, ss[0]);
      assert forall i | 0 <= i < |ss| - 1 :: ss[1..][i] == ss[i + 1];
      RefsAllIn(img, ptype, ss[1..]);
    }
  }

  // ---------- keys ----------

  /** A tree without empty pages, as the encoder makes them. */
  ghost predicate Full(s: Shape)
    decreases s
  {
    && (s.level == 0 ==> s.leaves != [])
    && (s.level > 0 ==>
        s.kids != [] && forall i | 0 <= i < |s.kids| :: Full(s.kids[i]) && s.kids[i].level == s.level - 1)
  }

  lemma {:induction false} FirstKeyFlat(s: Shape)
    requires Full(s)
    ensures Flat(s) != [] && FirstKey(s) == Key(Flat(s)[0])
    decreases s
  {
    if s.level > 0 {
      FirstKeyFlat(s.kids[0]);
    }
  }

  lemma {:induction false} FlatAllPart(ss: seq<Shape>, i: nat)
    requires i < |ss|
    ensures FlatAll(ss) == FlatAll(ss[..i]) + Flat(ss[i]) + FlatAll(ss[i + 1..])
    ensures RefsAll(ss) == RefsAll(ss[..i]) + Refs(ss[i]) + RefsAll(ss[i + 1..])
  {
    FlatAllAppend(ss[..i], ss[i..]);
    assert ss[..i] + ss[i..] == ss;
    assert ss[i..] == [ss[i]] + ss[i + 1..];
    FlatAllAppend([ss[i]], ss[i + 1..]);
    FlatAllOne(ss[i]);
  }

  lemma SortedParts(a: seq<Entry>, b: seq<Entry>, strip: bool)
    requires Sorted(a + b, strip)
    ensures Sorted(a, strip) && Sorted(b, strip)
    ensures forall i, j | 0 <= i < |a| && 0 <= j < |b| :: View(strip, Key(a[i])) < View(strip, Key(b[j]))
  {
    hide View, Key;
    var c := a + b;
    assert forall i | 0 <= i < |a| :: c[i] == a[i];
    assert forall i | 0 <= i < |b| :: c[|a| + i] == b[i];
    forall i, j | 0 <= i < j < |b|
      ensures View(strip, Key(b[i])) < View(strip, Key(b[j]))
    {
      assert View(strip, Key(c[|a| + i])) < View(strip, Key(c[|a| + j]));
    }
    forall i, j | 0 <= i < |a| && 0 <= j < |b|
      ensures View(strip, Key(a[i])) < View(strip, Key(b[j]))
    {
      assert View(strip, Key(c[i])) < View(strip, Key(c[|a| + j]));
    }
  }

  /** First keys of consecutive full trees rise with the keys below them. */
  lemma FirstKeysRise(ss: seq<Shape>, i: nat, j: nat, strip: bool)
    requires i < j < |ss| && Sorted(FlatAll(ss), strip) && Full(ss[i]) && Full(ss[j])
    ensures View(strip, FirstKey(ss[i])) < View(strip, FirstKey(ss[j]))
  {
    hide FlatAll, RefsAll, Full, Flat, FirstKey, View, Key;
    FlatAllAppend(ss[..j], ss[j..]);
    assert ss[..j] + ss[j..] == ss;
    SortedParts(FlatAll(ss[..j]), FlatAll(ss[j..]), strip);
    hide Sorted;
    FlatAllPart(ss[..j], i);
    FlatAllPart(ss[j..], 0);
    FirstKeyFlat(ss[i]);
    FirstKeyFlat(ss[j]);
    FlatAllNone();
    assert ss[..j][i] == ss[i] && ss[j..][0] == ss[j] && ss[j..][..0] == [];
    var x := |FlatAll(ss[..j][..i])|;
    assert FlatAll(ss[..j])[x] == Flat(ss[i])[0];
    assert FlatAll(ss[j..])[0] == Flat(ss[j])[0];
  }

  // ---------- searching ----------

  method PageAt(img: Image, ref: BREF) returns (r: Result<Page>)
    ensures r.Ok? <==> ref.ib in img && PageOk(img[ref.ib]) && img[ref.ib].bid == ref.bid
    ensures r.Ok? ==> r.value == img[ref.ib]
  {
    if ref.ib !in img {
      return Err(InvariantBroken);
    }
    if !PageOk(img[ref.ib]) {
      return Err(InvariantBroken);
    }
    if img[ref.ib].bid != ref.bid {
      return Err(InvariantBroken);
    }
    return Ok(img[ref.ib]);
  }

  /** chooseChild: the last child whose key is at most `key`. */
  method ChooseChild(kids: seq<BTEntry>, key: nat) returns (i: nat, ok: bool)
    ensures ok <==> |kids| > 0 && kids[0].key <= key
    ensures ok ==> i < |kids| && kids[i].key <= key && forall j | i < j < |kids| :: key < kids[j].key
  {
    if |kids| == 0 || key < kids[0].key {
      return 0, false;
    }
    i := 0;
    for j := 1 to |kids|
      invariant i < j && kids[i].key <= key && forall k | i < k < j :: key < kids[k].key
    {
      if kids[j].key <= key {
        i := j;
      }
    }
    return i, true;
  }

  /** The reader's scan: stops at the first larger key, and clears the internal bit in a BBT. */
  method ScanChild(kids: seq<BTEntry>, key: nat, strip: bool) returns (i: nat, ok: bool)
    ensures ok <==> |kids| > 0 && View(strip, kids[0].key) <= key
    ensures ok ==>
      i < |kids| && View(strip, kids[i].key) <= key && (i + 1 < |kids| ==> key < View(strip, kids[i + 1].key))
  {
    ok := false;
    i := 0;
    for j := 0 to |kids|
      invariant ok <==> j > 0
      invariant ok ==> i == j - 1 && View(strip, kids[i].key) <= key && View(strip, kids[0].key) <= key
    {
      if View(strip, kids[j].key) <= key {
        i, ok := j, true;
      } else {
        return;
      }
    }
  }

  /** Descending into the chosen child keeps every entry with the key; below the first key there is none. */
  lemma Descend(s: Shape, key: nat, i: nat, strip: bool)
    requires s.level > 0 && Full(s) && Sorted(Flat(s), strip) && i < |s.kids|
    requires View(strip, FirstKey(s.kids[i])) <= key
    requires i + 1 < |s.kids| ==> key < View(strip, FirstKey(s.kids[i + 1]))
    ensures Sorted(Flat(s.kids[i]), strip)
    ensures forall e | e in Flat(s) && View(strip, Key(e)) == key :: e in Flat(s.kids[i])
  {
    var ss := s.kids;
    assert Flat(s) == FlatAll(ss);
    assert Full(ss[i]) && (i + 1 < |ss| ==> Full(ss[i + 1]));
    hide FlatAll, RefsAll, Full, Flat, FirstKey, View, Key;
    var a, m, z := FlatAll(ss[..i]), Flat(ss[i]), FlatAll(ss[i + 1..]);
    FlatAllPart(ss, i);
    SortedParts(a + m, z, strip);
    SortedParts(a, m, strip);
    hide Sorted;
    FirstKeyFlat(ss[i]);
    if i + 1 < |ss| {
      FirstKeyFlat(ss[i + 1]);
      FlatAllPart(ss[i + 1..], 0);
      FlatAllNone();
      assert ss[i + 1..][..0] == [] && ss[i + 1..][0] == ss[i + 1];
      assert z[0] == Flat(ss[i + 1])[0];
      FirstIsLeast(s, i + 1, strip);
    } else {
      FlatAllNone();
      assert z == [];
    }
    assert forall x | 0 <= x < |a| :: View(strip, Key(a[x])) < View(strip, Key(m[0]));
    assert forall x | 0 <= x < |z| :: key < View(strip, Key(z[x]));
  }

  /** No entry from child `i` on lies below that child's first key. */
  lemma FirstIsLeast(s: Shape, i: nat, strip: bool)
    requires s.level > 0 && Full(s) && Sorted(Flat(s), strip) && i < |s.kids|
    ensures forall x | 0 <= x < |FlatAll(s.kids[i..])| ::
      View(strip, FirstKey(s.kids[i])) <= View(strip, Key(FlatAll(s.kids[i..])[x]))
  {
    var ss := s.kids;
    assert Flat(s) == FlatAll(ss) && Full(ss[i]);
    hide FlatAll, RefsAll, Full, Flat, FirstKey, View, Key;
    FlatAllAppend(ss[..i], ss[i..]);
    assert ss[..i] + ss[i..] == ss;
    SortedParts(FlatAll(ss[..i]), FlatAll(ss[i..]), strip);
    FirstKeyFlat(ss[i]);
    FlatAllPart(ss[i..], 0);
    FlatAllNone();
    assert ss[i..][..0] == [] && ss[i..][0] == ss[i];
    assert FlatAll(ss[i..])[0] == Flat(ss[i])[0];
  }

  lemma BelowFirst(s: Shape, key: nat, strip: bool)
    requires s.level > 0 && Full(s) && Sorted(Flat(s), strip) && key < View(strip, FirstKey(s.kids[0]))
    ensures forall e | e in Flat(s) :: View(strip, Key(e)) != key
  {
    FirstIsLeast(s, 0, strip);
    assert s.kids[0..] == s.kids && Flat(s) == FlatAll(s.kids);
    hide FlatAll, Flat, View, Key, FirstKey;
  }

  ghost predicate Found(es: seq<Entry>, key: nat, strip: bool, r: Result<Entry>) {
    && (r.Ok? ==> r.value in es && View(strip, Key(r.value)) == key)
    && (r.Err? ==> forall e | e in es :: View(strip, Key(e)) != key)
  }

  method FindLeaf(es: seq<Entry>, key: nat, strip: bool) returns (r: Result<Entry>)
    ensures Found(es, key, strip, r)
  {
    for i := 0 to |es|
      invariant forall k | 0 <= k < i :: View(strip, Key(es[k])) != key
    {
      if View(strip, Key(es[i])) == key {
        return Ok(es[i]);
      }
    }
    return Err(InvariantBroken);
  }

  /** LookupNode / LookupBlock of an image: walk from the root, then scan the leaf. */
  method Lookup(img: Image, ptype: PType, root: BREF, key: nat, ghost s: Shape) returns (r: Result<Entry>)
    requires In(img, ptype, s) && s.ref == root
    ensures Full(s) && Sorted(Flat(s), false) ==> Found(Flat(s), key, false, r)
    ensures s.level == 0 ==> Found(s.leaves, key, false, r)
  {
    hide Full, Sorted, Flat, FirstKey, PageOk, Found;
    var page := PageAt(img, root);
    InHere(img, ptype, s);
    if page.Err? {
      return Err(InvariantBroken);
    }
    var v := page.value;
    ghost var t := s;
    SubtreeSelf(s, key, false);
    while v.level > 0
      invariant In(img, ptype, t) && v == img[t.ref.ib] && v.level == t.level
      invariant Full(s) && Sorted(Flat(s), false) ==> Subtree(s, t, key, false)
      invariant s.level == 0 ==> t == s
      decreases t
    {
      hide Subtree;
      KidKeys(img, ptype, t);
      var i, ok := ChooseChild(v.kids, key);
      if !ok {
        SubtreeEnd(s, t, key, false);
        return Err(InvariantBroken);
      }
      SubtreeStep(s, t, key, i, false);
      page := PageAt(img, v.kids[i].ref);
      InHere(img, ptype, t.kids[i]);
      if page.Err? {
        return Err(InvariantBroken);
      }
      v := page.value;
      t := t.kids[i];
    }
    LeafPage(img, ptype, t);
    r := FindLeaf(v.leaves, key, false);
    SubtreeLeaf(s, t, key, false, r);
  }

  /** The reader's recursive search: searchNBT, or searchBBT with `strip`. */
  method ReaderSearch(img: Image, ptype: PType, root: BREF, key: nat, strip: bool, ghost s: Shape)
    returns (r: Result<Entry>)
    requires In(img, ptype, s) && s.ref == root
    ensures Full(s) && Sorted(Flat(s), strip) ==> Found(Flat(s), key, strip, r)
    ensures s.level == 0 ==> Found(s.leaves, key, strip, r)
    decreases s
  {
    hide Full, Sorted, Flat, FirstKey, PageOk, Found;
    InHere(img, ptype, s);
    var page := PageAt(img, root);
    if page.Err? {
      return Err(InvariantBroken);
    }
    var v := page.value;
    SubtreeSelf(s, key, strip);
    hide Subtree;
    if v.level == 0 {
      LeafPage(img, ptype, s);
      r := FindLeaf(v.leaves, key, strip);
      SubtreeLeaf(s, s, key, strip, r);
      return;
    }
    KidKeys(img, ptype, s);
    var i, ok := ScanChild(v.kids, key, strip);
    if !ok {
      SubtreeEnd(s, s, key, strip);
      return Err(InvalidArg);
    }
    SubtreeStep(s, s, key, i, strip);
    r := ReaderSearch(img, ptype, v.kids[i].ref, key, strip, s.kids[i]);
    SubtreeFound(s, s.kids[i], key, strip, r);
  }

  /** `t` is below `s`, well-formed, and has every entry of `s` with this key. */
  ghost predicate Subtree(s: Shape, t: Shape, key: nat, strip: bool) {
    && Full(t) && Sorted(Flat(t), strip)
    && (forall e | e in Flat(s) && View(strip, Key(e)) == key :: e in Flat(t))
    && (forall e | e in Flat(t) :: e in Flat(s))
  }

  lemma SubtreeSelf(s: Shape, key: nat, strip: bool)
    ensures Full(s) && Sorted(Flat(s), strip) ==> Subtree(s, s, key, strip)
  {
    hide Full, Sorted, Flat, View;
  }

  lemma InHere(img: Image, ptype: PType, s: Shape)
    requires In(img, ptype, s)
    ensures s.ref.ib in img && PageOk(img[s.ref.ib]) && img[s.ref.ib].bid == s.ref.bid && img[s.ref.ib].level == s.level
    ensures img[s.ref.ib].ptype == ptype
  {
    hide PageOk, FirstKey;
  }

  lemma LeafPage(img: Image, ptype: PType, s: Shape)
    requires In(img, ptype, s) && s.level == 0
    ensures img[s.ref.ib].leaves == s.leaves && Flat(s) == s.leaves
  {
    hide PageOk, FirstKey;
  }

  lemma KidKeys(img: Image, ptype: PType, s: Shape)
    requires In(img, ptype, s) && s.level > 0
    ensures |img[s.ref.ib].kids| == |s.kids|
    ensures forall i | 0 <= i < |s.kids| ::
      img[s.ref.ib].kids[i] == BTEntry(FirstKey(s.kids[i]), s.kids[i].ref) && In(img, ptype, s.kids[i])
  {
    hide PageOk, FirstKey;
  }

  lemma SubtreeStep(s: Shape, t: Shape, key: nat, i: nat, strip: bool)
    requires t.level > 0 && i < |t.kids|
    requires View(strip, FirstKey(t.kids[i])) <= key
    requires i + 1 < |t.kids| ==> key < View(strip, FirstKey(t.kids[i + 1]))
    ensures Subtree(s, t, key, strip) ==> Subtree(s, t.kids[i], key, strip)
  {
    if Subtree(s, t, key, strip) {
      Descend(t, key, i, strip);
      FlatAllPart(t.kids, i);
      assert Full(t.kids[i]) && Flat(t) == FlatAll(t.kids);
      hide Full, Sorted, Flat, FlatAll, FirstKey, View, Key;
    }
  }

  lemma SubtreeEnd(s: Shape, t: Shape, key: nat, strip: bool)
    requires t.level > 0 && (|t.kids| == 0 || key < View(strip, FirstKey(t.kids[0])))
    ensures Subtree(s, t, key, strip) ==>
      Found(Flat(s), key, strip, Err(InvariantBroken)) && Found(Flat(s), key, strip, Err(InvalidArg))
  {
    if Subtree(s, t, key, strip) {
      assert t.kids != [];
      BelowFirst(t, key, strip);
      hide Full, Sorted, Flat, FlatAll, FirstKey, View, Key;
    }
  }

  lemma SubtreeLeaf(s: Shape, t: Shape, key: nat, strip: bool, r: Result<Entry>)
    requires t.level == 0 && Found(t.leaves, key, strip, r)
    ensures Subtree(s, t, key, strip) ==> Found(Flat(s), key, strip, r)
    ensures t == s ==> Found(s.leaves, key, strip, r)
  {
    assert Flat(t) == t.leaves;
    hide Full, Sorted, Flat, View, Key;
  }

  lemma SubtreeFound(s: Shape, t: Shape, key: nat, strip: bool, r: Result<Entry>)
    ensures Subtree(s, t, key, strip) && Found(Flat(t), key, strip, r) ==> Found(Flat(s), key, strip, r)
    ensures Subtree(s, t, key, strip) ==> Full(t) && Sorted(Flat(t), strip)
  {
    hide Full, Sorted, Flat, View, Key;
  }
}
