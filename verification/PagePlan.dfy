/** Which pages an encode will take, and under which identifiers, known before it starts (store.go, ndb.go). */
module PagePlan {
  import opened Common
  import opened Geometry
  import opened Blocks
  import opened Allocation
  import opened BTree

  /** Where the next page goes. */
  ghost function FirstPage(rs: seq<Bitmap>): nat {
    var base := Base(rs, SLOTS_PER_PAGE, SLOTS_PER_PAGE);
    if exists ib: nat :: LowestAt(base, ib, SLOTS_PER_PAGE, SLOTS_PER_PAGE)
    then
      var ib: nat :| LowestAt(base, ib, SLOTS_PER_PAGE, SLOTS_PER_PAGE); ib
    else 0
  }

  /** The maps with one more page taken. */
  ghost function PageTaken(rs: seq<Bitmap>): seq<Bitmap> {
    var base := Base(rs, SLOTS_PER_PAGE, SLOTS_PER_PAGE);
    if Markable(base, FirstPage(rs), PAGE_SIZE, true) then Marked(base, FirstPage(rs), PAGE_SIZE, true) else rs
  }

  ghost function After(rs: seq<Bitmap>, k: nat): seq<Bitmap> {
    if k == 0 then rs else PageTaken(After(rs, k - 1))
  }

  /** The k-th page taken from the maps `rs`, when nothing else is allocated or freed in between. */
  ghost function NthPage(rs: seq<Bitmap>, k: nat): nat {
    FirstPage(After(rs, k))
  }

  /** The k-th page of an encode meets its own identifier, or there is no identifier left for it. */
  ghost predicate ClashAt(rs: seq<Bitmap>, next: nat, k: nat) {
    next + k + 1 >= U64 || NthPage(rs, k) == next + k
  }

  /** One of the next `count` pages does. */
  ghost predicate Clash(rs: seq<Bitmap>, next: nat, count: nat) {
    exists k: nat :: k < count && ClashAt(rs, next, k)
  }

  lemma OneWindow(rs: seq<Bitmap>, i: nat, s: nat, j: nat, t: nat, n: nat, align: nat)
    requires align > 0 && Lowest(rs, i, s, n, align) && Lowest(rs, j, t, n, align)
    ensures i == j && s == t
  {
    hide Window;
    assert !Before(i, s, j, t) && !Before(j, t, i, s);
  }

  lemma SamePlace(x: nat, y: nat)
    requires x % BYTES_PER_SLOT == y % BYTES_PER_SLOT == 0
    requires x / AMAP_COVERAGE == y / AMAP_COVERAGE
    requires x % AMAP_COVERAGE / BYTES_PER_SLOT == y % AMAP_COVERAGE / BYTES_PER_SLOT
    ensures x == y
  {
    var r, q := x % AMAP_COVERAGE, y % AMAP_COVERAGE;
    assert r % BYTES_PER_SLOT == 0 && q % BYTES_PER_SLOT == 0;
  }

  lemma LowestOnce(rs: seq<Bitmap>, a: nat, b: nat, n: nat, align: nat)
    requires align > 0 && LowestAt(rs, a, n, align) && LowestAt(rs, b, n, align)
    ensures a == b
  {
    hide Lowest;
    var x, y := a - FIRST_AMAP, b - FIRST_AMAP;
    OneWindow(rs, x / AMAP_COVERAGE, x % AMAP_COVERAGE / BYTES_PER_SLOT,
              y / AMAP_COVERAGE, y % AMAP_COVERAGE / BYTES_PER_SLOT, n, align);
    SamePlace(x, y);
  }

  /** AllocatePage takes the planned page. */
  lemma PlannedPage(rs: seq<Bitmap>, ib: nat)
    requires var base := Base(rs, SLOTS_PER_PAGE, SLOTS_PER_PAGE);
      LowestAt(base, ib, SLOTS_PER_PAGE, SLOTS_PER_PAGE) && Markable(base, ib, PAGE_SIZE, true)
    ensures FirstPage(rs) == ib &&
      PageTaken(rs) == Marked(Base(rs, SLOTS_PER_PAGE, SLOTS_PER_PAGE), ib, PAGE_SIZE, true)
  {
    hide LowestAt, Markable;
    LowestOnce(Base(rs, SLOTS_PER_PAGE, SLOTS_PER_PAGE), FirstPage(rs), ib, SLOTS_PER_PAGE, SLOTS_PER_PAGE);
  }

  /** Identifiers below the first map page meet no page. */
  lemma LowIdentifiers(rs: seq<Bitmap>, next: nat, count: nat)
    requires 0 < next && next + count < FIRST_AMAP
    ensures !Clash(rs, next, count)
  {
    hide LowestAt, After;
    forall k: nat | k < count
      ensures !ClashAt(rs, next, k)
    {
      PageHigh(After(rs, k));
    }
  }

  lemma PageHigh(rs: seq<Bitmap>)
    ensures FirstPage(rs) == 0 || FirstPage(rs) >= FIRST_AMAP
  {
    hide Lowest;
  }

  // ---------- how many pages ----------

  function Groups(n: nat, size: nat): nat
    requires size > 0
  {
    (n + size - 1) / size
  }

  /** Pages above a level of `n` pages. */
  function PagesAbove(n: nat): nat {
    if n <= 1 then 0 else Groups(n, MAX_NONLEAF) + PagesAbove(Groups(n, MAX_NONLEAF))
  }

  /** Pages of a tree over `n` entries. */
  function TreePages(ptype: PType, n: nat): nat {
    if n == 0 then 1 else Groups(n, MaxLeaf(ptype)) + PagesAbove(Groups(n, MaxLeaf(ptype)))
  }

  lemma {:induction false} FewAbove(n: nat)
    ensures PagesAbove(n) <= n / 10 + 1 && (n <= 1 ==> PagesAbove(n) == 0)
  {
    if n > 1 {
      FewAbove(Groups(n, MAX_NONLEAF));
    }
  }

  /** With 15 nodes or 20 blocks on a leaf page, a tree takes at most a tenth more pages than leaves, and one. */
  lemma FewPages(n: nat)
    ensures TreePages(NBT, n) <= (n + 14) / 15 + (n + 14) / 15 / 10 + 1
    ensures TreePages(BBT, n) <= (n + 19) / 20 + (n + 19) / 20 / 10 + 1
  {
    FewAbove((n + 14) / 15);
    FewAbove((n + 19) / 20);
  }
}
