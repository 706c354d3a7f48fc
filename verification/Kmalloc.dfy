/**
 kmem_cache_alloc, kmem_cache_free, kmalloc and kfree (kernel/mm/slab.c) on top of the buddy allocator.
 */
module Kmalloc {
  import Words
  import opened Options
  import opened Powers
  import opened PageMath
  import opened Buddies
  import opened Sequences
  import opened Slabs

  const KERNEL_ENTRY: nat := 0x8000_0000

  /** The kernel virtual address of page `p`. */
  function PageAddr(p: nat): nat {
    KERNEL_ENTRY + 4096 * p
  }

  /** struct kmem_cache: the layout, three lists of pages, the current page, and the slab heads of all its
      pages. */
  datatype Cache = Cache(layout: Layout, partial: seq<nat>, full: seq<nat>, free: seq<nat>, cpu: Option<nat>,
                         slabs: map<nat, SlabHead>)

  function SizeOf(i: nat): nat
    requires i < KMEM_CACHE_NUM
  {
    KMEM_CACHE_SIZE[i]
  }

  // ---------------------------------------------------------------- one cache

  /** Each page is on the free, partial or full list exactly as its count of allocated objects says. */
  ghost predicate Listed(c: Cache, cap: nat, p: nat) {
    && (p in c.free <==> p in c.slabs && c.slabs[p].allocNum == 0)
    && (p in c.full <==> p in c.slabs && c.slabs[p].allocNum == cap)
    && (p in c.partial <==> p in c.slabs && 0 < c.slabs[p].allocNum < cap)
  }

  ghost predicate CacheOk(c: Cache) {
    && GoodLayout(c.layout) && NoDup(c.free) && NoDup(c.full) && NoDup(c.partial)
    && (forall p: nat :: Listed(c, c.layout.capacity, p))
    && (forall p: nat :: SlabAt(c, p))
    && (c.cpu.Some? ==> c.cpu.value in c.slabs)
  }

  ghost predicate SlabAt(c: Cache, p: nat) {
    p in c.slabs ==> SlabOk(c.layout, PageAddr(p), c.slabs[p])
  }

  /** list_del of a page */
  function Unlink(c: Cache, p: nat): Cache {
    c.(partial := Remove(c.partial, p), full := Remove(c.full, p), free := Remove(c.free, p))
  }

  lemma {:induction false} UnlinkOk(c: Cache, p: nat)
    requires NoDup(c.free) && NoDup(c.full) && NoDup(c.partial)
    ensures var u := Unlink(c, p);
            && NoDup(u.free) && NoDup(u.full) && NoDup(u.partial)
            && (forall q: nat :: (q in u.free <==> q in c.free && q != p) && (q in u.full <==> q in c.full && q != p)
                                 && (q in u.partial <==> q in c.partial && q != p))
  {
    RemoveNoDup(c.free, p);
    RemoveNoDup(c.full, p);
    RemoveNoDup(c.partial, p);
  }

  /** Putting page `p` with slab head `h` on the list its count asks for. */
  function Relist(c: Cache, p: nat, h: SlabHead): Cache {
    var u := Unlink(c, p).(slabs := c.slabs[p := h]);
    if h.allocNum == c.layout.capacity then u.(full := [p] + u.full)
    else if h.allocNum == 0 then u.(free := [p] + u.free)
    else u.(partial := [p] + u.partial)
  }

  lemma ConsNoDup(s: seq<nat>, p: nat)
    requires NoDup(s) && p !in s
    ensures NoDup([p] + s)
  {
  }

  lemma {:induction false} RelistOk(c: Cache, p: nat, h: SlabHead)
    requires CacheOk(c) && SlabOk(c.layout, PageAddr(p), h) && h.allocNum <= c.layout.capacity
    ensures CacheOk(Relist(c, p, h))
  {
    UnlinkOk(c, p);
    var r, u := Relist(c, p, h), Unlink(c, p);
    ConsNoDup(u.free, p);
    ConsNoDup(u.full, p);
    ConsNoDup(u.partial, p);
    forall q: nat
      ensures Listed(r, c.layout.capacity, q) && SlabAt(r, q)
    {
      assert Listed(c, c.layout.capacity, q) && SlabAt(c, q);
    }
  }

  /** A page whose count stays between the same bounds stays on its list. */
  lemma {:induction false} StayOk(c: Cache, p: nat, h: SlabHead)
    requires CacheOk(c) && p in c.slabs && SlabOk(c.layout, PageAddr(p), h)
    requires 0 < c.slabs[p].allocNum < c.layout.capacity && 0 < h.allocNum < c.layout.capacity
    ensures CacheOk(c.(slabs := c.slabs[p := h]))
  {
    var r := c.(slabs := c.slabs[p := h]);
    forall q: nat
      ensures Listed(r, c.layout.capacity, q) && SlabAt(r, q)
    {
      assert Listed(c, c.layout.capacity, q) && SlabAt(c, q);
    }
  }

  // ---------------------------------------------------------------- the whole heap

  /** What the caches and the page structs say about each other. */
  ghost predicate SlabPages(z: Zone, lev: Tiling, caches: seq<Cache>) {
    && |caches| == KMEM_CACHE_NUM
    && (forall i: nat, p: nat :: i < KMEM_CACHE_NUM && p in caches[i].slabs ==> SlabPage(z, lev, i, p))
    && (forall p: nat {:trigger Owned(z, caches, p)} ::
          InZone(z, p) && p < |z.pages| && IsHead(lev, p) && z.pages[p].used.InSlab? ==> Owned(z, caches, p))
  }

  predicate SlabPage(z: Zone, lev: Tiling, i: nat, p: nat) {
    InZone(z, p) && p < |z.pages| && p < |lev| && lev[p] == 0 && z.pages[p] == Page(InSlab, 0, i + 1)
  }

  predicate Owned(z: Zone, caches: seq<Cache>, p: nat)
    requires p < |z.pages|
  {
    1 <= z.pages[p].cachep <= KMEM_CACHE_NUM && z.pages[p].cachep <= |caches|
        && p in caches[z.pages[p].cachep - 1].slabs
  }

  ghost predicate CachesOk(caches: seq<Cache>) {
    |caches| == KMEM_CACHE_NUM && forall i: nat :: CacheAt(caches, i)
  }

  ghost predicate CacheAt(caches: seq<Cache>, i: nat) {
    i < |caches| ==> CacheOk(caches[i])
  }

  /** The caches are sound and agree with the page structs. */
  ghost predicate Agree(z: Zone, lev: Tiling, caches: seq<Cache>) {
    SlabPages(z, lev, caches) && CachesOk(caches)
  }

  ghost predicate HeapOk(z: Zone, lev: Tiling, caches: seq<Cache>) {
    Inv(z, lev, -1) && Agree(z, lev, caches)
  }

  /** A live block: an object of `w` bytes in a slab page, given by its link node, or a run of pages. */
  datatype Block = Object(i: nat, p: nat, x: nat, w: nat) | Run(p: nat, k: nat)

  predicate IsLive(z: Zone, lev: Tiling, caches: seq<Cache>, b: Block) {
    match b
    case Object(i, p, x, w) =>
      && i < KMEM_CACHE_NUM && i < |caches| && p in caches[i].slabs
      && x in caches[i].slabs[p].allocList && w == caches[i].layout.objectSize
    case Run(p, k) => InZone(z, p) && p < |z.pages| && IsHead(lev, p) && lev[p] == k && z.pages[p].used.Alloced?
  }

  function Start(b: Block): int {
    match b
    case Object(_, _, x, w) => x - w
    case Run(p, _) => PageAddr(p)
  }

  function Bytes(b: Block): nat {
    match b
    case Object(_, _, _, w) => w
    case Run(_, k) => RunBytes(k)
  }

  /** The pages a live block lies in. */
  lemma {:induction false} LivePages(z: Zone, lev: Tiling, caches: seq<Cache>, b: Block)
    requires Agree(z, lev, caches) && IsLive(z, lev, caches, b)
    ensures InZone(z, b.p) && b.p < |lev| && IsHead(lev, b.p)
    ensures PageAddr(b.p) <= Start(b) && Start(b) + Bytes(b) <= PageAddr(b.p) + RunBytes(lev[b.p])
    ensures b.Object? ==> lev[b.p] == 0 && PageAddr(b.p) + SLAB_HEAD_SIZE <= Start(b)
    ensures b.Object? ==> b.x + LIST_HEAD_SIZE <= PageAddr(b.p) + PAGE_SIZE
  {
    if b.Object? { assert CacheAt(caches, b.i); ObjectPage(z, lev, caches, b.i, b.p, b.x, b.w); }
  }

  /** The size of a run of 2^k pages. */
  function RunBytes(k: nat): nat {
    4096 * Pow2(k)
  }

  lemma {:induction false} ObjectPage(z: Zone, lev: Tiling, caches: seq<Cache>, i: nat, p: nat, x: nat, w: nat)
    requires SlabPages(z, lev, caches) && IsLive(z, lev, caches, Object(i, p, x, w)) && CacheOk(caches[i])
    ensures InZone(z, p) && p < |lev| && IsHead(lev, p) && lev[p] == 0 && RunBytes(0) == PAGE_SIZE
    ensures PageAddr(p) + SLAB_HEAD_SIZE <= x - w && x + LIST_HEAD_SIZE <= PageAddr(p) + PAGE_SIZE
  {
    assert SlabPage(z, lev, i, p);
    assert SlabAt(caches[i], p);
    ObjectInside(caches[i].layout, p, caches[i].slabs[p], x);
  }

  /** The objects of a slab page lie between its head and its end. */
  lemma {:induction false} ObjectInside(l: Layout, p: nat, h: SlabHead, x: nat)
    requires GoodLayout(l) && SlabOk(l, PageAddr(p), h) && x in h.allocList + h.freeList
    ensures PageAddr(p) + SLAB_HEAD_SIZE <= x - l.objectSize && x + LIST_HEAD_SIZE <= PageAddr(p) + PAGE_SIZE
  {
    var j: nat :| j < |h.allocList| + |h.freeList| && x == NodeAddr(l, PageAddr(p), j);
    ObjectInPage(l, PageAddr(p), j);
  }

  /** Live blocks lie inside the zone. */
  lemma {:induction false} LiveInZone(z: Zone, lev: Tiling, caches: seq<Cache>, b: Block)
    requires HeapOk(z, lev, caches) && IsLive(z, lev, caches, b)
    ensures PageAddr(z.start) <= Start(b) && Start(b) + Bytes(b) <= PageAddr(z.start + z.num)
  {
    LivePages(z, lev, caches, b);
    BlockInZone(z, b.p, lev[b.p]);
  }

  /** No live block overlaps a slab head or a link node, be its slot allocated or free. */
  lemma {:induction false} NodesUntouched(z: Zone, lev: Tiling, caches: seq<Cache>, b: Block, i: nat, p: nat, y: nat)
    requires HeapOk(z, lev, caches) && IsLive(z, lev, caches, b) && i < KMEM_CACHE_NUM && p in caches[i].slabs
    requires y in caches[i].slabs[p].allocList + caches[i].slabs[p].freeList
    ensures Start(b) + Bytes(b) <= y || y + LIST_HEAD_SIZE <= Start(b)
    ensures Start(b) + Bytes(b) <= PageAddr(p) || PageAddr(p) + SLAB_HEAD_SIZE <= Start(b)
  {
    LivePages(z, lev, caches, b);
    SlabPageAt(z, lev, caches, i, p, y);
    if b.p == p {
      assert b.Object? ==> SlabPage(z, lev, b.i, p);
      assert b.Object? && b.i == i;
      if b.x != y { SlotsApart(caches[i].layout, p, caches[i].slabs[p], b.x, y); }
    } else if b.p < p {
      HeadsApart(z, lev, b.p, p);
    } else {
      HeadsApart(z, lev, p, b.p);
    }
  }

  lemma {:induction false} SlabPageAt(z: Zone, lev: Tiling, caches: seq<Cache>, i: nat, p: nat, y: nat)
    requires Agree(z, lev, caches) && i < KMEM_CACHE_NUM && p in caches[i].slabs
    requires y in caches[i].slabs[p].allocList + caches[i].slabs[p].freeList
    ensures GoodLayout(caches[i].layout) && SlabOk(caches[i].layout, PageAddr(p), caches[i].slabs[p])
    ensures SlabPage(z, lev, i, p)
    ensures IsHead(lev, p) && lev[p] == 0 && RunBytes(0) == PAGE_SIZE
    ensures PageAddr(p) + SLAB_HEAD_SIZE <= y && y + LIST_HEAD_SIZE <= PageAddr(p) + PAGE_SIZE
  {
    assert CacheAt(caches, i) && SlabAt(caches[i], p) && SlabPage(z, lev, i, p);
    ObjectInside(caches[i].layout, p, caches[i].slabs[p], y);
  }

  /** Live blocks are pairwise disjoint, and an object never overlaps the link node of another. */
  lemma {:induction false} LiveDisjoint(z: Zone, lev: Tiling, caches: seq<Cache>, b: Block, b': Block)
    requires HeapOk(z, lev, caches) && IsLive(z, lev, caches, b) && IsLive(z, lev, caches, b') && b != b'
    ensures Start(b) + Bytes(b) <= Start(b') || Start(b') + Bytes(b') <= Start(b)
    ensures b.Object? && b'.Object? ==> b.x + LIST_HEAD_SIZE <= Start(b') || Start(b') + Bytes(b') <= b.x
  {
    LivePages(z, lev, caches, b);
    LivePages(z, lev, caches, b');
    if b.p == b'.p {
      assert b.Object? && b'.Object?;
      assert CacheAt(caches, b.i) && SlabAt(caches[b.i], b.p);
      SlotsApart(caches[b.i].layout, b.p, caches[b.i].slabs[b.p], b.x, b'.x);
    } else if b.p < b'.p {
      HeadsApart(z, lev, b.p, b'.p);
    } else {
      HeadsApart(z, lev, b'.p, b.p);
    }
  }

  lemma {:induction false} SlotsApart(l: Layout, p: nat, h: SlabHead, x: nat, y: nat)
    requires GoodLayout(l) && SlabOk(l, PageAddr(p), h) && x in h.allocList + h.freeList
    requires y in h.allocList + h.freeList && x != y
    ensures x + LIST_HEAD_SIZE <= y - l.objectSize || y + LIST_HEAD_SIZE <= x - l.objectSize
  {
    var n := |h.allocList| + |h.freeList|;
    var j: nat :| j < n && x == NodeAddr(l, PageAddr(p), j);
    var k: nat :| k < n && y == NodeAddr(l, PageAddr(p), k);
    if j < k { NodesApart(l, PageAddr(p), j, k); } else { NodesApart(l, PageAddr(p), k, j); }
  }

  lemma {:induction false} HeadsApart(z: Zone, lev: Tiling, p: nat, q: nat)
    requires Inv(z, lev, -1) && InZone(z, p) && InZone(z, q) && IsHead(lev, p) && IsHead(lev, q) && p < q
    ensures p + Pow2(lev[p]) <= q
    ensures PageAddr(p) + RunBytes(lev[p]) <= PageAddr(q)
  {
    if q < p + Pow2(lev[p]) {
      BaseSame(p, q, lev[p]);
      SameBlock(z, lev, p, q);
      assert false;
    }
  }

  // ---------------------------------------------------------------- effects on the heap

  /** Nothing else became live or stopped being live. */
  ghost predicate SameLiveBut(z: Zone, lev: Tiling, caches: seq<Cache>, z': Zone, lev': Tiling, caches': seq<Cache>,
                              b: Block) {
    forall b': Block :: b' != b ==> (IsLive(z', lev', caches', b') <==> IsLive(z, lev, caches, b'))
  }

  /** The cachep field does not matter to the buddy allocator. */
  lemma {:induction false} CachepInv(z: Zone, lev: Tiling, p: nat, v: nat)
    requires Inv(z, lev, -1) && p < |z.pages|
    ensures Inv(z.(pages := z.pages[p := z.pages[p].(cachep := v)]), lev, -1)
  {
    var z' := z.(pages := z.pages[p := z.pages[p].(cachep := v)]);
    assert forall q: nat :: FreeHead(z', lev, -1, q) <==> FreeHead(z, lev, -1, q);
    forall k: nat | k <= MAX_BUDDY_ORDER
      ensures ListOk(z', lev, -1, k)
    {
      assert ListOk(z, lev, -1, k);
    }
  }

  lemma {:induction false} AdoptCache(c: Cache, p: nat, c': Cache)
    requires CacheOk(c) && p !in c.slabs
    requires c' == c.(free := [p] + c.free, slabs := c.slabs[p := FreshSlab(c.layout, PageAddr(p))])
    ensures CacheOk(c')
  {
    FreshSlabOk(c.layout, PageAddr(p));
    assert Listed(c, c.layout.capacity, p);
    ConsNoDup(c.free, p);
    forall q: nat
      ensures Listed(c', c.layout.capacity, q) && SlabAt(c', q)
    {
      assert Listed(c, c.layout.capacity, q) && SlabAt(c, q);
    }
  }

  /** When page `p` becomes a page of cache `i` and nothing else changes, the two sides still agree. */
  lemma {:induction false} AdoptPages(z: Zone, lev: Tiling, caches: seq<Cache>, i: nat, p: nat, z': Zone,
                                      lev': Tiling, caches': seq<Cache>)
    requires SlabPages(z, lev, caches) && i < KMEM_CACHE_NUM && HeadsSameBut(z, lev, z', lev', p)
    requires SlabPage(z', lev', i, p)
    requires |caches'| == KMEM_CACHE_NUM
    requires forall j: nat, q: nat :: j < KMEM_CACHE_NUM ==>
               (q in caches'[j].slabs <==> q in caches[j].slabs || (j == i && q == p))
    requires forall j: nat :: j < KMEM_CACHE_NUM ==> p !in caches[j].slabs
    ensures SlabPages(z', lev', caches')
  {
    forall j: nat, q: nat | j < KMEM_CACHE_NUM && q in caches'[j].slabs
      ensures SlabPage(z', lev', j, q)
    {
      if q != p { KeptSlabPage(z, lev, caches, z', lev', j, q); }
    }
    forall q: nat | InZone(z', q) && q < |z'.pages| && IsHead(lev', q) && z'.pages[q].used.InSlab?
      ensures Owned(z', caches', q)
    {
      if q != p { KeptOwner(z, lev, caches, z', lev', q); }
    }
  }

  lemma {:induction false} KeptSlabPage(z: Zone, lev: Tiling, caches: seq<Cache>, z': Zone, lev': Tiling, j: nat,
                                        q: nat)
    requires SlabPages(z, lev, caches) && j < KMEM_CACHE_NUM && q in caches[j].slabs && z'.start == z.start
    requires z'.num == z.num
    requires HeadSame(z, lev, z', lev', q)
    ensures SlabPage(z', lev', j, q)
  {
    assert SlabPage(z, lev, j, q) && IsHead(lev, q);
  }

  lemma {:induction false} KeptOwner(z: Zone, lev: Tiling, caches: seq<Cache>, z': Zone, lev': Tiling, q: nat)
    requires SlabPages(z, lev, caches) && InZone(z, q) && HeadSame(z, lev, z', lev', q)
    requires IsHead(lev', q) && z'.pages[q].used.InSlab?
    ensures 1 <= z'.pages[q].cachep <= KMEM_CACHE_NUM && q in caches[z'.pages[q].cachep - 1].slabs
  {
    assert Owned(z, caches, q);
  }

  /** A page from the buddy allocator becomes an empty slab page of cache `i`. */
  lemma {:induction false} AdoptOk(z: Zone, lev: Tiling, caches: seq<Cache>, i: nat, p: nat, z1: Zone, lev1: Tiling,
                                   z': Zone, caches': seq<Cache>)
    requires HeapOk(z, lev, caches) && i < KMEM_CACHE_NUM && Inv(z1, lev1, -1)
    requires Granted(z, lev, p, 0, InSlab, z1, lev1)
    requires z' == z1.(pages := z1.pages[p := z1.pages[p].(cachep := i + 1)])
    requires caches' == caches[i := caches[i].(free := [p] + caches[i].free,
        slabs := caches[i].slabs[p := FreshSlab(caches[i].layout, PageAddr(p))])]
    ensures HeapOk(z', lev1, caches') && SameLive(z, lev, caches, z', lev1, caches')
    ensures HasRoom(caches'[i], p)
  {
    CachepInv(z1, lev1, p, i + 1);
    NotASlabPage(z, lev, caches, p) by { assert FreePage(z, lev, p); }
    HeadsKept(z, lev, -1, z1, lev1, p, p);
    assert HeadsSameBut(z, lev, z', lev1, p) by {
      forall q: nat | InZone(z, q) && q != p
        ensures HeadSame(z, lev, z', lev1, q)
      {
        assert HeadSame(z, lev, z1, lev1, q);
      }
    }
    AdoptPages(z, lev, caches, i, p, z', lev1, caches');
    assert CacheAt(caches, i);
    AdoptCache(caches[i], p, caches'[i]);
    ReplaceCache(caches, i, caches'[i]);
    AdoptLive(z, lev, caches, i, p, z', lev1, caches');
  }

  ghost predicate SameLive(z: Zone, lev: Tiling, caches: seq<Cache>, z': Zone, lev': Tiling, caches': seq<Cache>) {
    forall b: Block :: IsLive(z', lev', caches', b) <==> IsLive(z, lev, caches, b)
  }

  lemma {:induction false} NotASlabPage(z: Zone, lev: Tiling, caches: seq<Cache>, p: nat)
    requires SlabPages(z, lev, caches) && p < |lev| && p < |z.pages| && FreePage(z, lev, p)
    ensures forall j: nat :: j < KMEM_CACHE_NUM ==> p !in caches[j].slabs
  {
    forall j: nat | j < KMEM_CACHE_NUM
      ensures p !in caches[j].slabs
    {
      if p in caches[j].slabs {
        UsedSlabPage(z, lev, j, p);
        assert false;
      }
    }
  }

  lemma UsedSlabPage(z: Zone, lev: Tiling, j: nat, p: nat)
    requires SlabPage(z, lev, j, p)
    ensures !FreePage(z, lev, p)
  {
  }

  lemma {:induction false} AdoptLive(z: Zone, lev: Tiling, caches: seq<Cache>, i: nat, p: nat, z': Zone,
                                     lev': Tiling, caches': seq<Cache>)
    requires HeadsSameBut(z, lev, z', lev', p) && |caches| == |caches'| == KMEM_CACHE_NUM && i < KMEM_CACHE_NUM
    requires FreePage(z, lev, p) && SlabPage(z', lev', i, p) && p !in caches[i].slabs
    requires caches' == caches[i := caches'[i]] && caches'[i].layout == caches[i].layout
    requires caches'[i].slabs == caches[i].slabs[p := FreshSlab(caches[i].layout, PageAddr(p))]
    ensures SameLive(z, lev, caches, z', lev', caches')
  {
    forall b: Block
      ensures IsLive(z', lev', caches', b) <==> IsLive(z, lev, caches, b)
    {
      if b.Run? && InZone(z, b.p) && b.p != p { assert HeadSame(z, lev, z', lev', b.p); }
    }
  }

  /** A run of pages that the buddy allocator granted is a new live block. */
  lemma {:induction false} RunOk(z: Zone, lev: Tiling, caches: seq<Cache>, p: nat, k: nat, z': Zone, lev': Tiling)
    requires HeapOk(z, lev, caches) && Inv(z', lev', -1) && Granted(z, lev, p, k, Alloced, z', lev')
    ensures HeapOk(z', lev', caches) && SameLiveBut(z, lev, caches, z', lev', caches, Run(p, k))
    ensures IsLive(z', lev', caches, Run(p, k)) && !IsLive(z, lev, caches, Run(p, k))
  {
    assert FreePage(z, lev, p);
    NotASlabPage(z, lev, caches, p);
    HeadsKept(z, lev, -1, z', lev', p, p);
    SamePages(z, lev, caches, p, z', lev');
    RunsSame(z, lev, caches, p, z', lev', k);
  }

  /** A run of pages that was given back is no longer live. */
  lemma {:induction false} UnrunOk(z: Zone, lev: Tiling, caches: seq<Cache>, p: nat, k: nat, z': Zone, lev': Tiling)
    requires HeapOk(z, lev, caches) && Inv(z', lev', -1) && IsLive(z, lev, caches, Run(p, k))
    requires Freed(z, lev, p, z', lev')
    ensures HeapOk(z', lev', caches) && SameLiveBut(z, lev, caches, z', lev', caches, Run(p, k))
    ensures !IsLive(z', lev', caches, Run(p, k))
  {
    HeadsKept(z, lev, p, z', lev', -1, p);
    assert Open(z, lev, p, p);
    assert Open(z', lev', -1, p);
    assert FreePage(z', lev', p);
    forall j: nat | j < KMEM_CACHE_NUM
      ensures p !in caches[j].slabs
    {
      assert p in caches[j].slabs ==> SlabPage(z, lev, j, p);
    }
    SamePages(z, lev, caches, p, z', lev');
    RunsSame(z, lev, caches, p, z', lev', k);
  }

  /** A buddy operation on a page that no cache owns keeps the two sides in agreement. */
  lemma {:induction false} SamePages(z: Zone, lev: Tiling, caches: seq<Cache>, p: nat, z': Zone, lev': Tiling)
    requires SlabPages(z, lev, caches) && HeadsSameBut(z, lev, z', lev', p) && InZone(z, p) && p < |z'.pages|
    requires !(IsHead(lev', p) && z'.pages[p].used.InSlab?)
    requires forall j: nat :: j < KMEM_CACHE_NUM ==> p !in caches[j].slabs
    ensures SlabPages(z', lev', caches)
  {
    forall j: nat, q: nat | j < KMEM_CACHE_NUM && q in caches[j].slabs
      ensures SlabPage(z', lev', j, q)
    {
      assert SlabPage(z, lev, j, q);
      KeptSlabPage(z, lev, caches, z', lev', j, q);
    }
    forall q: nat | InZone(z', q) && q < |z'.pages| && IsHead(lev', q) && z'.pages[q].used.InSlab?
      ensures Owned(z', caches, q)
    {
      KeptOwner(z, lev, caches, z', lev', q);
    }
  }

  lemma {:induction false} RunsSame(z: Zone, lev: Tiling, caches: seq<Cache>, p: nat, z': Zone, lev': Tiling, k: nat)
    requires HeadsSameBut(z, lev, z', lev', p) && p < |lev|
    requires IsHead(lev, p) && p < |z.pages| && z.pages[p].used.Alloced? ==> lev[p] == k
    requires IsHead(lev', p) && p < |z'.pages| && z'.pages[p].used.Alloced? ==> lev'[p] == k
    ensures SameLiveBut(z, lev, caches, z', lev', caches, Run(p, k))
  {
    forall b: Block | b != Run(p, k)
      ensures IsLive(z', lev', caches, b) <==> IsLive(z, lev, caches, b)
    {
      if b.Run? && InZone(z, b.p) && b.p != p { assert HeadSame(z, lev, z', lev', b.p); }
    }
  }

  // ---------------------------------------------------------------- effects on one cache

  /** Of all slab heads at most that of page `p` changed. */
  ghost predicate OnlyPage(c: Cache, p: nat, c': Cache) {
    p in c.slabs && p in c'.slabs && c'.layout == c.layout && c'.slabs == c.slabs[p := c'.slabs[p]]
  }

  /** `s` and `s'` have the same members, except for `x`. */
  ghost predicate OnlyNode(s: seq<nat>, s': seq<nat>, x: nat) {
    forall y: nat :: y != x ==> (y in s' <==> y in s)
  }

  lemma {:induction false} SwapOk(z: Zone, lev: Tiling, caches: seq<Cache>, i: nat, p: nat, c: Cache)
    requires Agree(z, lev, caches) && i < KMEM_CACHE_NUM && OnlyPage(caches[i], p, c) && CacheOk(c)
    ensures Agree(z, lev, caches[i := c])
  {
    ReheadedPages(z, lev, caches, caches[i := c]) by {
      assert forall j: nat, q: nat :: j < KMEM_CACHE_NUM ==> (q in caches[i := c][j].slabs <==> q in caches[j].slabs);
    }
    ReplaceCache(caches, i, c);
  }

  lemma {:induction false} ReplaceCache(caches: seq<Cache>, i: nat, c: Cache)
    requires CachesOk(caches) && i < KMEM_CACHE_NUM && CacheOk(c)
    ensures CachesOk(caches[i := c])
  {
    var r := caches[i := c];
    forall j: nat
      ensures CacheAt(r, j)
    {
      assert CacheAt(caches, j);
      if j == i { assert r[j] == c; } else if j < |r| { assert r[j] == caches[j]; }
    }
  }

  lemma {:induction false} ReheadedPages(z: Zone, lev: Tiling, caches: seq<Cache>, caches': seq<Cache>)
    requires SlabPages(z, lev, caches) && |caches'| == |caches|
    requires forall j: nat, q: nat :: j < KMEM_CACHE_NUM ==> (q in caches'[j].slabs <==> q in caches[j].slabs)
    ensures SlabPages(z, lev, caches')
  {
    forall q: nat | InZone(z, q) && q < |z.pages| && IsHead(lev, q) && z.pages[q].used.InSlab?
      ensures Owned(z, caches', q)
    {
      assert Owned(z, caches, q);
    }
  }

  /** One node entered or left the allocated list of one page: one object became live or stopped being so. */
  lemma {:induction false} SwapLive(z: Zone, lev: Tiling, caches: seq<Cache>, i: nat, p: nat, c: Cache, b: Block)
    requires i < |caches| && i < KMEM_CACHE_NUM && OnlyPage(caches[i], p, c)
    requires b.Object? && b.i == i && b.p == p && b.w == c.layout.objectSize
    requires OnlyNode(caches[i].slabs[p].allocList, c.slabs[p].allocList, b.x)
    ensures SameLiveBut(z, lev, caches, z, lev, caches[i := c], b)
    ensures IsLive(z, lev, caches[i := c], b) <==> b.x in c.slabs[p].allocList
    ensures IsLive(z, lev, caches, b) <==> b.x in caches[i].slabs[p].allocList
  {
  }

  lemma {:induction false} PageOk(z: Zone, lev: Tiling, caches: seq<Cache>, i: nat, p: nat)
    requires Agree(z, lev, caches) && i < KMEM_CACHE_NUM && p in caches[i].slabs
    ensures CacheOk(caches[i]) && SlabOk(caches[i].layout, PageAddr(p), caches[i].slabs[p])
  {
    assert CacheAt(caches, i) && SlabAt(caches[i], p);
  }

  /** alloc_object in page `p` of cache `i`, with the list moves behind it */
  function AllocObject(c: Cache, p: nat): (Cache, Option<nat>)
    requires p in c.slabs
  {
    var h := Carve(c.layout, c.slabs[p]);
    if h.freeNum > 0 && h.freeList != [] then (AllocLists(c, p, Pop(h)), Some(h.freeList[0])) else (c, None)
  }

  lemma {:induction false} AllocObjectCache(c: Cache, p: nat, c': Cache, r: Option<nat>)
    requires CacheOk(c) && p in c.slabs && c.slabs[p].allocNum < c.layout.capacity && (c', r) == AllocObject(c, p)
    ensures r.Some? && r.value >= c.layout.objectSize && CacheOk(c') && OnlyPage(c, p, c')
    ensures c.slabs[p].freeList != [] && r.value == c.slabs[p].freeList[0] && c'.cpu == c.cpu
    ensures MovedToFront(c, p, c') && c'.slabs[p].allocNum == c.slabs[p].allocNum + 1
    ensures r.value !in c.slabs[p].allocList && r.value in c'.slabs[p].allocList
    ensures OnlyNode(c.slabs[p].allocList, c'.slabs[p].allocList, r.value)
  {
    var l, s := c.layout, c.slabs[p];
    assert SlabAt(c, p);
    CarveOk(l, PageAddr(p), s);
    var h := Carve(l, s);
    var x := h.freeList[0];
    ObjectInside(l, p, h, x) by { assert x in h.freeList; }
    PopOk(l, PageAddr(p), h);
    AllocListsOk(c, p, Pop(h));
  }

  lemma {:induction false} AllocObjectOk(z: Zone, lev: Tiling, caches: seq<Cache>, i: nat, p: nat, c: Cache,
                                         r: Option<nat>)
    requires Agree(z, lev, caches) && i < KMEM_CACHE_NUM && p in caches[i].slabs
    requires caches[i].slabs[p].allocNum < caches[i].layout.capacity
    requires (c, r) == AllocObject(caches[i], p)
    ensures r.Some? && r.value >= c.layout.objectSize && c.layout == caches[i].layout && Agree(z, lev, caches[i := c])
    ensures Entered(z, lev, caches, caches[i := c], Object(i, p, r.value, c.layout.objectSize))
    ensures caches[i].slabs[p].freeList != [] && r.value == caches[i].slabs[p].freeList[0]
    ensures p in c.slabs && MovedToFront(caches[i], p, c) && c.slabs[p].allocNum == caches[i].slabs[p].allocNum + 1
    ensures c.cpu == caches[i].cpu
  {
    AllocObjectCache(caches[i], p, c, r) by { PageOk(z, lev, caches, i, p); }
    SwapOk(z, lev, caches, i, p, c);
    SwapLive(z, lev, caches, i, p, c, Object(i, p, r.value, c.layout.objectSize));
  }

  ghost predicate Entered(z: Zone, lev: Tiling, caches: seq<Cache>, caches': seq<Cache>, b: Block) {
    !IsLive(z, lev, caches, b) && IsLive(z, lev, caches', b) && SameLiveBut(z, lev, caches, z, lev, caches', b)
  }

  /** kmem_cache_free of the object below node `x` */
  function FreeObject(c: Cache, p: nat, x: nat): Cache
    requires p in c.slabs && c.slabs[p].allocNum > 0
  {
    FreeLists(c, p, Push(c.slabs[p], x))
  }

  lemma {:induction false} FreeObjectCache(c: Cache, p: nat, x: nat)
    requires CacheOk(c) && p in c.slabs && x in c.slabs[p].allocList
    ensures c.slabs[p].allocNum > 0 && CacheOk(FreeObject(c, p, x)) && OnlyPage(c, p, FreeObject(c, p, x))
    ensures x !in FreeObject(c, p, x).slabs[p].allocList
    ensures FreeObject(c, p, x).slabs[p].freeList == [x] + c.slabs[p].freeList
    ensures FreeObject(c, p, x).slabs[p].allocNum < c.layout.capacity
    ensures FreeObject(c, p, x).layout == c.layout && FreeObject(c, p, x).cpu == c.cpu
    ensures MovedToFront(c, p, FreeObject(c, p, x))
    ensures OnlyNode(c.slabs[p].allocList, FreeObject(c, p, x).slabs[p].allocList, x)
  {
    assert SlabAt(c, p);
    PushOk(c.layout, PageAddr(p), c.slabs[p], x);
    FreeListsOk(c, p, Push(c.slabs[p], x));
  }

  /** The list moves at the end of kmem_cache_alloc put the page where it belongs. */
  lemma {:induction false} AllocListsOk(c: Cache, p: nat, h: SlabHead)
    requires CacheOk(c) && p in c.slabs && SlabOk(c.layout, PageAddr(p), h) && h.allocNum == c.slabs[p].allocNum + 1
    ensures CacheOk(AllocLists(c, p, h))
  {
    if h.allocNum == c.layout.capacity || c.slabs[p].allocNum == 0 { RelistOk(c, p, h); } else { StayOk(c, p, h); }
  }

  function AllocLists(c: Cache, p: nat, h: SlabHead): Cache
    requires p in c.slabs
  {
    if h.allocNum == c.layout.capacity then Unlink(c, p).(slabs := c.slabs[p := h], full := [p] + Remove(c.full, p))
    else if c.slabs[p].allocNum == 0 then Unlink(c, p).(slabs := c.slabs[p := h], partial := [p] + Remove(c.partial, p))
    else c.(slabs := c.slabs[p := h])
  }

  /** The list moves at the end of kmem_cache_free put the page where it belongs. */
  lemma {:induction false} FreeListsOk(c: Cache, p: nat, h: SlabHead)
    requires CacheOk(c) && p in c.slabs && SlabOk(c.layout, PageAddr(p), h) && h.allocNum + 1 == c.slabs[p].allocNum
    ensures CacheOk(FreeLists(c, p, h))
  {
    assert SlabAt(c, p);
    if h.allocNum == 0 || c.slabs[p].allocNum == c.layout.capacity { RelistOk(c, p, h); } else { StayOk(c, p, h); }
  }

  function FreeLists(c: Cache, p: nat, h: SlabHead): Cache
    requires p in c.slabs
  {
    if h.allocNum == 0 then Unlink(c, p).(slabs := c.slabs[p := h], free := [p] + Remove(c.free, p))
    else if c.slabs[p].allocNum == c.layout.capacity then
      Unlink(c, p).(slabs := c.slabs[p := h], partial := [p] + Remove(c.partial, p))
    else c.(slabs := c.slabs[p := h])
  }

  predicate HasRoom(c: Cache, p: nat) {
    p in c.slabs && c.slabs[p].allocNum < c.layout.capacity
  }

  /** Some page of the cache can give another object. */
  ghost predicate HasSomeRoom(c: Cache) {
    exists p: nat :: p in c.slabs && c.slabs[p].allocNum < c.layout.capacity
  }

  /** Every page of the cache is full. */
  ghost predicate AllFull(c: Cache) {
    forall p: nat :: p in c.slabs ==> c.slabs[p].allocNum == c.layout.capacity
  }

  /** Empty partial and free lists mean that every page is full. */
  lemma {:induction false} ListsTellFull(c: Cache)
    requires CacheOk(c)
    ensures c.partial == [] && c.free == [] <==> AllFull(c)
    ensures HasSomeRoom(c) <==> c.partial != [] || c.free != []
    ensures c.partial != [] ==> HasRoom(c, c.partial[0])
    ensures c.free != [] ==> HasRoom(c, c.free[0])
    ensures c.cpu.Some? ==>
              c.cpu.value in c.slabs && (c.slabs[c.cpu.value].allocNum == c.layout.capacity || HasRoom(c, c.cpu.value))
  {
    if c.cpu.Some? { assert SlabAt(c, c.cpu.value); }
    forall p: nat | p in c.slabs && c.partial == [] && c.free == []
      ensures c.slabs[p].allocNum == c.layout.capacity
    {
      assert Listed(c, c.layout.capacity, p) && SlabAt(c, p);
    }
    if c.partial != [] {
      assert c.partial[0] in c.partial;
      assert Listed(c, c.layout.capacity, c.partial[0]);
    }
    if c.free != [] {
      assert c.free[0] in c.free;
      assert Listed(c, c.layout.capacity, c.free[0]) && SlabAt(c, c.free[0]);
    }
  }

  // ---------------------------------------------------------------- the allocator

  /** `i` is the first cache whose objects have at least `size` bytes. */
  predicate FirstFit(i: nat, size: nat) {
    i < KMEM_CACHE_NUM && size <= SizeOf(i) && (i > 0 ==> SizeOf(i - 1) < size)
  }

  /** The kernel heap holds nothing for a request of `size` bytes. */
  ghost predicate Exhausted(z: Zone, lev: Tiling, caches: seq<Cache>, size: nat)
    requires |caches| == KMEM_CACHE_NUM
  {
    if size <= SizeOf(KMEM_CACHE_NUM - 1)
    then exists i: nat :: FirstFit(i, size) && CacheExhausted(z, lev, caches[i])
    else exists k: nat :: IsOrder(k, PageCount(size)) && NoRun(z, lev, k)
  }

  /** The zone has no block of order `k` to give. */
  ghost predicate NoRun(z: Zone, lev: Tiling, k: nat) {
    k > MAX_BUDDY_ORDER || !exists a: nat :: FreeRun(z, lev, a, k)
  }

  /** Every object of the cache is allocated and the zone has no free page. */
  ghost predicate CacheExhausted(z: Zone, lev: Tiling, c: Cache) {
    AllFull(c) && !exists a: nat :: FreeRun(z, lev, a, 0)
  }

  /** The layouts are those of init_slab. */
  ghost predicate Sized(caches: seq<Cache>) {
    forall i: nat :: i < KMEM_CACHE_NUM && i < |caches| ==> caches[i].layout == InitLayout(SizeOf(i))
  }

  ghost predicate SameLayouts(caches: seq<Cache>, caches': seq<Cache>) {
    |caches'| == |caches| && forall i: nat :: SameLayout(caches, caches', i)
  }

  predicate SameLayout(caches: seq<Cache>, caches': seq<Cache>, i: nat) {
    i < |caches| && i < |caches'| ==> caches'[i].layout == caches[i].layout
  }

  lemma {:induction false} LayoutsTrans(caches: seq<Cache>, caches1: seq<Cache>, caches2: seq<Cache>)
    requires SameLayouts(caches, caches1) && SameLayouts(caches1, caches2)
    ensures SameLayouts(caches, caches2)
  {
    forall i: nat
      ensures SameLayout(caches, caches2, i)
    {
      assert SameLayout(caches, caches1, i) && SameLayout(caches1, caches2, i);
    }
  }

  lemma {:induction false} SizedKept(caches: seq<Cache>, caches': seq<Cache>)
    requires Sized(caches) && SameLayouts(caches, caches')
    ensures Sized(caches')
  {
    forall i: nat | i < KMEM_CACHE_NUM && i < |caches'|
      ensures caches'[i].layout == InitLayout(SizeOf(i))
    {
      assert SameLayout(caches, caches', i);
    }
  }

  /** The block that was handed out is new and lies at the returned address; all other blocks are as before. */
  ghost predicate HandedOut(z: Zone, lev: Tiling, caches: seq<Cache>, z': Zone, lev': Tiling, caches': seq<Cache>,
                            b: Block, at: nat) {
    && !IsLive(z, lev, caches, b) && IsLive(z', lev', caches', b) && Start(b) == at
    && SameLiveBut(z, lev, caches, z', lev', caches', b)
  }

  /** A page the cache already had is used: the buddy allocator is not asked, and nothing but the current page of
      the cache changes. */
  ghost predicate Reused(z: Zone, lev: Tiling, caches: seq<Cache>, i: nat, page: Option<nat>, z': Zone, lev': Tiling,
                         caches': seq<Cache>) {
    z' == z && lev' == lev && i < |caches| && caches' == caches[i := caches[i].(cpu := page)]
  }

  /** One free page of the zone, and no other, became a slab page of cache `i`; the other caches and the other pages
      of this one are as before. */
  ghost predicate NewSlabPage(z: Zone, lev: Tiling, caches: seq<Cache>, i: nat, p: nat, z': Zone, lev': Tiling,
                              caches': seq<Cache>) {
    && p in FreeSet(z, lev) && FreeSet(z', lev') == FreeSet(z, lev) - {p}
    && i < |caches| && |caches'| == |caches| && caches' == caches[i := caches'[i]]
    && caches'[i].slabs == caches[i].slabs[p := FreshSlab(caches[i].layout, PageAddr(p))]
  }

  lemma {:induction false} AdoptTakes(z: Zone, lev: Tiling, i: nat, p: nat, z1: Zone, lev1: Tiling, z2: Zone)
    requires Inv(z1, lev1, -1) && Granted(z, lev, p, 0, InSlab, z1, lev1)
    requires z2 == z1.(pages := z1.pages[p := z1.pages[p].(cachep := i + 1)])
    ensures p in FreeSet(z, lev) && FreeSet(z2, lev1) == FreeSet(z, lev) - {p}
  {
    GrantTakes(z, lev, p, 0, InSlab, z1, lev1);
    assert FreePage(z, lev, p);
    assert forall q: nat :: FreePage(z2, lev1, q) <==> FreePage(z1, lev1, q);
  }

  /** A page that changes its list goes to the front of the new one. */
  predicate MovedToFront(c: Cache, p: nat, c': Cache)
    requires p in c.slabs && p in c'.slabs
  {
    var was, now := c.slabs[p].allocNum, c'.slabs[p].allocNum;
    && (now == 0 && was > 0 ==> c'.free != [] && c'.free[0] == p)
    && (now == c.layout.capacity && was < now ==> c'.full != [] && c'.full[0] == p)
    && (0 < now < c.layout.capacity && (was == 0 || was == c.layout.capacity) ==>
          c'.partial != [] && c'.partial[0] == p)
  }

  /** The object is the first free one of its page, which is not full; the other caches are as before. */
  predicate FreedFirst(caches: seq<Cache>, b: Block, caches': seq<Cache>) {
    && b.Object? && b.i < |caches| && |caches'| == |caches| && caches' == caches[b.i := caches'[b.i]]
    && b.p in caches[b.i].slabs && b.p in caches'[b.i].slabs
    && caches'[b.i].slabs[b.p].freeList == [b.x] + caches[b.i].slabs[b.p].freeList
    && caches'[b.i].slabs[b.p].allocNum < caches'[b.i].layout.capacity
    && caches'[b.i].layout == caches[b.i].layout && caches'[b.i].cpu == caches[b.i].cpu
    && MovedToFront(caches[b.i], b.p, caches'[b.i])
  }

  class KernelHeap {
    const zone: BuddyZone
    var caches: seq<Cache>

    ghost predicate Valid()
      reads this, zone
    {
      Consistent() && Sized(caches)
    }

    ghost predicate Consistent()
      reads this, zone
    {
      HeapOk(zone.Z(), zone.lev, caches)
    }

    ghost predicate Live(b: Block)
      reads this, zone
    {
      IsLive(zone.Z(), zone.lev, caches, b)
    }

    /** init_slab, after init_buddy */
    constructor (zone: BuddyZone)
      requires zone.Valid() && forall q: nat :: InZone(zone.Z(), q) ==> FreePage(zone.Z(), zone.lev, q)
      ensures Valid() && this.zone == zone && forall b: Block :: !Live(b)
    {
      this.zone := zone;
      caches := seq(KMEM_CACHE_NUM, i requires 0 <= i < KMEM_CACHE_NUM => Cache(InitLayout(SizeOf(i)), [], [], [],
          None, map[]));
      new;
      forall i: nat | i < KMEM_CACHE_NUM
        ensures CacheAt(caches, i)
      {
        TwelveSizesGood(i);
      }
      forall p: nat | InZone(zone.Z(), p) && p < |zone.Z().pages| && IsHead(zone.lev, p)
        ensures zone.Z().pages[p].used.Free?
      {
        assert FreePage(zone.Z(), zone.lev, p);
      }
    }

    /** The first half of kmem_cache_alloc: the current page if it has room, else the first partial page, else the
        first free one, else a page from the buddy allocator; NULL only when that has none either. */
    method FindPage(i: nat) returns (page: Option<nat>)
      requires Consistent() && i < KMEM_CACHE_NUM
      modifies this, zone
      ensures Consistent() && SameLive(old(zone.Z()), old(zone.lev), old(caches), zone.Z(), zone.lev, caches)
      ensures SameLayouts(old(caches), caches)
      ensures page.None? <==> CacheExhausted(old(zone.Z()), old(zone.lev), old(caches)[i])
      ensures page.None? ==> zone.Z() == old(zone.Z()) && zone.lev == old(zone.lev) && caches == old(caches)
      ensures page.Some? ==> HasRoom(caches[i], page.value) && caches[i].cpu == page
      ensures var c := old(caches)[i];
              var current := c.cpu.Some? && c.cpu.value in c.slabs && c.slabs[c.cpu.value].allocNum < c.layout.capacity;
              && (current ==> page == c.cpu)
              && (!current && c.partial != [] ==> page == Some(c.partial[0]))
              && (!current && c.partial == [] && c.free != [] ==> page == Some(c.free[0]))
      ensures HasSomeRoom(old(caches)[i]) ==>
                Reused(old(zone.Z()), old(zone.lev), old(caches), i, page, zone.Z(), zone.lev, caches)
      ensures AllFull(old(caches)[i]) && page.Some? ==>
                NewSlabPage(old(zone.Z()), old(zone.lev), old(caches), i, page.value, zone.Z(), zone.lev, caches)
    {
      var c := caches[i];
      ListsTellFull(c) by { assert CacheAt(caches, i); }
      if c.cpu.Some? && c.slabs[c.cpu.value].allocNum != c.layout.capacity {
        assert HasRoom(c, c.cpu.value);
        return c.cpu;
      }
      if c.partial != [] || c.free != [] {
        var pg := if c.partial != [] then c.partial[0] else c.free[0];
        SetCpu(i, pg);
        return Some(pg);
      }
      page := FetchPage(i);
      if page.Some? {
        ghost var z1, lev1, caches1 := zone.Z(), zone.lev, caches;
        SetCpu(i, page.value);
        SameLiveTrans(old(zone.Z()), old(zone.lev), old(caches), z1, lev1, caches1, zone.Z(), zone.lev, caches);
        LayoutsTrans(old(caches), caches1, caches);
      }
    }

    /** cachep->cpu.page = pagep */
    method SetCpu(i: nat, pg: nat)
      requires Consistent() && i < KMEM_CACHE_NUM && HasRoom(caches[i], pg)
      modifies this
      ensures Consistent() && SameLive(zone.Z(), zone.lev, old(caches), zone.Z(), zone.lev, caches)
      ensures SameLayouts(old(caches), caches) && HasRoom(caches[i], pg)
      ensures i < |old(caches)| && caches == old(caches)[i := old(caches)[i].(cpu := Some(pg))]
    {
      ghost var z := zone.Z();
      CpuOk(z, zone.lev, caches, i, pg);
      caches := caches[i := caches[i].(cpu := Some(pg))];
      assert zone.Z() == z;
    }

    /** A page from the buddy allocator becomes an empty slab page of cache `i`. */
    method FetchPage(i: nat) returns (page: Option<nat>)
      requires Consistent() && i < KMEM_CACHE_NUM
      modifies this, zone
      ensures Consistent() && SameLive(old(zone.Z()), old(zone.lev), old(caches), zone.Z(), zone.lev, caches)
      ensures SameLayouts(old(caches), caches)
      ensures page.None? <==> !exists a: nat :: FreeRun(old(zone.Z()), old(zone.lev), a, 0)
      ensures page.None? ==> zone.Z() == old(zone.Z()) && zone.lev == old(zone.lev) && caches == old(caches)
      ensures page.Some? ==> HasRoom(caches[i], page.value)
      ensures page.Some? ==>
                NewSlabPage(old(zone.Z()), old(zone.lev), old(caches), i, page.value, zone.Z(), zone.lev, caches)
    {
      page := zone.AllocPages(0, InSlab);
      if page.Some? { Adopt(i, page.value, old(zone.Z()), old(zone.lev)); }
    }

    /** It goes to the front of the free list, with an initialised slab head. `z` and `lev0` are the zone before it was
        granted. */
    method Adopt(i: nat, pg: nat, ghost z: Zone, ghost lev0: Tiling)
      requires HeapOk(z, lev0, caches) && i < KMEM_CACHE_NUM && zone.Valid()
      requires Granted(z, lev0, pg, 0, InSlab, zone.Z(), zone.lev)
      modifies this, zone
      ensures Consistent() && SameLive(z, lev0, old(caches), zone.Z(), zone.lev, caches)
      ensures SameLayouts(old(caches), caches) && HasRoom(caches[i], pg)
      ensures NewSlabPage(z, lev0, old(caches), i, pg, zone.Z(), zone.lev, caches)
    {
      var c := caches[i];
      ghost var z1 := zone.Z();
      zone.pages := zone.pages[pg := zone.pages[pg].(cachep := i + 1)];
      caches := caches[i := c.(free := [pg] + c.free, slabs := c.slabs[pg := FreshSlab(c.layout, PageAddr(pg))])];
      AdoptOk(z, lev0, old(caches), i, pg, z1, zone.lev, zone.Z(), caches);
      AdoptTakes(z, lev0, i, pg, z1, zone.lev, zone.Z());
    }

    /** kmem_cache_alloc */
    method CacheAlloc(i: nat) returns (ret: Option<nat>, ghost b: Block)
      requires Consistent() && i < KMEM_CACHE_NUM
      modifies this, zone
      ensures Consistent() && SameLayouts(old(caches), caches)
      ensures ret.None? <==> CacheExhausted(old(zone.Z()), old(zone.lev), old(caches)[i])
      ensures ret.None? ==> zone.Z() == old(zone.Z()) && zone.lev == old(zone.lev) && caches == old(caches)
      ensures ret.Some? ==>
                HandedOut(old(zone.Z()), old(zone.lev), old(caches), zone.Z(), zone.lev, caches, b, ret.value)
                            && Bytes(b) == old(caches)[i].layout.objectSize
      ensures ret.Some? ==> b.Object? && b.i == i
      ensures HasSomeRoom(old(caches)[i]) ==>
                && zone.Z() == old(zone.Z()) && zone.lev == old(zone.lev) && ret.Some? && b.p in old(caches)[i].slabs
                && old(caches)[i].slabs[b.p].freeList != [] && b.x == old(caches)[i].slabs[b.p].freeList[0]
      ensures HasSomeRoom(old(caches)[i]) && ret.Some? && b.p in old(caches)[i].slabs ==>
                && b.p in caches[i].slabs && caches[i].cpu == Some(b.p)
                && caches[i].slabs[b.p].allocNum == old(caches)[i].slabs[b.p].allocNum + 1
                && MovedToFront(old(caches)[i], b.p, caches[i])
      ensures var c := old(caches)[i];
              c.cpu.Some? && c.cpu.value in c.slabs && c.slabs[c.cpu.value].allocNum < c.layout.capacity ==>
                ret.Some? && b.p == c.cpu.value
      ensures AllFull(old(caches)[i]) && ret.Some? ==>
                && b.p in FreeSet(old(zone.Z()), old(zone.lev))
                && FreeSet(zone.Z(), zone.lev) == FreeSet(old(zone.Z()), old(zone.lev)) - {b.p}
    {
      b := Run(0, 0);
      var page := FindPage(i);
      if page.None? { return None, b; }
      var (c, x) := AllocObject(caches[i], page.value);
      AllocObjectOk(zone.Z(), zone.lev, caches, i, page.value, c, x);
      ghost var caches1 := caches;
      caches := caches[i := c];
      if x.Some? {
        ret := Some(x.value - c.layout.objectSize);
        b := Object(i, page.value, x.value, c.layout.objectSize);
        LayoutsTrans(old(caches), caches1, caches);
        assert SameLayout(old(caches), caches, i);
        SameThenEntered(old(zone.Z()), old(zone.lev), old(caches), zone.Z(), zone.lev, caches1, caches, b, ret.value);
      } else {
        ret := None;
      }
    }

    /** As long as the current page has room, no allocation takes a page from the zone: `n` objects in a row come from
        that page. */
    method AllocRow(i: nat, n: nat) returns (objects: seq<nat>)
      requires Consistent() && i < KMEM_CACHE_NUM && caches[i].cpu.Some? && caches[i].cpu.value in caches[i].slabs
      requires caches[i].slabs[caches[i].cpu.value].allocNum + n <= caches[i].layout.capacity
      modifies this, zone
      ensures Consistent() && zone.Z() == old(zone.Z()) && zone.lev == old(zone.lev) && |objects| == n
      ensures forall k :: 0 <= k < n ==>
                PageAddr(old(caches)[i].cpu.value) <= objects[k] < PageAddr(old(caches)[i].cpu.value) + PAGE_SIZE
    {
      ghost var p, taken := caches[i].cpu.value, caches[i].slabs[caches[i].cpu.value].allocNum;
      objects := [];
      while |objects| < n
        invariant Consistent() && zone.Z() == old(zone.Z()) && zone.lev == old(zone.lev) && |objects| <= n
        invariant caches[i].cpu == Some(p) && p in caches[i].slabs && SameLayout(old(caches), caches, i)
        invariant caches[i].slabs[p].allocNum == taken + |objects|
        invariant forall k :: 0 <= k < |objects| ==> PageAddr(p) <= objects[k] < PageAddr(p) + PAGE_SIZE
      {
        ghost var caches1 := caches;
        var ret;
        ghost var b;
        assert HasSomeRoom(caches[i]);
        ret, b := CacheAlloc(i);
        LivePages(zone.Z(), zone.lev, caches, b);
        assert SlabPage(zone.Z(), zone.lev, i, b.p) && SameLayout(caches1, caches, i) && RunBytes(0) == PAGE_SIZE;
        objects := objects + [ret.value];
      }
    }

    /** kmem_cache_free */
    method CacheFree(i: nat, objp: nat, ghost b: Block)
      requires Agree(zone.Z(), zone.lev, caches) && Live(b) && Start(b) == objp && b.Object? && b.i == i
      modifies this
      ensures Agree(zone.Z(), zone.lev, caches) && SameLayouts(old(caches), caches) && !Live(b)
      ensures SameLiveBut(old(zone.Z()), old(zone.lev), old(caches), zone.Z(), zone.lev, caches, b)
      ensures FreedFirst(old(caches), b, caches)
    {
      LivePages(zone.Z(), zone.lev, caches, b);
      var pg := (objp - KERNEL_ENTRY) / PAGE_SIZE;
      PageOf(objp, b.p);
      var x := objp + caches[i].layout.objectSize;
      assert pg == b.p && x == b.x;
      FreeObjectCache(caches[i], pg, x) by { PageOk(zone.Z(), zone.lev, caches, i, pg); }
      var c := FreeObject(caches[i], pg, x);
      SwapOk(zone.Z(), zone.lev, caches, i, pg, c);
      SwapLive(zone.Z(), zone.lev, caches, i, pg, c, b);
      caches := caches[i := c];
    }

    /** kmalloc: NULL exactly when the heap is exhausted for that size; otherwise a block nobody held, of at
        least `size` bytes unless the rounding of alloc_pages wraps around. */
    method Alloc(size: nat) returns (ret: Option<nat>, ghost b: Block)
      requires Valid() && size < Words.UINT_RANGE
      modifies this, zone
      ensures Valid()
      ensures ret.None? <==> Exhausted(old(zone.Z()), old(zone.lev), old(caches), size)
      ensures ret.None? ==> zone.Z() == old(zone.Z()) && zone.lev == old(zone.lev) && caches == old(caches)
      ensures ret.Some? ==>
                HandedOut(old(zone.Z()), old(zone.lev), old(caches), zone.Z(), zone.lev, caches, b, ret.value)
      ensures ret.Some? ==> (Bytes(b) >= size <==> size <= 0xFFFF_F000)
      ensures ret.Some? && size <= SizeOf(KMEM_CACHE_NUM - 1) ==>
                b.Object? && b.i < KMEM_CACHE_NUM && (b.i > 0 ==> SizeOf(b.i - 1) < size)
      ensures ret.Some? && b.Object? && HasSomeRoom(old(caches)[b.i]) ==>
                zone.Z() == old(zone.Z()) && zone.lev == old(zone.lev)
      ensures ret.Some? && size > SizeOf(KMEM_CACHE_NUM - 1) ==>
                && b.Run? && caches == old(caches)
                && (size <= 0xFFFF_F000 && b.k > 0 ==> Pow2(b.k - 1) * PAGE_SIZE < size)
                && (size > 0xFFFF_F000 ==> b.k == 0)
                && forall q: nat :: q in FreeSet(zone.Z(), zone.lev)
                                    <==> q in FreeSet(old(zone.Z()), old(zone.lev)) && Base(q, b.k) != b.p
    {
      if size <= SizeOf(KMEM_CACHE_NUM - 1) {
        ret, b := AllocSmall(size);
      } else {
        ret, b := AllocLarge(size);
      }
    }

    /** From the first cache whose objects are large enough. */
    method AllocSmall(size: nat) returns (ret: Option<nat>, ghost b: Block)
      requires Valid() && size <= SizeOf(KMEM_CACHE_NUM - 1)
      modifies this, zone
      ensures Valid()
      ensures ret.None? <==> Exhausted(old(zone.Z()), old(zone.lev), old(caches), size)
      ensures ret.None? ==> zone.Z() == old(zone.Z()) && zone.lev == old(zone.lev) && caches == old(caches)
      ensures ret.Some? ==>
                HandedOut(old(zone.Z()), old(zone.lev), old(caches), zone.Z(), zone.lev, caches, b, ret.value)
      ensures ret.Some? ==> Bytes(b) >= size && b.Object? && FirstFit(b.i, size)
      ensures ret.Some? && HasSomeRoom(old(caches)[b.i]) ==> zone.Z() == old(zone.Z()) && zone.lev == old(zone.lev)
    {
      var i := 0;
      while SizeOf(i) < size
        invariant i < KMEM_CACHE_NUM && (i > 0 ==> SizeOf(i - 1) < size)
        decreases KMEM_CACHE_NUM - i
      {
        i := i + 1;
      }
      FirstFitUnique(i, size);
      TwelveSizesGood(i);
      ret, b := CacheAlloc(i);
      SizedKept(old(caches), caches);
    }

    /** From the buddy allocator. */
    method AllocLarge(size: nat) returns (ret: Option<nat>, ghost b: Block)
      requires Valid() && SizeOf(KMEM_CACHE_NUM - 1) < size < Words.UINT_RANGE
      modifies this, zone
      ensures Valid() && caches == old(caches)
      ensures ret.None? <==> Exhausted(old(zone.Z()), old(zone.lev), old(caches), size)
      ensures ret.None? ==> zone.Z() == old(zone.Z()) && zone.lev == old(zone.lev)
      ensures ret.Some? ==>
                HandedOut(old(zone.Z()), old(zone.lev), old(caches), zone.Z(), zone.lev, caches, b, ret.value)
      ensures ret.Some? ==> b.Run? && (Bytes(b) >= size <==> size <= 0xFFFF_F000)
      ensures ret.Some? && size <= 0xFFFF_F000 && b.k > 0 ==> Pow2(b.k - 1) * PAGE_SIZE < size
      ensures ret.Some? && size > 0xFFFF_F000 ==> b.k == 0
      ensures ret.Some? ==> forall q: nat :: q in FreeSet(zone.Z(), zone.lev)
                                             <==> q in FreeSet(old(zone.Z()), old(zone.lev)) && Base(q, b.k) != b.p
    {
      ghost var k;
      var page;
      page, k := zone.AllocBytes(size);
      OrderUnique(k, size);
      if page.None? { return None, Run(0, 0); }
      RunOk(old(zone.Z()), old(zone.lev), caches, page.value, k, zone.Z(), zone.lev);
      OrderCovers(size, k);
      GrantTakes(old(zone.Z()), old(zone.lev), page.value, k, Alloced, zone.Z(), zone.lev);
      ret, b := Some(PageAddr(page.value)), Run(page.value, k);
    }

    /** kfree of a live block: exactly that block stops being live. */
    method Free(objp: nat, ghost b: Block)
      requires Valid() && Live(b) && Start(b) == objp
      modifies this, zone
      ensures Valid() && !Live(b)
      ensures SameLiveBut(old(zone.Z()), old(zone.lev), old(caches), zone.Z(), zone.lev, caches, b)
      ensures b.Object? ==>
                zone.Z() == old(zone.Z()) && zone.lev == old(zone.lev) && FreedFirst(old(caches), b, caches)
      ensures b.Run? ==>
                && caches == old(caches)
                && forall q: nat :: q in FreeSet(zone.Z(), zone.lev) <==>
                     q in FreeSet(old(zone.Z()), old(zone.lev)) || (InZone(zone.Z(), q) && Base(q, b.k) == b.p)
    {
      LivePages(zone.Z(), zone.lev, caches, b);
      var pg := (objp - KERNEL_ENTRY) / PAGE_SIZE;
      PageOf(objp, b.p);
      assert b.Object? ==> SlabPage(zone.Z(), zone.lev, b.i, b.p);
      if zone.pages[pg].used.InSlab? {
        CacheFree(zone.pages[pg].cachep - 1, objp, b);
        SizedKept(old(caches), caches);
      } else {
        zone.FreePages(pg);
        UnrunOk(old(zone.Z()), old(zone.lev), caches, pg, b.k, zone.Z(), zone.lev);
        FreeGives(old(zone.Z()), old(zone.lev), pg, zone.Z(), zone.lev);
      }
    }

    /** An object of the current page that is freed is the next one handed out. */
    method FreeThenAlloc(objp: nat, ghost b: Block) returns (ret: Option<nat>)
      requires Valid() && Live(b) && Start(b) == objp && b.Object? && caches[b.i].cpu == Some(b.p)
      modifies this, zone
      ensures Valid() && ret == Some(objp) && Live(b) && zone.Z() == old(zone.Z()) && zone.lev == old(zone.lev)
    {
      LivePages(zone.Z(), zone.lev, caches, b);
      var pg := (objp - KERNEL_ENTRY) / PAGE_SIZE;
      PageOf(objp, b.p);
      assert SlabPage(zone.Z(), zone.lev, b.i, b.p);
      var i := zone.pages[pg].cachep - 1;
      Free(objp, b);
      ghost var caches1, again := caches, b;
      ret, again := CacheAlloc(i);
      SizedKept(caches1, caches);
    }
  }

  lemma {:induction false} CpuOk(z: Zone, lev: Tiling, caches: seq<Cache>, i: nat, p: nat)
    requires HeapOk(z, lev, caches) && i < KMEM_CACHE_NUM && p in caches[i].slabs
    ensures HeapOk(z, lev, caches[i := caches[i].(cpu := Some(p))])
    ensures SameLive(z, lev, caches, z, lev, caches[i := caches[i].(cpu := Some(p))])
  {
    var c := caches[i].(cpu := Some(p));
    CpuCacheOk(caches[i], p) by { assert CacheAt(caches, i); }
    SwapOk(z, lev, caches, i, p, c);
    CpuLive(z, lev, caches, i, p);
  }

  lemma {:induction false} CpuLive(z: Zone, lev: Tiling, caches: seq<Cache>, i: nat, p: nat)
    requires i < |caches|
    ensures SameLive(z, lev, caches, z, lev, caches[i := caches[i].(cpu := Some(p))])
  {
  }

  lemma {:induction false} SameLiveTrans(z: Zone, lev: Tiling, caches: seq<Cache>, z1: Zone, lev1: Tiling,
                                         caches1: seq<Cache>, z2: Zone, lev2: Tiling, caches2: seq<Cache>)
    requires SameLive(z, lev, caches, z1, lev1, caches1) && SameLive(z1, lev1, caches1, z2, lev2, caches2)
    ensures SameLive(z, lev, caches, z2, lev2, caches2)
  {
  }

  lemma {:induction false} SameThenEntered(z: Zone, lev: Tiling, caches: seq<Cache>, z1: Zone, lev1: Tiling,
                                           caches1: seq<Cache>, caches2: seq<Cache>, b: Block, at: nat)
    requires SameLive(z, lev, caches, z1, lev1, caches1) && Entered(z1, lev1, caches1, caches2, b) && Start(b) == at
    ensures HandedOut(z, lev, caches, z1, lev1, caches2, b, at)
  {
  }

  lemma {:induction false} CpuCacheOk(c: Cache, p: nat)
    requires CacheOk(c) && p in c.slabs
    ensures CacheOk(c.(cpu := Some(p))) && OnlyPage(c, p, c.(cpu := Some(p)))
  {
    var c' := c.(cpu := Some(p));
    forall q: nat
      ensures Listed(c', c.layout.capacity, q) && SlabAt(c', q)
    {
      assert Listed(c, c.layout.capacity, q) && SlabAt(c, q);
    }
  }

  /** lower_align and the page number of an address inside page `p` */
  lemma PageOf(x: nat, p: nat)
    requires PageAddr(p) <= x < PageAddr(p) + PAGE_SIZE
    ensures (x - KERNEL_ENTRY) / PAGE_SIZE == p
  {
  }

  lemma {:induction false} FirstFitUnique(i: nat, size: nat)
    requires FirstFit(i, size)
    ensures forall j: nat :: FirstFit(j, size) ==> j == i
  {
    forall j: nat | FirstFit(j, size)
      ensures j == i
    {
      if i < j { SizesGrow(i, j - 1); } else if j < i { SizesGrow(j, i - 1); }
    }
  }

  lemma SizesGrow(i: nat, j: nat)
    requires i <= j < KMEM_CACHE_NUM
    ensures SizeOf(i) <= SizeOf(j)
  {
    if i < j {
      assert SizeOf(j - 1) <= SizeOf(j);
      SizesGrow(i, j - 1);
    }
  }

  lemma {:induction false} OrderUnique(k: nat, size: nat)
    requires IsOrder(k, PageCount(size))
    ensures forall j: nat :: IsOrder(j, PageCount(size)) ==> j == k
  {
    forall j: nat | IsOrder(j, PageCount(size))
      ensures j == k
    {
      if j < k { Pow2Monotone(j, k - 1); } else if k < j { Pow2Monotone(k, j - 1); }
    }
  }
}
