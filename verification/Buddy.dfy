/**
 The buddy allocator of kernel/mm/buddy.c.

 The page structs of pages that are not the head of a block hold stale data, and nothing here says
 what. What makes that harmless is `Inv`: whenever the code looks at a page struct, the page is the head
 of some block.
 */
module Buddies {
  import opened Words
  import opened Options
  import opened Sequences
  import opened Powers
  import opened PageMath

  const MAX_BUDDY_ORDER: nat := 4

  /** enum buddy_page_info */
  datatype PageInfo = Free | InSlab | Alloced | Reserved

  /** struct page; `cachep` is 0 for NULL and i + 1 for kmem_caches[i]. */
  datatype Page = Page(used: PageInfo, bplevel: nat, cachep: nat)

  /** struct buddy_zone with the page structs it manages. */
  datatype Zone = Zone(start: nat, num: nat, pages: seq<Page>, lists: seq<seq<nat>>)

  predicate InZone(z: Zone, p: nat) {
    z.start <= p < z.start + z.num
  }

  /** The tiling of the zone into blocks: `lev[p]` is the level of the block page `p` lies in. */
  type Tiling = seq<nat>

  /** The head of the block page `p` lies in. */
  function HeadOf(lev: Tiling, p: nat): nat
    requires p < |lev|
  {
    Base(p, lev[p])
  }

  predicate IsHead(lev: Tiling, p: nat) {
    p < |lev| && HeadOf(lev, p) == p
  }

  /** `p` is a multiple of every block size. */
  ghost predicate Aligned(p: nat) {
    forall k: nat :: k <= MAX_BUDDY_ORDER ==> Base(p, k) == p
  }

  /** Zone bounds are multiples of the largest block size. */
  ghost predicate ZoneShape(z: Zone) {
    && Aligned(z.start) && Aligned(z.start + z.num)
    && z.start + z.num <= |z.pages| && |z.lists| == MAX_BUDDY_ORDER + 1
  }

  /** The blocks are size-aligned, cover the zone and do not overlap. */
  ghost predicate Tiled(z: Zone, lev: Tiling) {
    && |lev| == |z.pages|
    && (forall p: nat :: InZone(z, p) && p < |lev| ==> lev[p] <= MAX_BUDDY_ORDER)
    && (forall p: nat, q: nat {:trigger Base(q, lev[p])} ::
          InZone(z, p) && InZone(z, q) && p < |lev| && q < |lev| && Base(q, lev[p]) == HeadOf(lev, p) ==>
            lev[q] == lev[p])
  }

  /** A free block, leaving out the block that is being worked on. */
  predicate FreeHead(z: Zone, lev: Tiling, limbo: int, p: nat) {
    p < |z.pages| && IsHead(lev, p) && p != limbo && z.pages[p].used.Free?
  }

  /** List `k` holds exactly the free blocks of level `k`, each once. */
  ghost predicate ListOk(z: Zone, lev: Tiling, limbo: int, k: nat)
    requires k < |z.lists|
  {
    && NoDup(z.lists[k])
    && (forall p: nat :: p in z.lists[k] <==> InZone(z, p) && FreeHead(z, lev, limbo, p) && lev[p] == k)
  }

  /** The page struct of a head tells the level of its block. */
  ghost predicate LevelsOk(z: Zone, lev: Tiling, limbo: int) {
    forall p: nat :: InZone(z, p) && p < |z.pages| && IsHead(lev, p) && p != limbo ==> z.pages[p].bplevel == lev[p]
  }

  /** Each free block is on exactly the list of its level. */
  ghost predicate ListsOk(z: Zone, lev: Tiling, limbo: int) {
    |z.lists| == MAX_BUDDY_ORDER + 1 && forall k: nat :: k <= MAX_BUDDY_ORDER ==> ListOk(z, lev, limbo, k)
  }

  /** Eager coalescing: no two free buddies. */
  ghost predicate Coalesced(z: Zone, lev: Tiling, limbo: int) {
    forall p: nat {:trigger FreeHead(z, lev, limbo, p)} ::
      InZone(z, p) && FreeHead(z, lev, limbo, p) && lev[p] < MAX_BUDDY_ORDER ==>
      !FreeTwin(z, lev, limbo, Buddy(p, lev[p]), lev[p])
  }

  /** Page `b` is a free block of level `k`. */
  predicate FreeTwin(z: Zone, lev: Tiling, limbo: int, b: nat, k: nat) {
    b < |lev| && b < |z.pages| && lev[b] == k && Base(b, k) == b && b != limbo && z.pages[b].used.Free?
  }

  /** The invariant. `limbo` is the head of the block in the hands of __alloc_pages or __free_pages, on no
      list and with any page struct; -1 between calls. */
  ghost predicate Inv(z: Zone, lev: Tiling, limbo: int) {
    ZoneShape(z) && Tiled(z, lev) && LevelsOk(z, lev, limbo) && ListsOk(z, lev, limbo) && Coalesced(z, lev, limbo)
  }

  // ---------------------------------------------------------------- blocks

  lemma {:induction false} BlockInZone(z: Zone, p: nat, k: nat)
    requires ZoneShape(z) && InZone(z, p) && k <= MAX_BUDDY_ORDER
    ensures z.start <= Base(p, k) <= p && Base(p, k) + Pow2(k) <= z.start + z.num
  {
    var e := z.start + z.num;
    BaseBounds(p, k);
    assert Base(z.start, k) == z.start && Base(e, k) == e;
    BaseMonotone(z.start, p, k);
    BaseBelow(p, e, k);
  }

  /** Whenever the buddy of a block is inspected, it is the head of some block, of no higher level. */
  lemma {:induction false} BuddyIsHead(z: Zone, lev: Tiling, p: nat, k: nat)
    requires ZoneShape(z) && Tiled(z, lev) && InZone(z, p) && p < |lev| && lev[p] == k && IsHead(lev, p)
    requires k < MAX_BUDDY_ORDER
    ensures InZone(z, Buddy(p, k)) && Buddy(p, k) < |lev| && Buddy(p, k) != p
    ensures lev[Buddy(p, k)] <= k && IsHead(lev, Buddy(p, k))
  {
    var b := Buddy(p, k);
    assert InZone(z, b) && b < |lev| && b != p && Base(b, k) == b && Base(b, k + 1) == Base(p, k + 1) by {
      BuddyIs(p, k);
      BaseBounds(p, k + 1);
      BaseBounds(b, k + 1);
      BlockInZone(z, p, k + 1);
    }
    var j := lev[b];
    if j > k {
      BaseNest(p, k + 1, j);
      BaseNest(b, k + 1, j);
      SameBlock(z, lev, b, p);
      assert false;
    }
    BaseNest(b, j, k);
  }

  /** A page in the block of page `p` has the same level. */
  lemma {:induction false} SameBlock(z: Zone, lev: Tiling, p: nat, q: nat)
    requires Tiled(z, lev) && InZone(z, p) && InZone(z, q) && p < |lev| && q < |lev|
    requires Base(q, lev[p]) == Base(p, lev[p])
    ensures lev[q] == lev[p]
  {
    assert Base(q, lev[p]) == HeadOf(lev, p);
  }

  // ---------------------------------------------------------------- coalescing is complete

  /** Page `p` belongs to a free block. */
  predicate FreePage(z: Zone, lev: Tiling, p: nat) {
    p < |lev| && HeadOf(lev, p) < |z.pages| && z.pages[HeadOf(lev, p)].used.Free?
  }

  /** The size-aligned run of 2^k pages starting at `a` lies in the zone and is free. */
  ghost predicate FreeRun(z: Zone, lev: Tiling, a: nat, k: nat) {
    Base(a, k) == a && forall p: nat :: a <= p < a + Pow2(k) ==> InZone(z, p) && FreePage(z, lev, p)
  }

  lemma {:induction false} NoFreeBuddies(z: Zone, lev: Tiling, a: nat, b: nat)
    requires Inv(z, lev, -1) && InZone(z, a) && IsHead(lev, a) && IsHead(lev, b) && b < |z.pages| && lev[a] == lev[b]
    requires lev[a] < MAX_BUDDY_ORDER && b == Buddy(a, lev[a]) && z.pages[a].used.Free?
    ensures !z.pages[b].used.Free?
  {
    assert FreeHead(z, lev, -1, a);
  }

  /** Eager coalescing: a free aligned run lies inside one free block. */
  lemma {:induction false} RunInOneBlock(z: Zone, lev: Tiling, a: nat, k: nat)
    requires Inv(z, lev, -1) && k <= MAX_BUDDY_ORDER && FreeRun(z, lev, a, k)
    ensures a < |lev| && lev[a] >= k
    decreases k
  {
    BaseBounds(a, k);
    assert InZone(z, a);
    if k > 0 {
      var h := k - 1;
      var b := a + Pow2(h);
      BaseNest(a, h, k);
      BuddyIs(a, h);
      assert Buddy(a, h) == b;
      RunInOneBlock(z, lev, a, h);
      RunInOneBlock(z, lev, b, h);
      if lev[a] == h {
        if lev[b] > h {
          BaseNest(a, k, lev[b]);
          BaseNest(b, k, lev[b]);
          SameBlock(z, lev, b, a);
          assert false;
        }
        assert FreePage(z, lev, a) && FreePage(z, lev, b);
        NoFreeBuddies(z, lev, a, b);
        assert false;
      }
    }
  }

  /** Which level a free block has is decided by which pages are free. */
  lemma {:induction false} SamePagesSameLevel(z: Zone, lev: Tiling, z': Zone, lev': Tiling, p: nat)
    requires Inv(z, lev, -1) && Inv(z', lev', -1) && z.start == z'.start && z.num == z'.num
    requires forall q: nat :: InZone(z, q) ==> (FreePage(z, lev, q) <==> FreePage(z', lev', q))
    requires InZone(z, p) && FreePage(z, lev, p)
    ensures lev'[p] >= lev[p]
  {
    var k := lev[p];
    var a := HeadOf(lev, p);
    BlockInZone(z, p, k);
    forall q: nat | a <= q < a + Pow2(k)
      ensures InZone(z, q) && FreePage(z', lev', q)
    {
      BaseSame(p, q, k);
      assert lev[q] == k;
      assert FreePage(z, lev, q);
    }
    BaseNest(p, k, k);
    RunInOneBlock(z', lev', a, k);
    var j := lev'[a];
    BaseBounds(p, k);
    BaseNest(p, k, j);
    BaseNest(a, k, j);
    assert Base(p, j) == HeadOf(lev', a);
  }

  /** History independence: two states of the zone with the same free pages have the same free blocks. */
  lemma {:induction false} SamePagesSameLists(z: Zone, lev: Tiling, z': Zone, lev': Tiling)
    requires Inv(z, lev, -1) && Inv(z', lev', -1) && z.start == z'.start && z.num == z'.num
    requires forall q: nat :: InZone(z, q) ==> (FreePage(z, lev, q) <==> FreePage(z', lev', q))
    ensures forall k: nat, p: nat :: k <= MAX_BUDDY_ORDER ==> (p in z.lists[k] <==> p in z'.lists[k])
  {
    forall k: nat, p: nat | k <= MAX_BUDDY_ORDER
      ensures p in z.lists[k] <==> p in z'.lists[k]
    {
      assert ListOk(z, lev, -1, k) && ListOk(z', lev', -1, k);
      assert p in z.lists[k] ==> FreePage(z, lev, p);
      assert p in z'.lists[k] ==> FreePage(z', lev', p);
      if InZone(z, p) && FreePage(z, lev, p) {
        SamePagesSameLevel(z, lev, z', lev', p);
        SamePagesSameLevel(z', lev', z, lev, p);
        assert HeadOf(lev, p) == HeadOf(lev', p);
      }
    }
  }

  // ---------------------------------------------------------------- the steps of the two loops

  /** The tiling with level `k` on the 2^m pages of the aligned block at `a`. */
  function Relevel(lev: Tiling, a: nat, m: nat, k: nat): (r: Tiling)
    ensures |r| == |lev| && forall p :: 0 <= p < |lev| ==> r[p] == if Base(p, m) == a then k else lev[p]
  {
    seq(|lev|, p requires 0 <= p < |lev| => if Base(p, m) == a then k else lev[p])
  }

  /** Two blocks of level `k` become one of level `k + 1`. */
  lemma {:induction false} MergeTiled(z: Zone, lev: Tiling, a: nat, k: nat)
    requires ZoneShape(z) && Tiled(z, lev) && k < MAX_BUDDY_ORDER && InZone(z, a) && Base(a, k + 1) == a
    requires a < |lev| && lev[a] == k && Buddy(a, k) < |lev| && lev[Buddy(a, k)] == k
    ensures Tiled(z, Relevel(lev, a, k + 1, k + 1))
    ensures forall q: nat :: InZone(z, q) && Base(q, k + 1) == a ==> q < |lev| && lev[q] == k
  {
    var b, lev' := Buddy(a, k), Relevel(lev, a, k + 1, k + 1);
    BaseNest(a, k, k + 1);
    BuddyIs(a, k);
    BlockInZone(z, a, k + 1);
    BaseBounds(b, k + 1);
    forall q: nat | InZone(z, q) && Base(q, k + 1) == a
      ensures q < |lev| && lev[q] == k
    {
      HalfOf(q, a, k);
    }
    forall p: nat, q: nat | InZone(z, p) && InZone(z, q) && p < |lev| && q < |lev|
        && Base(q, lev'[p]) == HeadOf(lev', p)
      ensures lev'[q] == lev'[p]
    {
      MergedPair(z, lev, a, k, p, q);
    }
  }

  lemma {:induction false} MergedPair(z: Zone, lev: Tiling, a: nat, k: nat, p: nat, q: nat)
    requires Tiled(z, lev) && InZone(z, p) && InZone(z, q) && p < |lev| && q < |lev| && Base(a, k + 1) == a
    requires forall q: nat :: InZone(z, q) && Base(q, k + 1) == a ==> q < |lev| && lev[q] == k
    requires var lev' := Relevel(lev, a, k + 1, k + 1); Base(q, lev'[p]) == HeadOf(lev', p)
    ensures var lev' := Relevel(lev, a, k + 1, k + 1); lev'[q] == lev'[p]
  {
    if Base(p, k + 1) != a {
      assert Base(q, lev[p]) == HeadOf(lev, p) && lev[q] == lev[p];
      if Base(q, k + 1) == a {
        BaseNest(p, k, k + 1);
        BaseNest(q, k, k + 1);
      }
    }
  }

  /** A page of a block of level `k + 1` lies in one of its halves. */
  lemma {:induction false} HalfOf(q: nat, a: nat, k: nat)
    requires Base(q, k + 1) == a
    ensures Base(q, k) == a || Base(q, k) == Buddy(a, k)
  {
    BaseBounds(q, k + 1);
    BaseNest(q, k, k + 1);
    BaseNest(q, k + 1, k + 1);
    BuddyIs(a, k);
    BaseBounds(q, k);
    if q < a + Pow2(k) { BaseSame(a, q, k); } else { BaseSame(a + Pow2(k), q, k); }
  }

  /** One block of level `k + 1` becomes two of level `k`. */
  lemma {:induction false} SplitTiled(z: Zone, lev: Tiling, a: nat, k: nat)
    requires ZoneShape(z) && Tiled(z, lev) && k < MAX_BUDDY_ORDER && InZone(z, a) && Base(a, k + 1) == a
    requires a < |lev| && lev[a] == k + 1
    ensures Tiled(z, Relevel(lev, a, k + 1, k))
    ensures forall q: nat :: InZone(z, q) && Base(q, k + 1) == a ==> q < |lev| && lev[q] == k + 1
  {
    var lev' := Relevel(lev, a, k + 1, k);
    forall p: nat, q: nat | InZone(z, p) && InZone(z, q) && p < |lev| && q < |lev|
        && Base(q, lev'[p]) == HeadOf(lev', p)
      ensures lev'[q] == lev'[p]
    {
      if Base(p, k + 1) == a {
        BaseNest(p, k, k + 1);
        BaseNest(q, k, k + 1);
      }
    }
  }

  function Unlist(z: Zone, k: nat, p: nat): Zone
    requires k < |z.lists|
  {
    z.(lists := z.lists[k := Remove(z.lists[k], p)])
  }

  function Enlist(z: Zone, k: nat, p: nat): Zone
    requires k < |z.lists|
  {
    z.(lists := z.lists[k := z.lists[k] + [p]])
  }

  /** The head of an allocated block is taken in hand by __free_pages. */
  lemma {:induction false} PickAllocated(z: Zone, lev: Tiling, p: nat)
    requires Inv(z, lev, -1) && InZone(z, p) && IsHead(lev, p) && !z.pages[p].used.Free?
    ensures Inv(z, lev, p)
  {
    assert forall q: nat :: FreeHead(z, lev, p, q) <==> FreeHead(z, lev, -1, q);
    forall k: nat | k <= MAX_BUDDY_ORDER
      ensures ListOk(z, lev, p, k)
    {
      assert ListOk(z, lev, -1, k);
    }
  }

  /** A free block is taken off its list by __alloc_pages. */
  lemma {:induction false} PickFree(z: Zone, lev: Tiling, p: nat)
    requires Inv(z, lev, -1) && InZone(z, p) && FreeHead(z, lev, -1, p)
    ensures lev[p] <= MAX_BUDDY_ORDER && Inv(Unlist(z, lev[p], p), lev, p)
  {
    var z' := Unlist(z, lev[p], p);
    assert forall q: nat :: FreeHead(z', lev, p, q) <==> FreeHead(z, lev, -1, q) && q != p;
    forall k: nat | k <= MAX_BUDDY_ORDER
      ensures ListOk(z', lev, p, k)
    {
      assert ListOk(z, lev, -1, k);
      RemoveNoDup(z.lists[k], p);
    }
  }

  /** One round of the coalescing loop. */
  lemma {:induction false} MergeInv(z: Zone, lev: Tiling, p: nat, k: nat)
    requires Inv(z, lev, p) && InZone(z, p) && IsHead(lev, p) && lev[p] == k && k < MAX_BUDDY_ORDER
    requires Buddy(p, k) < |lev| && FreeHead(z, lev, p, Buddy(p, k)) && lev[Buddy(p, k)] == k
    ensures And(p, Buddy(p, k)) == Base(p, k + 1)
    ensures var a := Base(p, k + 1); var lev' := Relevel(lev, a, k + 1, k + 1);
            InZone(z, a) && Inv(Unlist(z, k, Buddy(p, k)), lev', a) && IsHead(lev', a) && lev'[a] == k + 1
  {
    MergeShape(z, lev, p, k);
    MergeLists(z, lev, p, k);
  }

  lemma {:induction false} MergeShape(z: Zone, lev: Tiling, p: nat, k: nat)
    requires ZoneShape(z) && Tiled(z, lev) && InZone(z, p) && IsHead(lev, p) && lev[p] == k && k < MAX_BUDDY_ORDER
    requires Buddy(p, k) < |lev| && lev[Buddy(p, k)] == k
    ensures And(p, Buddy(p, k)) == Base(p, k + 1)
    ensures var a := Base(p, k + 1); var lev' := Relevel(lev, a, k + 1, k + 1);
            InZone(z, a) && a < |lev| && Tiled(Unlist(z, k, Buddy(p, k)), lev') && IsHead(lev', a) && lev'[a] == k + 1
  {
    var a := Base(p, k + 1);
    BuddyIs(p, k);
    BlockInZone(z, p, k + 1);
    BaseNest(p, k + 1, k + 1);
    assert a == p || a == Buddy(p, k);
    BuddyIsHead(z, lev, p, k);
    MergeTiled(z, lev, a, k);
  }

  /** The free blocks after a merge are those before without the buddy. */
  lemma {:induction false} MergeLists(z: Zone, lev: Tiling, p: nat, k: nat)
    requires Inv(z, lev, p) && InZone(z, p) && IsHead(lev, p) && lev[p] == k && k < MAX_BUDDY_ORDER
    requires Buddy(p, k) < |lev| && FreeHead(z, lev, p, Buddy(p, k)) && lev[Buddy(p, k)] == k
    ensures var a := Base(p, k + 1); var lev' := Relevel(lev, a, k + 1, k + 1); var z' := Unlist(z, k, Buddy(p, k));
            ListsOk(z', lev', a) && Coalesced(z', lev', a) && LevelsOk(z', lev', a)
  {
    var b, a := Buddy(p, k), Base(p, k + 1);
    var z', lev' := Unlist(z, k, b), Relevel(lev, a, k + 1, k + 1);
    assert a == p || a == b by { BuddyIs(p, k); }
    MergeHeads(z, lev, p, k);
    assert forall q: nat :: InZone(z, q) && FreeHead(z', lev', a, q) ==>
                              FreeHead(z, lev, p, q) && q != b && lev'[q] == lev[q];
    forall j: nat | j <= MAX_BUDDY_ORDER
      ensures ListOk(z', lev', a, j)
    {
      assert ListOk(z, lev, p, j);
      RemoveNoDup(z.lists[j], b);
    }
    forall q: nat | InZone(z', q) && FreeHead(z', lev', a, q) && lev'[q] < MAX_BUDDY_ORDER
      ensures !FreeTwin(z', lev', a, Buddy(q, lev'[q]), lev'[q])
    {
      assert FreeHead(z, lev, p, q) && lev[q] == lev'[q];
      BuddyIsHead(z, lev, q, lev[q]);
    }
  }

  /** Merging leaves all other heads as they were; inside the merged block only its first page is one. */
  lemma {:induction false} MergeHeads(z: Zone, lev: Tiling, p: nat, k: nat)
    requires ZoneShape(z) && Tiled(z, lev) && InZone(z, p) && IsHead(lev, p) && lev[p] == k && k < MAX_BUDDY_ORDER
    requires Buddy(p, k) < |lev| && lev[Buddy(p, k)] == k
    ensures var a := Base(p, k + 1); var lev' := Relevel(lev, a, k + 1, k + 1);
            forall q: nat :: InZone(z, q) && q < |lev| && q != a ==>
              (IsHead(lev', q) <==> IsHead(lev, q) && q != p && q != Buddy(p, k))
                  && (IsHead(lev', q) ==> lev'[q] == lev[q])
  {
    var b, a := Buddy(p, k), Base(p, k + 1);
    var lev' := Relevel(lev, a, k + 1, k + 1);
    forall q: nat | InZone(z, q) && q < |lev| && q != a
      ensures (IsHead(lev', q) <==> IsHead(lev, q) && q != p && q != b) && (IsHead(lev', q) ==> lev'[q] == lev[q])
    {
      MergeHead(z, lev, p, k, q);
    }
  }

  lemma {:induction false} MergeHead(z: Zone, lev: Tiling, p: nat, k: nat, q: nat)
    requires ZoneShape(z) && Tiled(z, lev) && InZone(z, p) && IsHead(lev, p) && lev[p] == k && k < MAX_BUDDY_ORDER
    requires Buddy(p, k) < |lev| && lev[Buddy(p, k)] == k && InZone(z, q) && q != Base(p, k + 1)
    ensures var lev' := Relevel(lev, Base(p, k + 1), k + 1, k + 1);
            (IsHead(lev', q) <==> IsHead(lev, q) && q != p && q != Buddy(p, k))
                && (IsHead(lev', q) ==> lev'[q] == lev[q])
  {
    BuddyIs(p, k);
    if Base(q, k + 1) == Base(p, k + 1) { MergeLevel(z, lev, p, k, q); }
  }

  /** One round of the splitting loop: the upper half goes to the list of its level. */
  lemma {:induction false} SplitInv(z: Zone, lev: Tiling, p: nat, k: nat)
    requires Inv(z, lev, p) && InZone(z, p) && IsHead(lev, p) && lev[p] == k + 1
    ensures k < MAX_BUDDY_ORDER && Buddy(p, k) == p + Pow2(k) && Buddy(p, k) < |z.pages|
    ensures var b := Buddy(p, k); var lev' := Relevel(lev, p, k + 1, k);
            var z' := Enlist(z.(pages := z.pages[b := z.pages[b].(bplevel := k, used := Free)]), k, b);
            Inv(z', lev', p) && IsHead(lev', p) && lev'[p] == k
  {
    var b := Buddy(p, k);
    SplitShape(z, lev, p, k);
    var z' := Enlist(z.(pages := z.pages[b := z.pages[b].(bplevel := k, used := Free)]), k, b);
    SameTiled(z, z', Relevel(lev, p, k + 1, k));
    SplitLists(z, z', lev, p, k);
  }

  lemma {:induction false} SameTiled(z: Zone, z': Zone, lev: Tiling)
    requires Tiled(z, lev) && z'.start == z.start && z'.num == z.num && |z'.pages| == |z.pages|
    ensures Tiled(z', lev)
  {
    assert forall p: nat :: InZone(z', p) <==> InZone(z, p);
  }

  lemma {:induction false} SplitShape(z: Zone, lev: Tiling, p: nat, k: nat)
    requires ZoneShape(z) && Tiled(z, lev) && InZone(z, p) && IsHead(lev, p) && lev[p] == k + 1
    ensures k < MAX_BUDDY_ORDER && Buddy(p, k) == p + Pow2(k) && Base(p, k) == p && InZone(z, Buddy(p, k))
    ensures var lev' := Relevel(lev, p, k + 1, k);
            Tiled(z, lev') && IsHead(lev', p) && lev'[p] == k
  {
    BaseNest(p, k, k + 1);
    BuddyIs(p, k);
    BlockInZone(z, p, k + 1);
    BaseBounds(p, k);
    BaseBounds(Buddy(p, k), k + 1);
    SplitTiled(z, lev, p, k);
  }

  lemma {:induction false} SplitHeads(z: Zone, lev: Tiling, p: nat, k: nat)
    requires ZoneShape(z) && Tiled(z, lev) && InZone(z, p) && IsHead(lev, p) && lev[p] == k + 1 && k < MAX_BUDDY_ORDER
    ensures var lev' := Relevel(lev, p, k + 1, k);
            && (forall q: nat :: InZone(z, q) && q < |lev| && q != Buddy(p, k) ==>
                  (IsHead(lev', q) <==> IsHead(lev, q)) && (q != p && IsHead(lev, q) ==> lev'[q] == lev[q]))
            && Buddy(p, k) < |lev| && IsHead(lev', Buddy(p, k)) && lev'[Buddy(p, k)] == k && !IsHead(lev, Buddy(p, k))
  {
    var b, lev' := Buddy(p, k), Relevel(lev, p, k + 1, k);
    BaseNest(p, k, k + 1);
    BuddyIs(p, k);
    BlockInZone(z, p, k + 1);
    BaseBounds(b, k + 1);
    SplitTiled(z, lev, p, k);
    forall q: nat | InZone(z, q) && q < |lev| && q != b
      ensures (IsHead(lev', q) <==> IsHead(lev, q)) && (q != p && IsHead(lev, q) ==> lev'[q] == lev[q])
    {
      if Base(q, k + 1) == p { HalfOf(q, p, k); }
    }
  }

  lemma {:induction false} SplitLists(z: Zone, z': Zone, lev: Tiling, p: nat, k: nat)
    requires Inv(z, lev, p) && InZone(z, p) && IsHead(lev, p) && lev[p] == k + 1 && k < MAX_BUDDY_ORDER
    requires InZone(z, Buddy(p, k)) && Buddy(p, k) == p + Pow2(k) && Base(p, k) == p
    requires z' == Enlist(z.(pages := z.pages[Buddy(p, k) := z.pages[Buddy(p, k)].(bplevel := k, used := Free)]),
                          k, Buddy(p, k))
    requires Tiled(z', Relevel(lev, p, k + 1, k))
    ensures var lev' := Relevel(lev, p, k + 1, k);
            ListsOk(z', lev', p) && Coalesced(z', lev', p) && LevelsOk(z', lev', p)
  {
    var b, lev' := Buddy(p, k), Relevel(lev, p, k + 1, k);
    SplitHeads(z, lev, p, k);
    assert forall q: nat :: InZone(z, q) ==> (FreeHead(z', lev', p, q) <==> FreeHead(z, lev, p, q) || q == b);
    assert forall q: nat :: InZone(z, q) && FreeHead(z, lev, p, q) ==> lev'[q] == lev[q];
    forall j: nat | j <= MAX_BUDDY_ORDER
      ensures ListOk(z', lev', p, j)
    {
      assert ListOk(z, lev, p, j);
    }
    forall q: nat | InZone(z', q) && FreeHead(z', lev', p, q) && lev'[q] < MAX_BUDDY_ORDER
      ensures !FreeTwin(z', lev', p, Buddy(q, lev'[q]), lev'[q])
    {
      BuddyIs(q, lev'[q]);
      BuddyIs(p, k);
      if q != b { BuddyIsHead(z, lev, q, lev[q]); }
    }
  }

  /** The end of __free_pages: the block goes to the list of its level. */
  lemma {:induction false} PutInv(z: Zone, lev: Tiling, p: nat)
    requires Inv(z, lev, p) && InZone(z, p) && IsHead(lev, p)
    requires lev[p] < MAX_BUDDY_ORDER ==>
               Buddy(p, lev[p]) < |lev| && !(lev[Buddy(p, lev[p])] == lev[p] && FreeHead(z, lev, p, Buddy(p, lev[p])))
    ensures Inv(Enlist(z.(pages := z.pages[p := z.pages[p].(bplevel := lev[p], used := Free)]), lev[p], p), lev, -1)
  {
    var k := lev[p];
    var z' := Enlist(z.(pages := z.pages[p := z.pages[p].(bplevel := k, used := Free)]), k, p);
    assert forall q: nat :: FreeHead(z', lev, -1, q) <==> FreeHead(z, lev, p, q) || q == p;
    forall j: nat | j <= MAX_BUDDY_ORDER
      ensures ListOk(z', lev, -1, j)
    {
      assert ListOk(z, lev, p, j);
    }
    forall q: nat | InZone(z', q) && FreeHead(z', lev, -1, q) && lev[q] < MAX_BUDDY_ORDER
      ensures !FreeTwin(z', lev, -1, Buddy(q, lev[q]), lev[q])
    {
      BuddyIs(q, lev[q]);
      BuddyIsHead(z, lev, q, lev[q]);
    }
  }

  /** The end of __alloc_pages: the block is handed out. */
  lemma {:induction false} GrantInv(z: Zone, lev: Tiling, p: nat, kind: PageInfo)
    requires Inv(z, lev, p) && InZone(z, p) && IsHead(lev, p) && !kind.Free?
    ensures Inv(z.(pages := z.pages[p := Page(kind, lev[p], 0)]), lev, -1)
  {
    var z' := z.(pages := z.pages[p := Page(kind, lev[p], 0)]);
    assert forall q: nat :: FreeHead(z', lev, -1, q) <==> FreeHead(z, lev, p, q);
    forall j: nat | j <= MAX_BUDDY_ORDER
      ensures ListOk(z', lev, -1, j)
    {
      assert ListOk(z, lev, p, j);
    }
  }

  // ---------------------------------------------------------------- what a step changes

  /** Page `q` is free or part of the block in hand. */
  predicate Open(z: Zone, lev: Tiling, limbo: int, q: nat) {
    q < |lev| && (HeadOf(lev, q) == limbo || FreePage(z, lev, q))
  }

  /** The same pages are open, and the blocks of the other pages and their page structs are untouched. */
  ghost predicate SameRest(z: Zone, lev: Tiling, limbo: int, z': Zone, lev': Tiling, limbo': int) {
    && z'.start == z.start && z'.num == z.num && |z'.pages| == |z.pages| && |lev'| == |lev| && |lev| == |z.pages|
    && (forall q: nat :: InZone(z, q) ==> (Open(z', lev', limbo', q) <==> Open(z, lev, limbo, q)))
    && (forall q: nat :: InZone(z, q) && q < |lev| && !Open(z, lev, limbo, q) ==> KeptBlock(z, lev, z', lev', q))
  }

  predicate KeptBlock(z: Zone, lev: Tiling, z': Zone, lev': Tiling, q: nat) {
    && q < |lev| && q < |lev'| && lev'[q] == lev[q]
    && HeadOf(lev, q) < |z.pages| && HeadOf(lev, q) < |z'.pages| && z'.pages[HeadOf(lev, q)] == z.pages[HeadOf(lev, q)]
  }

  lemma {:induction false} MergeRest(z: Zone, lev: Tiling, p: nat, k: nat)
    requires Inv(z, lev, p) && InZone(z, p) && IsHead(lev, p) && lev[p] == k && k < MAX_BUDDY_ORDER
    requires Buddy(p, k) < |lev| && FreeHead(z, lev, p, Buddy(p, k)) && lev[Buddy(p, k)] == k
    ensures var a := Base(p, k + 1);
            SameRest(z, lev, p, Unlist(z, k, Buddy(p, k)), Relevel(lev, a, k + 1, k + 1), a)
  {
    var a := Base(p, k + 1);
    var z', lev' := Unlist(z, k, Buddy(p, k)), Relevel(lev, a, k + 1, k + 1);
    forall q: nat | InZone(z, q)
      ensures Open(z', lev', a, q) <==> Open(z, lev, p, q)
      ensures !Open(z, lev, p, q) ==> KeptBlock(z, lev, z', lev', q)
    {
      MergeOne(z, lev, p, k, q);
    }
  }

  lemma {:induction false} MergeOne(z: Zone, lev: Tiling, p: nat, k: nat, q: nat)
    requires ZoneShape(z) && Tiled(z, lev) && InZone(z, p) && IsHead(lev, p) && lev[p] == k && k < MAX_BUDDY_ORDER
    requires Buddy(p, k) < |lev| && FreeHead(z, lev, p, Buddy(p, k)) && lev[Buddy(p, k)] == k && InZone(z, q)
    ensures var a := Base(p, k + 1); var z' := Unlist(z, k, Buddy(p, k)); var lev' := Relevel(lev, a, k + 1, k + 1);
            (Open(z', lev', a, q) <==> Open(z, lev, p, q)) && (!Open(z, lev, p, q) ==> KeptBlock(z, lev, z', lev', q))
  {
    if Base(q, k + 1) == Base(p, k + 1) {
      MergeLevel(z, lev, p, k, q);
      BuddyIs(p, k);
    } else {
      forall r: nat | InZone(z, r) && Base(r, k + 1) == Base(p, k + 1)
        ensures lev[r] <= k + 1
      {
        MergeLevel(z, lev, p, k, r);
      }
      OutsideBlock(z, lev, q, Base(p, k + 1), k);
      BuddyIs(p, k);
    }
  }

  /** The pages of the merged block were in one of its halves. */
  lemma {:induction false} MergeLevel(z: Zone, lev: Tiling, p: nat, k: nat, q: nat)
    requires ZoneShape(z) && Tiled(z, lev) && InZone(z, p) && IsHead(lev, p) && lev[p] == k && k < MAX_BUDDY_ORDER
    requires Buddy(p, k) < |lev| && lev[Buddy(p, k)] == k && InZone(z, q) && Base(q, k + 1) == Base(p, k + 1)
    ensures lev[q] == k && (HeadOf(lev, q) == p || HeadOf(lev, q) == Buddy(p, k))
  {
    var a := Base(p, k + 1);
    BuddyIsHead(z, lev, p, k);
    assert Base(q, k) == p || Base(q, k) == Buddy(p, k) by {
      BuddyIs(p, k);
      HalfOf(q, a, k);
      BuddyIs(a, k) by { BaseNest(p, k, k + 1); }
    }
    InBlock(z, lev, q, Base(q, k), k);
  }

  lemma {:induction false} SplitRest(z: Zone, lev: Tiling, p: nat, k: nat)
    requires Inv(z, lev, p) && InZone(z, p) && IsHead(lev, p) && lev[p] == k + 1 && k < MAX_BUDDY_ORDER
    requires Buddy(p, k) < |z.pages|
    ensures var b := Buddy(p, k);
            var z' := Enlist(z.(pages := z.pages[b := z.pages[b].(bplevel := k, used := Free)]), k, b);
            SameRest(z, lev, p, z', Relevel(lev, p, k + 1, k), p)
  {
    var b, lev' := Buddy(p, k), Relevel(lev, p, k + 1, k);
    var z' := Enlist(z.(pages := z.pages[b := z.pages[b].(bplevel := k, used := Free)]), k, b);
    forall q: nat | InZone(z, q)
      ensures Open(z', lev', p, q) <==> Open(z, lev, p, q)
      ensures !Open(z, lev, p, q) ==> KeptBlock(z, lev, z', lev', q)
    {
      SplitOne(z, lev, p, k, q);
    }
  }

  lemma {:induction false} SplitOne(z: Zone, lev: Tiling, p: nat, k: nat, q: nat)
    requires ZoneShape(z) && Tiled(z, lev) && InZone(z, p) && IsHead(lev, p) && lev[p] == k + 1 && k < MAX_BUDDY_ORDER
    requires Buddy(p, k) < |z.pages| && InZone(z, q)
    ensures var b := Buddy(p, k); var lev' := Relevel(lev, p, k + 1, k);
            var z' := Enlist(z.(pages := z.pages[b := z.pages[b].(bplevel := k, used := Free)]), k, b);
            (Open(z', lev', p, q) <==> Open(z, lev, p, q)) && (!Open(z, lev, p, q) ==> KeptBlock(z, lev, z', lev', q))
  {
    SplitShape(z, lev, p, k);
    if Base(q, k + 1) == p {
      HalfOf(q, p, k);
      InBlock(z, lev, q, p, k + 1);
    } else {
      forall r: nat | InZone(z, r) && Base(r, k + 1) == p
        ensures lev[r] <= k + 1
      {
        InBlock(z, lev, r, p, k + 1);
      }
      OutsideBlock(z, lev, q, p, k);
      BuddyIs(p, k);
    }
  }

  /** A page in the range of a block has the level of that block. */
  lemma {:induction false} InBlock(z: Zone, lev: Tiling, q: nat, p: nat, k: nat)
    requires ZoneShape(z) && Tiled(z, lev) && InZone(z, q) && Base(q, k) == p && p < |lev| && lev[p] == k
    requires InZone(z, p)
    ensures lev[q] == k && HeadOf(lev, q) == p
  {
    BaseNest(q, k, k);
  }

  /** The head of a page outside a block of level `k + 1` lies outside it, when that block has level `k`
      or `k + 1` throughout. */
  lemma {:induction false} OutsideBlock(z: Zone, lev: Tiling, q: nat, a: nat, k: nat)
    requires ZoneShape(z) && Tiled(z, lev) && InZone(z, q) && k < MAX_BUDDY_ORDER && Base(q, k + 1) != a
    requires forall r: nat :: InZone(z, r) && Base(r, k + 1) == a ==> r < |lev| && lev[r] <= k + 1
    ensures InZone(z, HeadOf(lev, q)) && Base(HeadOf(lev, q), k + 1) != a
  {
    var j, h := lev[q], HeadOf(lev, q);
    BlockInZone(z, q, j);
    BaseNest(q, j, j);
    BaseBounds(q, j);
    assert lev[h] == j;
    if j <= k + 1 {
      BaseNest(q, j, k + 1);
    }
  }

  lemma {:induction false} RestRefl(z: Zone, lev: Tiling, limbo: int)
    requires |lev| == |z.pages| && ZoneShape(z) && Tiled(z, lev)
    ensures SameRest(z, lev, limbo, z, lev, limbo)
  {
    forall q: nat | InZone(z, q) && q < |lev| && !Open(z, lev, limbo, q)
      ensures KeptBlock(z, lev, z, lev, q)
    {
      BaseBounds(q, lev[q]);
    }
  }

  lemma {:induction false} RestTrans(z: Zone, lev: Tiling, limbo: int, z1: Zone, lev1: Tiling, limbo1: int, z2: Zone,
                                     lev2: Tiling, limbo2: int)
    requires SameRest(z, lev, limbo, z1, lev1, limbo1) && SameRest(z1, lev1, limbo1, z2, lev2, limbo2)
    ensures SameRest(z, lev, limbo, z2, lev2, limbo2)
  {
    forall q: nat | InZone(z, q) && q < |lev| && !Open(z, lev, limbo, q)
      ensures KeptBlock(z, lev, z2, lev2, q)
    {
      assert KeptBlock(z, lev, z1, lev1, q) && !Open(z1, lev1, limbo1, q);
      assert KeptBlock(z1, lev1, z2, lev2, q);
    }
  }

  /** The block at `p` was freed: its pages are free now, and nothing else about free and allocated pages
      changed. */
  ghost predicate Freed(z: Zone, lev: Tiling, p: nat, z': Zone, lev': Tiling) {
    SameRest(z, lev, p, z', lev', -1)
  }

  /** The block at `p` of level `k` was free and is allocated now, with page struct Page(kind, k, 0); the
      other free and allocated pages are as before. */
  ghost predicate Granted(z: Zone, lev: Tiling, p: nat, k: nat, kind: PageInfo, z': Zone, lev': Tiling) {
    && InZone(z, p) && p < |z'.pages| && IsHead(lev', p) && lev'[p] == k && z'.pages[p] == Page(kind, k, 0)
    && (forall q: nat :: InZone(z, q) && Base(q, k) == p ==> FreePage(z, lev, q))
    && SameRest(z, lev, -1, z', lev', p)
  }

  /** The last step of __free_pages on top of the loop. */
  lemma {:induction false} PutRest(z0: Zone, lev0: Tiling, p0: nat, z: Zone, lev: Tiling, p: nat)
    requires SameRest(z0, lev0, p0, z, lev, p) && Inv(z, lev, p) && InZone(z, p) && IsHead(lev, p)
    ensures Freed(z0, lev0, p0, Enlist(z.(pages := z.pages[p := z.pages[p].(bplevel := lev[p], used := Free)]),
        lev[p], p), lev)
  {
    var z' := Enlist(z.(pages := z.pages[p := z.pages[p].(bplevel := lev[p], used := Free)]), lev[p], p);
    assert forall q: nat :: InZone(z, q) ==> (Open(z', lev, -1, q) <==> Open(z, lev, p, q));
    forall q: nat | InZone(z, q) && q < |lev| && !Open(z, lev, p, q)
      ensures KeptBlock(z, lev, z', lev, q)
    {
      BaseBounds(q, lev[q]);
    }
    RestTrans(z0, lev0, p0, z, lev, p, z', lev, -1);
  }

  /** The last step of __alloc_pages on top of the loop. */
  lemma {:induction false} GrantRest(z0: Zone, lev0: Tiling, z: Zone, lev: Tiling, p: nat, kind: PageInfo)
    requires SameRest(z0, lev0, -1, z, lev, p) && Inv(z, lev, p) && InZone(z, p) && IsHead(lev, p) && !kind.Free?
    ensures Granted(z0, lev0, p, lev[p], kind, z.(pages := z.pages[p := Page(kind, lev[p], 0)]), lev)
  {
    var k := lev[p];
    var z' := z.(pages := z.pages[p := Page(kind, k, 0)]);
    forall q: nat | InZone(z, q) && q < |lev|
      ensures Open(z', lev, p, q) <==> Open(z, lev, p, q)
      ensures !Open(z, lev, p, q) ==> KeptBlock(z, lev, z', lev, q)
    {
      BaseBounds(q, lev[q]);
    }
    RestTrans(z0, lev0, -1, z, lev, p, z', lev, p);
    forall q: nat | InZone(z0, q) && Base(q, k) == p
      ensures FreePage(z0, lev0, q)
    {
      InBlock(z, lev, q, p, k);
      assert Open(z, lev, p, q);
      assert Open(z0, lev0, -1, q);
    }
  }

  /** Page `q` heads the same allocated block before and after, or none. */
  predicate HeadSame(z: Zone, lev: Tiling, z': Zone, lev': Tiling, q: nat) {
    && q < |z.pages| && q < |z'.pages| && q < |lev| && q < |lev'|
    && (IsHead(lev, q) && !z.pages[q].used.Free? ==> IsHead(lev', q) && lev'[q] == lev[q] && z'.pages[q] == z.pages[q])
    && (IsHead(lev', q) && !z'.pages[q].used.Free? ==> IsHead(lev, q) && lev'[q] == lev[q] && z'.pages[q] == z.pages[q])
  }

  ghost predicate HeadsSameBut(z: Zone, lev: Tiling, z': Zone, lev': Tiling, p: nat) {
    && z'.start == z.start && z'.num == z.num && |z'.pages| == |z.pages| && |lev'| == |lev|
    && forall q: nat :: InZone(z, q) && q != p ==> HeadSame(z, lev, z', lev', q)
  }

  /** A buddy operation on the block at `p` leaves the heads of all other allocated blocks alone. */
  lemma {:induction false} HeadsKept(z: Zone, lev: Tiling, l: int, z': Zone, lev': Tiling, l': int, p: nat)
    requires Inv(z, lev, -1) && Inv(z', lev', -1) && SameRest(z, lev, l, z', lev', l')
    requires (l == -1 || l == p) && (l' == -1 || l' == p)
    ensures HeadsSameBut(z, lev, z', lev', p)
  {
    forall q: nat | InZone(z, q) && q != p
      ensures HeadSame(z, lev, z', lev', q)
    {
      if IsHead(lev, q) && !z.pages[q].used.Free? {
        assert !Open(z, lev, l, q);
        assert KeptBlock(z, lev, z', lev', q);
      }
      if IsHead(lev', q) && !z'.pages[q].used.Free? {
        assert !Open(z', lev', l', q);
        assert !Open(z, lev, l, q);
        assert KeptBlock(z, lev, z', lev', q);
      }
    }
  }

  /** When the list of every level from `k` up is empty, there is no free aligned run of 2^k pages; and
      when one of them is not, there is. */
  lemma {:induction false} ListsDecide(z: Zone, lev: Tiling, k: nat)
    requires Inv(z, lev, -1) && k <= MAX_BUDDY_ORDER
    ensures (forall j: nat :: k <= j <= MAX_BUDDY_ORDER ==> z.lists[j] == []) <==> !exists a: nat :: FreeRun(z, lev,
        a, k)
  {
    if exists a: nat :: FreeRun(z, lev, a, k) {
      var a: nat :| FreeRun(z, lev, a, k);
      RunInOneBlock(z, lev, a, k);
      BaseBounds(a, k);
      var j, h := lev[a], HeadOf(lev, a);
      BlockInZone(z, a, j);
      BaseNest(a, j, j);
      assert FreePage(z, lev, a);
      SameBlock(z, lev, a, h);
      assert FreeHead(z, lev, -1, h);
      assert ListOk(z, lev, -1, j);
      assert h in z.lists[j];
    }
    if j: nat :| k <= j <= MAX_BUDDY_ORDER && z.lists[j] != [] {
      var p := z.lists[j][0];
      assert ListOk(z, lev, -1, j);
      assert p in z.lists[j];
      BlockInZone(z, p, j);
      BaseNest(p, k, j);
      Pow2Monotone(k, j);
      forall q: nat | p <= q < p + Pow2(k)
        ensures InZone(z, q) && FreePage(z, lev, q)
      {
        BaseSame(p, q, j);
      }
      assert FreeRun(z, lev, p, k);
    }
  }

  lemma {:induction false} PickRest(z: Zone, lev: Tiling, p: nat)
    requires Inv(z, lev, -1) && InZone(z, p) && FreeHead(z, lev, -1, p)
    ensures SameRest(z, lev, -1, Unlist(z, lev[p], p), lev, p)
  {
    RestRefl(z, lev, -1);
  }

  /** The free pages of the zone. */
  function FreeSet(z: Zone, lev: Tiling): set<nat> {
    set q: nat | z.start <= q < z.start + z.num && FreePage(z, lev, q)
  }

  /** Freeing a block gives back exactly its pages. */
  lemma {:induction false} FreeGives(z: Zone, lev: Tiling, p: nat, z': Zone, lev': Tiling)
    requires Inv(z, lev, -1) && InZone(z, p) && IsHead(lev, p) && Inv(z', lev', -1) && Freed(z, lev, p, z', lev')
    ensures forall q: nat :: q in FreeSet(z', lev') <==> q in FreeSet(z, lev) || (InZone(z, q) && Base(q, lev[p]) == p)
  {
    forall q: nat
      ensures q in FreeSet(z', lev') <==> q in FreeSet(z, lev) || (InZone(z, q) && Base(q, lev[p]) == p)
    {
      if InZone(z, q) {
        assert Open(z', lev', -1, q) <==> Open(z, lev, p, q);
        if Base(q, lev[p]) == p { InBlock(z, lev, q, p, lev[p]); }
        if HeadOf(lev, q) == p {
          BaseNest(q, lev[q], lev[q]);
          SameBlock(z, lev, q, p);
        }
      }
    }
  }

  /** An allocation uses up exactly the pages of its block. */
  lemma {:induction false} GrantTakes(z: Zone, lev: Tiling, p: nat, k: nat, kind: PageInfo, z': Zone, lev': Tiling)
    requires Inv(z', lev', -1) && Granted(z, lev, p, k, kind, z', lev') && !kind.Free?
    ensures forall q: nat :: q in FreeSet(z', lev') <==> q in FreeSet(z, lev) && Base(q, k) != p
    ensures |FreeSet(z', lev')| < |FreeSet(z, lev)|
  {
    forall q: nat
      ensures q in FreeSet(z', lev') <==> q in FreeSet(z, lev) && Base(q, k) != p
    {
      if InZone(z, q) {
        assert Open(z', lev', p, q) <==> Open(z, lev, -1, q);
        if Base(q, k) == p { InBlock(z', lev', q, p, k); }
        if HeadOf(lev', q) == p {
          BaseNest(q, lev'[q], lev'[q]);
          SameBlock(z', lev', q, p);
        }
      }
    }
    assert p in FreeSet(z, lev) && p !in FreeSet(z', lev');
    SmallerSet(FreeSet(z', lev'), FreeSet(z, lev));
  }

  lemma {:induction false} SmallerSet(a: set<nat>, b: set<nat>)
    requires a < b
    ensures |a| < |b|
  {
    var y :| y in b && y !in a;
    SubsetSize(a, b - {y});
  }

  lemma {:induction false} SubsetSize(a: set<nat>, b: set<nat>)
    requires a <= b
    ensures |a| <= |b|
  {
    if x :| x in a { SubsetSize(a - {x}, b - {x}); }
  }

  // ---------------------------------------------------------------- a zone with no allocated page

  lemma {:induction false} MultipleBase(a: nat)
    ensures Base(16 * a, MAX_BUDDY_ORDER) == 16 * a && Aligned(16 * a)
  {
    assert Base(16 * a, 4) == 2 * Base(8 * a, 3);
    assert Base(8 * a, 3) == 2 * Base(4 * a, 2);
    assert Base(4 * a, 2) == 2 * Base(2 * a, 1);
    assert Base(2 * a, 1) == 2 * Base(a, 0);
    forall k: nat | k <= MAX_BUDDY_ORDER
      ensures Base(16 * a, k) == 16 * a
    {
      BaseNest(16 * a, k, MAX_BUDDY_ORDER);
    }
  }

  /** When every page is free, every block has the largest order. */
  lemma {:induction false} AllFreeLevels(z: Zone, lev: Tiling, p: nat)
    requires Inv(z, lev, -1) && (forall q: nat :: InZone(z, q) ==> FreePage(z, lev, q)) && InZone(z, p)
    ensures p < |lev| && lev[p] == MAX_BUDDY_ORDER
  {
    var a := Base(p, MAX_BUDDY_ORDER);
    BlockInZone(z, p, MAX_BUDDY_ORDER);
    BaseNest(p, MAX_BUDDY_ORDER, MAX_BUDDY_ORDER);
    BaseBounds(a, MAX_BUDDY_ORDER);
    assert FreeRun(z, lev, a, MAX_BUDDY_ORDER);
    RunInOneBlock(z, lev, a, MAX_BUDDY_ORDER);
  }

  /** The number of distinct multiples of 16 between 16 * lo and 16 * (lo + n). */
  lemma {:induction false} CountHeads(s: seq<nat>, lo: nat, n: nat)
    requires NoDup(s) && forall p: nat :: p in s <==> exists i: nat :: lo <= i < lo + n && p == 16 * i
    ensures |s| == n
    decreases n
  {
    if n == 0 {
      if s != [] {
        var p := SomeMember(s);
        assert false;
      }
    } else {
      var last := 16 * (lo + n - 1);
      assert last in s;
      var t := Remove(s, last);
      RemoveNoDup(s, last);
      RemoveLength(s, last);
      forall p: nat
        ensures p in t <==> exists i: nat :: lo <= i < lo + (n - 1) && p == 16 * i
      {
      }
      CountHeads(t, lo, n - 1);
    }
  }

  lemma SomeMember(s: seq<nat>) returns (p: nat)
    requires s != []
    ensures p in s
  {
    p := s[0];
  }

  /** All pages free: num / 16 blocks of order 4 and no other free block. */
  lemma {:induction false} AllFreeLists(z: Zone, lev: Tiling, lo: nat, n: nat)
    requires Inv(z, lev, -1) && z.start == 16 * lo && z.num == 16 * n
    requires forall q: nat :: InZone(z, q) ==> FreePage(z, lev, q)
    ensures |z.lists[MAX_BUDDY_ORDER]| == n
    ensures forall k: nat :: k < MAX_BUDDY_ORDER ==> z.lists[k] == []
  {
    forall k: nat | k < MAX_BUDDY_ORDER
      ensures z.lists[k] == []
    {
      assert ListOk(z, lev, -1, k);
      if z.lists[k] != [] {
        assert z.lists[k][0] in z.lists[k];
        AllFreeLevels(z, lev, z.lists[k][0]);
      }
    }
    var s := z.lists[MAX_BUDDY_ORDER];
    assert ListOk(z, lev, -1, MAX_BUDDY_ORDER);
    forall p: nat
      ensures p in s <==> exists i: nat :: lo <= i < lo + n && p == 16 * i
    {
      if p in s {
        var m := BaseMultiple(p, MAX_BUDDY_ORDER);
        assert Pow2(4) == 16;
        assert p == 16 * m;
      }
      if i: nat :| lo <= i < lo + n && p == 16 * i {
        MultipleBase(i);
        AllFreeLevels(z, lev, p);
        assert FreePage(z, lev, p);
      }
    }
    CountHeads(s, lo, n);
  }

  // ---------------------------------------------------------------- sizes and orders

  const PAGE_SIZE: nat := 4096

  /** upper_align(size, PAGE_SIZE) >> PAGE_SHIFT in 32-bit unsigned arithmetic. */
  function PageCount(size: nat): nat {
    (size + (PAGE_SIZE - 1)) % UINT_RANGE / PAGE_SIZE
  }

  /** `k` is the lowest order whose blocks have at least `count` pages. */
  predicate IsOrder(k: nat, count: nat) {
    Pow2(k) >= count && (k > 0 ==> Pow2(k - 1) < count)
  }

  /** The block alloc_pages asks for is as large as the request exactly up to 0xFFFFF000 bytes; above that
      the rounding wraps around to zero pages and a single page is asked for. */
  lemma OrderCovers(size: nat, k: nat)
    requires size < UINT_RANGE && IsOrder(k, PageCount(size))
    ensures Pow2(k) * PAGE_SIZE >= size <==> size <= 0xFFFF_F000
    ensures size <= 0xFFFF_F000 && k > 0 ==> Pow2(k - 1) * PAGE_SIZE < size
    ensures size > 0xFFFF_F000 ==> k == 0
  {
    if size <= 0xFFFF_F000 {
      assert PageCount(size) == (size + (PAGE_SIZE - 1)) / PAGE_SIZE;
      assert size <= PageCount(size) * PAGE_SIZE < size + PAGE_SIZE;
      assert Pow2(k) * PAGE_SIZE >= PageCount(size) * PAGE_SIZE;
      if k > 0 { assert (Pow2(k - 1) + 1) * PAGE_SIZE <= PageCount(size) * PAGE_SIZE; }
    } else {
      assert PageCount(size) == 0;
    }
  }

  // ---------------------------------------------------------------- the allocator

  /** What coalescing the block at `p` from level `k` up to `top` does to the lists: on each level below `top` the
      buddy leaves. */
  ghost predicate Merged(lists: seq<seq<nat>>, p: nat, k: nat, top: nat, lists': seq<seq<nat>>) {
    && |lists'| == |lists|
    && forall j: nat :: j < |lists| ==>
         lists'[j] == if k <= j < top then Remove(lists[j], Buddy(Base(p, j), j)) else lists[j]
  }

  /** What cutting the last block of list `i` down to level `k` does to the lists: its upper halves go to the lists
      below. */
  ghost predicate Cut(lists: seq<seq<nat>>, k: nat, i: nat, p: nat, lists': seq<seq<nat>>) {
    |lists'| == |lists| && forall j: nat :: CutAt(lists, k, i, p, lists', j)
  }

  predicate CutAt(lists: seq<seq<nat>>, k: nat, i: nat, p: nat, lists': seq<seq<nat>>, j: nat) {
    j < |lists| && j < |lists'| ==>
      lists'[j] == if j == i && lists[j] != [] then lists[j][..|lists[j]| - 1]
                   else if k <= j < i then lists[j] + [p + Pow2(j)]
                   else lists[j]
  }

  lemma {:induction false} MergedStep(lists: seq<seq<nat>>, p: nat, k: nat, top: nat, lists': seq<seq<nat>>)
    requires Merged(lists, p, k, top, lists') && k <= top < |lists|
    ensures Merged(lists, p, k, top + 1, lists'[top := Remove(lists'[top], Buddy(Base(p, top), top))])
    ensures Base(Base(p, top), top + 1) == Base(p, top + 1)
  {
    BaseNest(p, top, top + 1);
  }

  lemma {:induction false} CutStep(lists: seq<seq<nat>>, k: nat, i: nat, p: nat, lists': seq<seq<nat>>)
    requires Cut(lists, k + 1, i, p, lists') && k < i < |lists|
    ensures Cut(lists, k, i, p, lists'[k := lists'[k] + [p + Pow2(k)]])
  {
    var cut := lists'[k := lists'[k] + [p + Pow2(k)]];
    forall j: nat
      ensures CutAt(lists, k, i, p, cut, j)
    {
      assert CutAt(lists, k + 1, i, p, lists', j);
    }
  }

  lemma {:induction false} CutStart(lists: seq<seq<nat>>, i: nat, p: nat)
    requires i < |lists| && lists[i] != [] && NoDup(lists[i]) && p == lists[i][|lists[i]| - 1]
    ensures Cut(lists, i, i, p, lists[i := Remove(lists[i], p)])
  {
    RemoveLast(lists[i]);
    var cut := lists[i := Remove(lists[i], p)];
    assert forall j: nat :: CutAt(lists, i, i, p, cut, j);
  }

  /** When the lists in between were empty. */
  lemma {:induction false} CutLowest(lists: seq<seq<nat>>, k: nat, i: nat, p: nat, lists': seq<seq<nat>>)
    requires Cut(lists, k, i, p, lists') && k <= i < |lists| && lists[i] != []
    requires forall m: nat :: k <= m < i ==> lists[m] == []
    ensures lists'[i] == lists[i][..|lists[i]| - 1] && forall j: nat :: k <= j < i ==> lists'[j] == [p + Pow2(j)]
    ensures forall j: nat | j < |lists| ::
              j < k || (exists m: nat :: k <= m < j && lists[m] != []) ==> lists'[j] == lists[j]
  {
    assert CutAt(lists, k, i, p, lists', i);
    forall j: nat | k <= j < i
      ensures lists'[j] == [p + Pow2(j)]
    {
      assert CutAt(lists, k, i, p, lists', j);
    }
    forall j: nat | j < |lists| && (j < k || exists m: nat :: k <= m < j && lists[m] != [])
      ensures lists'[j] == lists[j]
    {
      assert CutAt(lists, k, i, p, lists', j);
    }
  }

  class BuddyZone {
    const start: nat
    const num: nat
    var pages: seq<Page>
    var lists: seq<seq<nat>>
    ghost var lev: Tiling

    function Z(): Zone
      reads this
    {
      Zone(start, num, pages, lists)
    }

    ghost predicate Valid()
      reads this
    {
      Inv(Z(), lev, -1)
    }

    /** __free_pages. A page outside the zone is refused, and so is the head of a block that is already
        free; the head of an allocated block is freed and its block merged as far as possible. */
    method FreePages(p: nat)
      requires Valid() && p < |pages| && (InZone(Z(), p) ==> IsHead(lev, p))
      modifies this
      ensures Valid()
      ensures !InZone(Z(), p) || old(pages)[p].used.Free? ==> Z() == old(Z()) && lev == old(lev)
      ensures InZone(Z(), p) && !old(pages)[p].used.Free? ==> Freed(old(Z()), old(lev), p, Z(), lev)
      ensures InZone(Z(), p) && !old(pages)[p].used.Free? ==>
                exists top: nat :: old(lev)[p] <= top <= MAX_BUDDY_ORDER
                  && Merged(old(lists), p, old(lev)[p], top, lists[top := old(lists)[top]])
                  && lists[top] == old(lists)[top] + [Base(p, top)]
    {
      if !(start <= p < start + num) { return; }
      if pages[p].used.Free? { return; }
      var pgn, level := Coalesce(p);
      PutInv(Z(), lev, pgn);
      PutRest(old(Z()), old(lev), p, Z(), lev, pgn);
      ghost var lists1 := lists;
      pages := pages[pgn := pages[pgn].(bplevel := level, used := Free)];
      lists := lists[level := lists[level] + [pgn]];
      assert lists[level := old(lists)[level]] == lists1;
    }

    /** The coalescing loop: the allocated block at `p` grows by its buddy as long as that is free; `pgn` is its
        first page then. */
    method Coalesce(p: nat) returns (pgn: nat, level: nat)
      requires Valid() && InZone(Z(), p) && p < |pages| && IsHead(lev, p) && !pages[p].used.Free?
      modifies this
      ensures Inv(Z(), lev, pgn) && InZone(Z(), pgn) && IsHead(lev, pgn) && lev[pgn] == level
      ensures SameRest(old(Z()), old(lev), p, Z(), lev, pgn)
      ensures level < MAX_BUDDY_ORDER ==>
                && Buddy(pgn, level) < |lev|
                && !(FreeHead(Z(), lev, pgn, Buddy(pgn, level)) && lev[Buddy(pgn, level)] == level)
      ensures old(lev)[p] <= level <= MAX_BUDDY_ORDER && pgn == Base(p, level)
      ensures Merged(old(lists), p, old(lev)[p], level, lists)
    {
      level := pages[p].bplevel;
      PickAllocated(Z(), lev, p);
      RestRefl(Z(), lev, p);
      pgn := p;
      while level < MAX_BUDDY_ORDER
        invariant Inv(Z(), lev, pgn) && InZone(Z(), pgn) && IsHead(lev, pgn) && lev[pgn] == level
        invariant SameRest(old(Z()), old(lev), p, Z(), lev, pgn)
        invariant old(lev)[p] <= level <= MAX_BUDDY_ORDER && pgn == Base(p, level)
        invariant Merged(old(lists), p, old(lev)[p], level, lists)
        decreases MAX_BUDDY_ORDER - level
      {
        var buddy := Xor(pgn, Pow2(level));
        BuddyIsHead(Z(), lev, pgn, level);
        if level != pages[buddy].bplevel || !pages[buddy].used.Free? { break; }
        ghost var z1, lev1, was := Z(), lev, pgn;
        MergedStep(old(lists), p, old(lev)[p], level, lists);
        pgn := MergeOnce(pgn, level, buddy);
        RestTrans(old(Z()), old(lev), p, z1, lev1, was, Z(), lev, pgn);
        level := level + 1;
      }
      if level < MAX_BUDDY_ORDER { BuddyIsHead(Z(), lev, pgn, level); }
    }

    /** One round of it. */
    method MergeOnce(pgn: nat, level: nat, buddy: nat) returns (head: nat)
      requires Inv(Z(), lev, pgn) && InZone(Z(), pgn) && IsHead(lev, pgn) && lev[pgn] == level < MAX_BUDDY_ORDER
      requires buddy == Buddy(pgn, level) < |lev| && FreeHead(Z(), lev, pgn, buddy) && lev[buddy] == level
      modifies this
      ensures Inv(Z(), lev, head) && InZone(Z(), head) && IsHead(lev, head) && lev[head] == level + 1
      ensures SameRest(old(Z()), old(lev), pgn, Z(), lev, head) && head == Base(pgn, level + 1)
      ensures level < |old(lists)| && lists == old(lists)[level := Remove(old(lists)[level], buddy)]
    {
      MergeInv(Z(), lev, pgn, level);
      MergeRest(Z(), lev, pgn, level);
      lists := lists[level := Remove(lists[level], buddy)];
      lev := Relevel(lev, Base(pgn, level + 1), level + 1, level + 1);
      head := And(pgn, buddy);
    }

    /** __alloc_pages: NULL exactly when the level is not legal or no free aligned run of 2^bplevel pages
        exists; otherwise the head of such a run, which becomes a block of its own. */
    method AllocPages(bplevel: nat, kind: PageInfo) returns (ret: Option<nat>)
      requires Valid() && !kind.Free?
      modifies this
      ensures Valid()
      ensures ret.None? <==> bplevel > MAX_BUDDY_ORDER || !exists a: nat :: FreeRun(old(Z()), old(lev), a, bplevel)
      ensures ret.None? ==> Z() == old(Z()) && lev == old(lev)
      ensures ret.Some? ==> Granted(old(Z()), old(lev), ret.value, bplevel, kind, Z(), lev)
      ensures forall j: nat | j <= MAX_BUDDY_ORDER ::
                j < bplevel || (exists m: nat :: bplevel <= m < j && old(lists)[m] != []) ==> lists[j] == old(lists)[j]
      ensures ret.Some? ==> exists i: nat | bplevel <= i <= MAX_BUDDY_ORDER ::
                && old(lists)[i] != [] && (forall m: nat :: bplevel <= m < i ==> old(lists)[m] == [])
                && ret.value == old(lists)[i][|old(lists)[i]| - 1] && lists[i] == old(lists)[i][..|old(lists)[i]| - 1]
                && forall j: nat :: bplevel <= j < i ==> lists[j] == [ret.value + Pow2(j)]
    {
      if bplevel > MAX_BUDDY_ORDER { return None; }
      var i := LowestList(bplevel);
      if i > MAX_BUDDY_ORDER { return None; }
      var p := TakeAs(bplevel, i, kind);
      CutLowest(old(lists), bplevel, i, p, lists);
      ret := Some(p);
    }

    /** The search of __alloc_pages: the lowest level from `bplevel` on with a free block. */
    method LowestList(bplevel: nat) returns (i: nat)
      requires Valid() && bplevel <= MAX_BUDDY_ORDER
      ensures bplevel <= i <= MAX_BUDDY_ORDER + 1 && forall j: nat :: bplevel <= j < i ==> lists[j] == []
      ensures i <= MAX_BUDDY_ORDER ==> lists[i] != []
      ensures i <= MAX_BUDDY_ORDER <==> exists a: nat :: FreeRun(Z(), lev, a, bplevel)
    {
      i := bplevel;
      while i <= MAX_BUDDY_ORDER && lists[i] == []
        invariant bplevel <= i <= MAX_BUDDY_ORDER + 1 && forall j: nat :: bplevel <= j < i ==> lists[j] == []
      {
        i := i + 1;
      }
      ListsDecide(Z(), lev, bplevel);
    }

    /** The block that list `i` gives, as an allocated one. */
    method TakeAs(bplevel: nat, i: nat, kind: PageInfo) returns (p: nat)
      requires Valid() && !kind.Free? && bplevel <= i <= MAX_BUDDY_ORDER && lists[i] != []
      modifies this
      ensures Valid() && Granted(old(Z()), old(lev), p, bplevel, kind, Z(), lev)
      ensures p == old(lists)[i][|old(lists)[i]| - 1]
      ensures Cut(old(lists), bplevel, i, p, lists)
    {
      p := TakeBlock(bplevel, i);
      GrantInv(Z(), lev, p, kind);
      GrantRest(old(Z()), old(lev), Z(), lev, p, kind);
      pages := pages[p := Page(kind, bplevel, 0)];
    }

    /** The splitting loop: the last block of list `i` shrinks to level `bplevel`, its upper halves go back. */
    method TakeBlock(bplevel: nat, i: nat) returns (p: nat)
      requires Valid() && bplevel <= i <= MAX_BUDDY_ORDER && lists[i] != []
      modifies this
      ensures Inv(Z(), lev, p) && InZone(Z(), p) && IsHead(lev, p) && lev[p] == bplevel
      ensures SameRest(old(Z()), old(lev), -1, Z(), lev, p)
      ensures p == old(lists)[i][|old(lists)[i]| - 1]
      ensures Cut(old(lists), bplevel, i, p, lists)
    {
      var level: nat := i;
      p := TakeLast(i);
      while level > bplevel
        invariant Cut(old(lists), level, i, p, lists)
        invariant bplevel <= level && Inv(Z(), lev, p) && InZone(Z(), p) && IsHead(lev, p) && lev[p] == level
        invariant SameRest(old(Z()), old(lev), -1, Z(), lev, p)
        decreases level
      {
        level := level - 1;
        ghost var z1, lev1 := Z(), lev;
        CutStep(old(lists), level, i, p, lists);
        SplitOnce(p, level);
        RestTrans(old(Z()), old(lev), -1, z1, lev1, p, Z(), lev, p);
      }
    }

    /** The last block of list `i` leaves it. */
    method TakeLast(i: nat) returns (p: nat)
      requires Valid() && i <= MAX_BUDDY_ORDER && lists[i] != []
      modifies this
      ensures Inv(Z(), lev, p) && InZone(Z(), p) && IsHead(lev, p) && lev[p] == i
      ensures SameRest(old(Z()), old(lev), -1, Z(), lev, p)
      ensures p == old(lists)[i][|old(lists)[i]| - 1] && Cut(old(lists), i, i, p, lists)
    {
      p := lists[i][|lists[i]| - 1];
      assert ListOk(Z(), lev, -1, i) && p in lists[i];
      PickFree(Z(), lev, p);
      PickRest(Z(), lev, p);
      CutStart(lists, i, p);
      lists := lists[i := Remove(lists[i], p)];
    }

    /** One round of it: the upper half of the block goes to the list of its level. */
    method SplitOnce(p: nat, level: nat)
      requires Inv(Z(), lev, p) && InZone(Z(), p) && IsHead(lev, p) && lev[p] == level + 1
      modifies this
      ensures Inv(Z(), lev, p) && InZone(Z(), p) && IsHead(lev, p) && lev[p] == level
      ensures SameRest(old(Z()), old(lev), p, Z(), lev, p)
      ensures level < |old(lists)| && lists == old(lists)[level := old(lists)[level] + [p + Pow2(level)]]
    {
      var half := Xor(p, Pow2(level));
      SplitInv(Z(), lev, p, level);
      SplitRest(Z(), lev, p, level);
      pages := pages[half := pages[half].(bplevel := level, used := Free)];
      lists := lists[level := lists[level] + [half]];
      lev := Relevel(lev, p, level + 1, level);
    }

    /** alloc_pages: the page number of a block for `size` bytes. */
    method AllocBytes(size: nat) returns (ret: Option<nat>, ghost level: nat)
      requires Valid() && size < UINT_RANGE
      modifies this
      ensures Valid() && IsOrder(level, PageCount(size))
      ensures size <= 0xFFFF_F000 ==> size <= Pow2(level) * PAGE_SIZE
      ensures size <= 0xFFFF_F000 && level > 0 ==> Pow2(level - 1) * PAGE_SIZE < size
      ensures size > 0xFFFF_F000 ==> level == 0
      ensures ret.None? <==> level > MAX_BUDDY_ORDER || !exists a: nat :: FreeRun(old(Z()), old(lev), a, level)
      ensures ret.None? ==> Z() == old(Z()) && lev == old(lev)
      ensures ret.Some? ==> Granted(old(Z()), old(lev), ret.value, level, Alloced, Z(), lev)
    {
      var bplevel, n, pageNum := 0, 1, PageCount(size);
      while n < pageNum
        invariant n == Pow2(bplevel) && (bplevel > 0 ==> Pow2(bplevel - 1) < pageNum)
        decreases pageNum - n
      {
        n := n * 2;
        bplevel := bplevel + 1;
      }
      level := bplevel;
      OrderCovers(size, level);
      ret := AllocPages(bplevel, Alloced);
    }

    /** test_buddy: allocating and freeing a block leaves the same free blocks on every list. */
    method AllocThenFree(bplevel: nat)
      requires Valid()
      modifies this
      ensures Valid()
      ensures forall k: nat, p: nat :: k <= MAX_BUDDY_ORDER ==> (p in lists[k] <==> p in old(lists)[k])
    {
      ghost var z0, lev0 := Z(), lev;
      var ret := AllocPages(bplevel, Alloced);
      if ret.Some? {
        ghost var z1, lev1 := Z(), lev;
        FreePages(ret.value);
        forall q: nat | InZone(z0, q)
          ensures FreePage(z0, lev0, q) <==> FreePage(Z(), lev, q)
        {
          BackAgain(z0, lev0, ret.value, bplevel, z1, lev1, Z(), lev, q);
        }
        SamePagesSameLists(z0, lev0, Z(), lev);
      }
    }

    /** init_buddy: all pages reserved, then freed one by one. `reserved` and `total` are the page counts
        bootmm hands over. */
    constructor Init(reserved: nat, total: nat)
      requires (reserved + 15) / 16 * 16 <= total
      ensures Valid() && start == (reserved + 15) / 16 * 16 && num == (total - start) / 16 * 16 && |pages| == total
      ensures forall q: nat :: InZone(Z(), q) ==> FreePage(Z(), lev, q)
      ensures |lists[MAX_BUDDY_ORDER]| == num / 16 && forall k: nat :: k < MAX_BUDDY_ORDER ==> lists[k] == []
    {
      var first := (reserved + 15) / 16 * 16;
      start, num := first, (total - first) / 16 * 16;
      pages := seq(total, _ => Page(Reserved, 0, 0));
      lists := [[], [], [], [], []];
      lev := seq(total, _ => 0);
      new;
      ghost var lo, n := (reserved + 15) / 16, (total - start) / 16;
      MultipleBase(lo);
      MultipleBase(lo + n);
      assert start == 16 * lo && num == 16 * n && start + num == 16 * (lo + n);
      ReservedInv(Z(), lev);
      var i := 0;
      while i < num
        invariant i <= num && Valid() && |pages| == total
        invariant forall q: nat :: InZone(Z(), q) && q < start + i ==> FreePage(Z(), lev, q)
        invariant forall q: nat :: InZone(Z(), q) && q >= start + i ==> lev[q] == 0 && pages[q].used.Reserved?
      {
        ghost var z1, lev1 := Z(), lev;
        FreePages(start + i);
        forall q: nat | InZone(z1, q)
          ensures q <= start + i ==> FreePage(Z(), lev, q)
          ensures q > start + i ==> lev[q] == 0 && pages[q].used.Reserved?
        {
          InitStep(z1, lev1, start + i, Z(), lev, q);
        }
        i := i + 1;
      }
      AllFreeLists(Z(), lev, lo, n);
    }
  }

  /** Before init_buddy frees anything every page is a reserved block of order 0. */
  lemma {:induction false} ReservedInv(z: Zone, lev: Tiling)
    requires ZoneShape(z) && |lev| == |z.pages|
    requires (forall p :: 0 <= p < |lev| ==> lev[p] == 0 && z.pages[p] == Page(Reserved, 0, 0))
    requires forall k: nat :: k <= MAX_BUDDY_ORDER ==> z.lists[k] == []
    ensures Inv(z, lev, -1)
  {
    forall k: nat | k <= MAX_BUDDY_ORDER
      ensures ListOk(z, lev, -1, k)
    {
    }
  }

  /** One round of init_buddy, page by page. */
  lemma {:induction false} InitStep(z: Zone, lev: Tiling, p: nat, z': Zone, lev': Tiling, q: nat)
    requires ZoneShape(z) && Tiled(z, lev) && Freed(z, lev, p, z', lev') && InZone(z, p) && InZone(z, q)
    requires q < p ==> FreePage(z, lev, q)
    requires q >= p ==> lev[q] == 0 && z.pages[q].used.Reserved?
    ensures q <= p ==> FreePage(z', lev', q)
    ensures q > p ==> lev'[q] == 0 && z'.pages[q].used.Reserved?
  {
    assert Open(z', lev', -1, q) <==> Open(z, lev, p, q);
    assert q > p ==> KeptBlock(z, lev, z', lev', q);
  }

  /** Freeing what was granted makes exactly the pages free that were free before. */
  lemma {:induction false} BackAgain(z0: Zone, lev0: Tiling, p: nat, k: nat, z1: Zone, lev1: Tiling, z2: Zone,
                                     lev2: Tiling, q: nat)
    requires Granted(z0, lev0, p, k, Alloced, z1, lev1) && Freed(z1, lev1, p, z2, lev2) && InZone(z0, q)
    ensures FreePage(z0, lev0, q) <==> FreePage(z2, lev2, q)
  {
    assert Open(z1, lev1, p, q) <==> Open(z0, lev0, -1, q);
    assert Open(z2, lev2, -1, q) <==> Open(z1, lev1, p, q);
  }
}
