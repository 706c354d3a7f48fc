/**
 Slab pages of kernel/mm/slab.c: how one page is carved into objects, lazily, from the tail of its free
 list.
 */
module Slabs {
  import opened Division
  import opened Buddies
  import opened Sequences

  const SLAB_ALIGN: nat := 4
  const LIST_HEAD_SIZE: nat := 8
  const SLAB_HEAD_SIZE: nat := 24
  const KMEM_CACHE_NUM: nat := 12

  const KMEM_CACHE_SIZE: seq<nat> := [8, 16, 32, 64, 96, 128, 192, 256, 512, 1024, 1536, 2048]

  function UpperAlign(x: nat): nat {
    (x + (SLAB_ALIGN - 1)) / SLAB_ALIGN * SLAB_ALIGN
  }

  /** The fields of struct kmem_cache that describe its pages. */
  datatype Layout = Layout(objectSize: nat, size: nat, capacity: nat)

  /** init_kmem_cache for objects of `w` bytes */
  function InitLayout(w: nat): (l: Layout)
    ensures l.objectSize >= w && l.size >= l.objectSize + LIST_HEAD_SIZE
  {
    var objectSize := UpperAlign(w);
    var size := UpperAlign(objectSize + LIST_HEAD_SIZE);
    Layout(objectSize, size, (PAGE_SIZE - SLAB_HEAD_SIZE) / size)
  }

  /** The address of link node `i` of a slab page at `base`; its object lies right below it. */
  function NodeAddr(l: Layout, base: nat, i: nat): nat {
    if i == 0 then base + SLAB_HEAD_SIZE + l.size else NodeAddr(l, base, i - 1) + l.size
  }

  // ---------------------------------------------------------------- layout

  lemma {:induction false} NodeAddrIs(l: Layout, base: nat, i: nat)
    ensures NodeAddr(l, base, i) == base + SLAB_HEAD_SIZE + l.size * (i + 1)
  {
    if i > 0 { NodeAddrIs(l, base, i - 1); }
  }

  /** Later nodes lie a whole stride further up: objects and link nodes never overlap. */
  lemma {:induction false} NodesApart(l: Layout, base: nat, i: nat, j: nat)
    requires i < j
    ensures NodeAddr(l, base, i) + l.size <= NodeAddr(l, base, j)
  {
    if i + 1 < j { NodesApart(l, base, i, j - 1); }
  }

  lemma {:induction false} NodeShift(l: Layout, base: nat, i: nat)
    ensures NodeAddr(l, base, i) == base + NodeAddr(l, 0, i)
  {
    if i > 0 { NodeShift(l, base, i - 1); }
  }

  /** Pages hold at least one object, objects leave room for link nodes, and the last link node of a page
      stays inside the page. */
  predicate GoodLayout(l: Layout) {
    && l.capacity > 0 && l.size >= l.objectSize + LIST_HEAD_SIZE
    && NodeAddr(l, 0, l.capacity - 1) + LIST_HEAD_SIZE <= PAGE_SIZE
  }

  /** No object overlaps the slab head, and neither an object nor a link node leaves its page. */
  lemma {:induction false} ObjectInPage(l: Layout, base: nat, i: nat)
    requires GoodLayout(l) && i < l.capacity
    ensures base + SLAB_HEAD_SIZE + LIST_HEAD_SIZE <= NodeAddr(l, base, i) - l.objectSize
    ensures NodeAddr(l, base, i) + LIST_HEAD_SIZE <= base + PAGE_SIZE
  {
    if i > 0 { NodesApart(l, base, 0, i); }
    if i < l.capacity - 1 { NodesApart(l, base, i, l.capacity - 1); }
    NodeShift(l, base, l.capacity - 1);
  }

  /** Whatever the size, the last object fits into the page; the link node behind it does so exactly when
      the page leaves 8 bytes over. */
  lemma {:induction false} LastNodeFits(w: nat, base: nat)
    requires InitLayout(w).capacity > 0
    ensures var l := InitLayout(w); NodeAddr(l, base, l.capacity - 1) <= base + PAGE_SIZE
    ensures var l := InitLayout(w); NodeAddr(l, base, l.capacity - 1) + LIST_HEAD_SIZE <= base + PAGE_SIZE
                                    <==> (PAGE_SIZE - SLAB_HEAD_SIZE) % l.size >= LIST_HEAD_SIZE
  {
    var l := InitLayout(w);
    NodeAddrIs(l, base, l.capacity - 1);
    DivMod(PAGE_SIZE - SLAB_HEAD_SIZE, l.size);
  }

  /** All twelve caches have good layouts. */
  lemma TwelveSizesGood(i: nat)
    requires i < KMEM_CACHE_NUM
    ensures GoodLayout(InitLayout(KMEM_CACHE_SIZE[i]))
    ensures InitLayout(KMEM_CACHE_SIZE[i]).objectSize == KMEM_CACHE_SIZE[i]
  {
    match i
    case 0 => SizeIs(8, 254, 8);
    case 1 => SizeIs(16, 169, 16);
    case 2 => SizeIs(32, 101, 32);
    case 3 => SizeIs(64, 56, 40);
    case 4 => SizeIs(96, 39, 16);
    case 5 => SizeIs(128, 29, 128);
    case 6 => SizeIs(192, 20, 72);
    case 7 => SizeIs(256, 15, 112);
    case 8 => SizeIs(512, 7, 432);
    case 9 => SizeIs(1024, 3, 976);
    case 10 => SizeIs(1536, 2, 984);
    case _ => SizeIs(2048, 1, 2016);
  }

  /** `q` objects of size `w` fill a page up to `r` bytes. */
  lemma {:induction false} SizeIs(w: nat, q: nat, r: nat)
    requires w % 4 == 0 && q > 0 && 8 <= r < w + 8 && PAGE_SIZE - SLAB_HEAD_SIZE == q * (w + 8) + r
    ensures GoodLayout(InitLayout(w)) && InitLayout(w) == Layout(w, w + 8, q)
  {
    assert UpperAlign(w) == w && UpperAlign(w + 8) == w + 8;
    DivUnique(PAGE_SIZE - SLAB_HEAD_SIZE, w + 8, q, r);
    LastNodeFits(w, 0);
  }

  // ---------------------------------------------------------------- one slab page

  /** struct slab_head; the lists hold the addresses of link nodes. */
  datatype SlabHead = SlabHead(allocList: seq<nat>, freeList: seq<nat>, allocNum: nat, freeNum: nat)

  predicate IsNode(l: Layout, base: nat, n: nat, x: nat) {
    exists i: nat :: i < n && x == NodeAddr(l, base, i)
  }

  function Last(s: seq<nat>): nat
    requires s != []
  {
    s[|s| - 1]
  }

  /** The two lists hold the carved nodes, each once; and while the page is not carved completely, the
      tail of the free list is the frontier, the node carved last. */
  ghost predicate SlabOk(l: Layout, base: nat, h: SlabHead) {
    var n := |h.allocList| + |h.freeList|;
    && h.allocNum == |h.allocList| && h.freeNum == |h.freeList|
    && 1 <= n <= l.capacity
    && NoDup(h.allocList + h.freeList)
    && (forall x: nat :: x in h.allocList + h.freeList <==> IsNode(l, base, n, x))
    && (n < l.capacity ==> h.freeList != [] && Last(h.freeList) == NodeAddr(l, base, n - 1))
  }

  /** init_object_in_page */
  function FreshSlab(l: Layout, base: nat): SlabHead {
    SlabHead([], [base + SLAB_HEAD_SIZE + l.size], 0, 1)
  }

  /** The carving step of alloc_object: only when one free object is left, and only up to the capacity. */
  function Carve(l: Layout, h: SlabHead): SlabHead {
    if h.freeNum == 1 && h.freeList != [] && h.allocNum + h.freeNum < l.capacity
    then h.(freeList := h.freeList + [Last(h.freeList) + l.size], freeNum := h.freeNum + 1)
    else h
  }

  /** The rest of alloc_object: the first free node moves to the front of the allocated list. */
  function Pop(h: SlabHead): SlabHead
    requires h.freeList != [] && h.freeNum > 0
  {
    SlabHead([h.freeList[0]] + h.allocList, h.freeList[1..], h.allocNum + 1, h.freeNum - 1)
  }

  /** kmem_cache_free on the slab head: the node moves to the front of the free list. */
  function Push(h: SlabHead, x: nat): SlabHead
    requires h.allocNum > 0
  {
    SlabHead(Remove(h.allocList, x), [x] + h.freeList, h.allocNum - 1, h.freeNum + 1)
  }

  lemma {:induction false} FreshSlabOk(l: Layout, base: nat)
    requires l.capacity > 0
    ensures SlabOk(l, base, FreshSlab(l, base))
  {
    var h := FreshSlab(l, base);
    assert h.allocList + h.freeList == [NodeAddr(l, base, 0)];
    assert IsNode(l, base, 1, NodeAddr(l, base, 0));
  }

  lemma {:induction false} NodeInjective(l: Layout, base: nat, i: nat, n: nat)
    requires n <= i && l.size > 0
    ensures !IsNode(l, base, n, NodeAddr(l, base, i))
  {
    forall j: nat | j < n
      ensures NodeAddr(l, base, j) != NodeAddr(l, base, i)
    {
      NodesApart(l, base, j, i);
    }
  }

  /** Carving never duplicates a slot: the new node is the one behind the frontier. */
  lemma {:induction false} CarveOk(l: Layout, base: nat, h: SlabHead)
    requires SlabOk(l, base, h) && l.size > 0
    ensures SlabOk(l, base, Carve(l, h)) && Carve(l, h).allocList == h.allocList
    ensures h.allocNum < l.capacity ==> Carve(l, h).freeList != []
    ensures h.freeList != [] ==> Carve(l, h).freeList != [] && Carve(l, h).freeList[0] == h.freeList[0]
    ensures var c := Carve(l, h); c.allocNum + 1 < l.capacity ==>
              c.freeNum >= 2 || |c.allocList| + |c.freeList| == l.capacity
  {
    var n := |h.allocList| + |h.freeList|;
    if h.freeNum == 1 && n < l.capacity {
      var x := NodeAddr(l, base, n);
      var c := Carve(l, h);
      assert Last(h.freeList) + l.size == x;
      NodeInjective(l, base, n, n);
      assert c.allocList + c.freeList == (h.allocList + h.freeList) + [x];
      assert x !in h.allocList + h.freeList;
      forall y: nat
        ensures y in c.allocList + c.freeList <==> IsNode(l, base, n + 1, y)
      {
        assert y in c.allocList + c.freeList <==> y in h.allocList + h.freeList || y == x;
        if i: nat :| i < n + 1 && y == NodeAddr(l, base, i) {
          if i < n { assert IsNode(l, base, n, y); }
        }
      }
    }
  }

  lemma {:induction false} PopOk(l: Layout, base: nat, h: SlabHead)
    requires SlabOk(l, base, h) && h.freeList != []
    requires |h.allocList| + |h.freeList| < l.capacity ==> h.freeNum >= 2
    ensures SlabOk(l, base, Pop(h)) && h.freeList[0] !in h.allocList
    ensures forall y: nat :: y in Pop(h).allocList <==> y in h.allocList || y == h.freeList[0]
  {
    var x, u := h.freeList[0], Pop(h);
    assert h.freeList == [x] + h.freeList[1..];
    assert multiset(h.allocList + h.freeList) == multiset(u.allocList + u.freeList);
    SameMembers(h.allocList + h.freeList, u.allocList + u.freeList);
    MiddleOnce(h.allocList, x, h.freeList[1..]);
  }

  lemma {:induction false} PushOk(l: Layout, base: nat, h: SlabHead, x: nat)
    requires SlabOk(l, base, h) && x in h.allocList
    ensures h.allocNum > 0 && SlabOk(l, base, Push(h, x))
    ensures forall y: nat :: y in Push(h, x).allocList <==> y in h.allocList && y != x
  {
    var u := Push(h, x);
    RemoveLength(h.allocList, x);
    assert NoDup(h.allocList) by {
      assert forall i :: 0 <= i < |h.allocList| ==> (h.allocList + h.freeList)[i] == h.allocList[i];
    }
    RemoveNoDup(h.allocList, x);
    PushedMembers(h.allocList, h.freeList, x);
    SameMembers(h.allocList + h.freeList, u.allocList + u.freeList);
  }

  lemma {:induction false} PushedMembers(a: seq<nat>, f: seq<nat>, x: nat)
    requires x in a
    ensures multiset(Remove(a, x) + ([x] + f)) == multiset(a + f)
  {
    RemoveMultiset(a, x);
    assert x in multiset(a);
    assert multiset(Remove(a, x) + ([x] + f)) == multiset(Remove(a, x)) + multiset{x} + multiset(f);
    assert multiset(a + f) == multiset(a) + multiset(f);
  }
}
