/**
 The swap block allocator of kernel/vm/pageswap.c.
 */
module PagePools {
  import opened Options
  import opened Sequences

  /** MACHINE_PAGE_NUM: 512 MB of 4 KB pages */
  const MACHINE_PAGE_NUM: nat := 131072

  /** The blocks that will be handed out before the frontier is reached, in order, and then the frontier:
      the lowest block that was never handed out. */
  ghost predicate IsChain(nextFree: nat, entry: seq<nat>, chain: seq<nat>) {
    && |entry| == MACHINE_PAGE_NUM && chain != [] && chain[0] == nextFree
    && NoDup(chain)
    && (forall i: nat :: i < |chain| - 1 ==> ChainLink(entry, chain, i))
    && 1 <= Frontier(chain) <= MACHINE_PAGE_NUM + 1
    && (forall j: nat :: Frontier(chain) - 1 <= j < MACHINE_PAGE_NUM ==> entry[j] == 0)
  }

  predicate ChainLink(entry: seq<nat>, chain: seq<nat>, i: nat)
    requires i < |chain| - 1
  {
    1 <= chain[i] < Frontier(chain) && chain[i] <= |entry| && entry[chain[i] - 1] == chain[i + 1]
  }

  function Frontier(chain: seq<nat>): nat
    requires chain != []
  {
    chain[|chain| - 1]
  }

  /** Every block below the frontier is either live or on the chain. */
  ghost predicate Parted(chain: seq<nat>, live: set<nat>)
    requires chain != []
  {
    forall b: nat :: b in live <==> 1 <= b < Frontier(chain) && b !in chain
  }

  lemma {:induction false} PopChain(nextFree: nat, entry: seq<nat>, chain: seq<nat>, live: set<nat>)
    requires IsChain(nextFree, entry, chain) && Parted(chain, live) && |chain| > 1
    ensures 1 <= nextFree <= MACHINE_PAGE_NUM && entry[nextFree - 1] != 0 && nextFree !in live
    ensures IsChain(entry[nextFree - 1], entry, chain[1..]) && Parted(chain[1..], live + {nextFree})
  {
    var t := chain[1..];
    assert ChainLink(entry, chain, 0);
    assert forall i :: 0 <= i < |t| ==> t[i] == chain[i + 1];
    assert Frontier(t) == Frontier(chain);
    forall i: nat | i < |t| - 1
      ensures ChainLink(entry, t, i)
    {
      assert ChainLink(entry, chain, i + 1);
    }
    assert t[0] != 0 by { if |t| > 1 { assert ChainLink(entry, chain, 1); } }
    forall b: nat
      ensures b in live + {nextFree} <==> 1 <= b < Frontier(t) && b !in t
    {
      assert b in chain <==> b == nextFree || b in t by { assert chain == [nextFree] + t; }
      assert nextFree !in t;
    }
  }

  lemma {:induction false} StepFrontier(nextFree: nat, entry: seq<nat>, chain: seq<nat>, live: set<nat>)
    requires IsChain(nextFree, entry, chain) && Parted(chain, live) && |chain| == 1 && nextFree <= MACHINE_PAGE_NUM
    ensures entry[nextFree - 1] == 0 && nextFree !in live
    ensures IsChain(nextFree + 1, entry, [nextFree + 1]) && Parted([nextFree + 1], live + {nextFree})
  {
    assert chain == [nextFree];
  }

  lemma {:induction false} PushChain(nextFree: nat, entry: seq<nat>, chain: seq<nat>, live: set<nat>, b: nat)
    requires IsChain(nextFree, entry, chain) && Parted(chain, live) && b in live
    ensures 1 <= b <= MACHINE_PAGE_NUM
    ensures IsChain(b, entry[b - 1 := nextFree], [b] + chain) && Parted([b] + chain, live - {b})
  {
    var c, e := [b] + chain, entry[b - 1 := nextFree];
    assert Frontier(c) == Frontier(chain);
    forall i: nat | i < |c| - 1
      ensures ChainLink(e, c, i)
    {
      if i > 0 {
        assert ChainLink(entry, chain, i - 1);
        assert chain[i - 1] in chain;
      }
    }
  }

  /** With the chain used up and the frontier behind the last block, every block is live. */
  lemma {:induction false} FullPool(nextFree: nat, entry: seq<nat>, chain: seq<nat>, live: set<nat>)
    requires IsChain(nextFree, entry, chain) && Parted(chain, live)
    ensures nextFree > MACHINE_PAGE_NUM <==> forall b: nat :: 1 <= b <= MACHINE_PAGE_NUM ==> b in live
    ensures nextFree >= 1
  {
    if |chain| > 1 {
      assert ChainLink(entry, chain, 0);
      assert chain[0] in chain;
    } else {
      assert chain == [nextFree];
    }
    assert nextFree !in live;
  }

  class PagePool {
    var pageNum: nat
    var nextFree: nat
    var entry: seq<nat>
    /** The blocks in use. */
    ghost var live: set<nat>
    ghost var chain: seq<nat>

    ghost predicate Valid()
      reads this
    {
      IsChain(nextFree, entry, chain) && Parted(chain, live) && pageNum + 1 == Frontier(chain)
    }

    /** init_page_pool */
    constructor ()
      ensures Valid() && live == {} && nextFree == 1 && pageNum == 0
    {
      pageNum := 0;
      nextFree := 1;
      entry := seq(MACHINE_PAGE_NUM, _ => 0);
      live, chain := {}, [1];
    }

    /** The allocation of write_page_to_disk: a block nobody uses. When all blocks are in use the code reads
        behind the end of `entry`; that is None here. */
    method AllocBlock() returns (r: Option<nat>)
      requires Valid()
      modifies this
      ensures Valid()
      ensures r.None? <==> forall b: nat :: 1 <= b <= MACHINE_PAGE_NUM ==> b in old(live)
      ensures r.None? ==> live == old(live) && nextFree == old(nextFree) && pageNum == old(pageNum)
      ensures r.Some? ==> r.value !in old(live) && live == old(live) + {r.value} && 1 <= r.value <= MACHINE_PAGE_NUM
      ensures r.Some? ==>
                r.value <= old(pageNum) + 1 && pageNum >= r.value && (pageNum == old(pageNum) || pageNum == r.value)
      ensures r.Some? ==> r.value == old(nextFree)
      ensures r.Some? ==> (pageNum > old(pageNum) <==> forall b: nat :: 1 <= b <= old(pageNum) ==> b in old(live))
    {
      FullPool(nextFree, entry, chain, live);
      if nextFree > MACHINE_PAGE_NUM { return None; }
      if |chain| > 1 { PopChain(nextFree, entry, chain, live); } else { StepFrontier(nextFree, entry, chain, live); }
      r := Some(nextFree);
      var next := entry[nextFree - 1];
      live := live + {nextFree};
      if next != 0 {
        assert ChainLink(entry, chain, 0);
        chain := chain[1..];
        nextFree := next;
      } else {
        nextFree := nextFree + 1;
        pageNum := pageNum + 1;
        chain := [nextFree];
      }
    }

    /** The list part of delete_page_on_disk. */
    method DeleteBlock(b: nat)
      requires Valid() && b in live
      modifies this
      ensures Valid() && live == old(live) - {b} && pageNum == old(pageNum)
      ensures nextFree == b
    {
      PushChain(nextFree, entry, chain, live, b);
      entry := entry[b - 1 := nextFree];
      chain := [b] + chain;
      nextFree := b;
      live := live - {b};
    }
  }
}
