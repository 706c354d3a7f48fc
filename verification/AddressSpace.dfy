/**
 TLB exceptions, page faults and swapping for one address space (arch/mips32/tlb.c, kernel/vm/vm.c,
 kernel/vm/pageswap.c).
 */
module AddressSpaces {
  import opened Words
  import opened Options
  import opened PageTables
  import opened PagingModel
  import opened PagePools
  import opened Buddies
  import opened Powers
  import opened PageMath

  /** What an exception ends with: the TLB was refilled, the page was mapped, the handler was left for a
      nested TLB miss on the victim so that the access starts over, or the code does something undefined:
      it takes a victim from an empty FIFO or a swap block from a pool without any. */
  datatype Outcome = Refilled | Faulted | Retry | Undefined

  /** The frame alloc_one_page returns, with the bytes it happens to hold. */
  datatype Grant = Grant(frame: nat, data: Bytes)

  class AddressSpace {
    /** MAX_PFN_PER_PROCESS */
    const max: nat
    const pool: PagePool
    const zone: BuddyZone
    var pgd: Pgd
    var tlb: seq<TlbEntry>
    var fifo: seq<Resident>
    var pfNum: nat
    var frames: map<nat, Bytes>
    var file: seq<Bytes>

    function S(): Vm
      reads this
    {
      Vm(pgd, tlb, fifo, frames, file)
    }

    ghost predicate Valid()
      reads this, pool, zone
    {
      Paged() && Held()
    }

    /** The state of the address space itself. */
    ghost predicate Paged()
      reads this, pool
    {
      PagingModel.Inv(S(), pool.live, -1) && SwapOk() && pfNum == |fifo| <= max
    }

    /** Every resident frame is an allocated page of the buddy allocator; `frames` holds the bytes of all its
        pages, in use or not. */
    ghost predicate Held()
      reads this, zone
    {
      && zone.Valid() && (forall k: nat :: HeldAt(zone.Z(), zone.lev, fifo, k))
      && (forall p: nat :: InZone(zone.Z(), p) ==> p in frames)
    }

    /** The swap file reaches up to the last block that was ever handed out. */
    ghost predicate SwapOk()
      reads this, pool
    {
      pool.Valid() && pool.pageNum <= |file|
    }

    /** init_tlb and create_mm_struct; `memory` are the bytes of the frames. */
    constructor (max: nat, pool: PagePool, zone: BuddyZone, memory: map<nat, Bytes>, file: seq<Bytes>)
      requires pool.Valid() && pool.pageNum <= |file|
      requires zone.Valid() && forall p: nat :: InZone(zone.Z(), p) ==> p in memory
      ensures Valid() && this.max == max && this.pool == pool && this.zone == zone && frames == memory && fifo == []
      ensures forall v: nat :: Content(S(), v).None?
    {
      this.max, this.pool, this.zone, this.file := max, pool, zone, file;
      tlb := seq(TLB_NUM, i requires 0 <= i < TLB_NUM => TlbEntry(0x4_0000 + i, ZERO_PTE.lo, ZERO_PTE.lo));
      pgd, fifo, pfNum, frames := map[], [], 0, memory;
    }

    /** tlb_reset */
    method TlbReset(v: nat)
      requires PgdOk(pgd)
      modifies this`tlb, this`pgd
      ensures tlb == AfterReset(pgd, old(tlb), v) && PgdOk(pgd)
      ensures forall u: nat :: Lookup(pgd, u) == Lookup(old(pgd), u)
      ensures |tlb| == |old(tlb)| && forall i :: 0 <= i < |tlb| && (Vpn2Once(old(tlb)) || old(tlb)[i].vpn2 != v / 2) ==>
                tlb[i] == if old(tlb)[i].vpn2 != v / 2 then old(tlb)[i]
                          else if v % 2 == 0 then TlbEntry(v / 2, Lookup(pgd, v).lo, old(tlb)[i].lo1)
                          else TlbEntry(v / 2, old(tlb)[i].lo0, Lookup(pgd, v).lo)
    {
      var p := Probe(tlb, v);
      if p.None? { return; }
      var e := tlb[p.value];
      pgd := GetPte(pgd, v);
      tlb := tlb[p.value := WithHalf(e, v, Lookup(pgd, v).lo)];
    }

    /** The entry of page `x` loses its V bit, in the page table and in the TLB. */
    method Unmap(x: nat)
      requires PgdOk(pgd) && Coherent(pgd, tlb)
      modifies this`tlb, this`pgd
      ensures PgdOk(pgd) && Coherent(pgd, tlb)
      ensures Lookup(pgd, x) == Pte(Lookup(old(pgd), x).lo.(v := false), Lookup(old(pgd), x).info)
      ensures forall u: nat :: u != x ==> Lookup(pgd, u) == Lookup(old(pgd), u)
    {
      pgd := GetPte(pgd, x);
      var pte := Lookup(pgd, x);
      UpdateOne(pgd, x, pte.(lo := pte.lo.(v := false)));
      pgd := Update(pgd, x, pte.(lo := pte.lo.(v := false)));
      ResetCoherent(old(pgd), tlb, x, pgd);
      ghost var pgd1 := pgd;
      TlbReset(x);
      MapCoherent(pgd1, tlb, x, pgd);
    }

    /** __tlb_refill for a page whose entry is valid, behind the tlbp of the handlers; `r` is the entry tlbwr
        picks. */
    method TlbWrite(v: nat, r: nat) returns (i: nat)
      requires Coherent(pgd, tlb) && r < TLB_NUM && Lookup(pgd, v).lo.v
      modifies this`tlb
      ensures Coherent(pgd, tlb) && Hit(tlb, v)
      ensures i < TLB_NUM && tlb == old(tlb)[i := TlbEntry(v / 2, Lookup(pgd, 2 * (v / 2)).lo,
                                                           Lookup(pgd, 2 * (v / 2) + 1).lo)]
      ensures if exists j: nat :: j < TLB_NUM && old(tlb)[j].vpn2 == v / 2 then old(tlb)[i].vpn2 == v / 2 else i == r
    {
      var p := Probe(tlb, v);
      i := if p.None? then r else p.value;
      RefillCoherent(pgd, tlb, v, i);
      tlb := tlb[i := PairOf(pgd, v)];
    }

    /** write_page_to_disk up to the point where it copies: the block, and the file grown to hold it. `grown`
        is what the new block holds before the copy. */
    method PrepareBlock(grown: Bytes) returns (b: Option<nat>)
      requires PagingModel.Inv(S(), pool.live, -1) && SwapOk() && fifo != []
      modifies this`file, pool
      ensures SwapOk() && (b.None? ==> pool.live == old(pool.live) && file == old(file))
      ensures b.None? <==> Lookup(pgd, fifo[0].page).info == 0 && AllUsed(old(pool.live))
      ensures b.Some? ==>
                GoodBlock(S(), old(pool.live), b.value) && pool.live == old(pool.live) + {b.value}
                    && 1 <= b.value <= |file|
      ensures |old(file)| <= |file| && file[..|old(file)|] == old(file) && (b.Some? ==> b.value <= |old(file)| + 1)
      ensures file == old(file) || (b == Some(|old(file)| + 1) && file == old(file) + [grown])
      ensures Lookup(pgd, fifo[0].page).info != 0 ==> b == Some(Lookup(pgd, fifo[0].page).info)
    {
      var info := Lookup(pgd, fifo[0].page).info;
      assert BlockOk(S(), pool.live, fifo[0].page);
      if info == 0 {
        b := pool.AllocBlock();
        if b.None? { return; }
        if b.value > |file| { file := file + [grown]; }
      } else {
        b := Some(info);
      }
    }

    /** swap_one_page */
    method SwapOnePage(v: nat, r: nat, grown: Bytes) returns (out: Outcome, ghost block: nat)
      requires Paged() && !Lookup(pgd, v).lo.v && r < TLB_NUM
      modifies this, pool
      ensures SwapOk() && pfNum == old(pfNum) && frames.Keys == old(frames.Keys)
      ensures out.Undefined? <==> Starved(old(S()), old(pool.live))
      ensures out.Retry? <==> !Starved(old(S()), old(pool.live)) && !Hit(old(tlb), old(fifo)[0].page)
      ensures out.Faulted? || out.Retry? || out.Undefined?
      ensures !out.Faulted? ==> Paged() && Untouched(old(S()), S())
      ensures out.Retry? ==> fifo != [] && Hit(tlb, fifo[0].page)
      ensures out.Faulted? ==>
                pool.live == old(pool.live) + {block} && Evicted(old(S()), v, block, S())
                    && GoodBlock(old(S()), old(pool.live), block) && PagingModel.Inv(S(), pool.live, v)
    {
      block := 0;
      if fifo == [] { return Undefined, block; }
      VictimOk(S(), pool.live);
      var victim := fifo[0];
      var b := PrepareBlock(grown);
      if b.None? { return Undefined, block; }
      UntouchedInv(old(S()), old(pool.live), S(), pool.live);
      if !Hit(tlb, victim.page) {
        ghost var s1 := S();
        var _ := TlbWrite(victim.page, r);
        UntouchedInv(s1, pool.live, S(), pool.live);
        return Retry, block;
      }
      block := b.value;
      ghost var s1 := S();
      Evict(v, b.value);
      out := Faulted;
      EvictedFrom(old(S()), s1, v, block, S());
      EvictedInv(old(S()), old(pool.live), v, block, S());
    }

    /** The rest of swap_one_page: the oldest page is copied to swap block `b` through the TLB, its frame is
        loaded with the bytes of page `v`, and it is unmapped. */
    method Evict(v: nat, b: nat)
      requires PagingModel.Inv(S(), pool.live, -1) && fifo != [] && Hit(tlb, fifo[0].page) && !Lookup(pgd, v).lo.v
      requires 1 <= b <= |file|
      modifies this
      ensures PgdOk(pgd) && Coherent(pgd, tlb) && Evicted(old(S()), v, b, S()) && pfNum == old(pfNum)
      ensures |file| == |old(file)| && frames.Keys == old(frames.Keys)
    {
      VictimOk(S(), pool.live);
      var victim := fifo[0];
      HitIsContent(S(), pool.live, victim.page);
      var f := HitFrame(tlb, victim.page);
      file := file[b - 1 := frames[f]];
      SetInfo(victim.page, b);
      pgd := GetPte(pgd, v);
      frames := frames[f := Loaded(file, Lookup(pgd, v).info, frames[f])];
      MapCoherent(old(pgd), tlb, victim.page, pgd);
      Unmap(victim.page);
      fifo := fifo[1..] + [Resident(victim.frame, v)];
    }

    /** pte->info = b */
    method SetInfo(x: nat, b: nat)
      requires PgdOk(pgd)
      modifies this`pgd
      ensures PgdOk(pgd) && Lookup(pgd, x) == Pte(Lookup(old(pgd), x).lo, b)
      ensures forall u: nat :: u != x ==> Lookup(pgd, u) == Lookup(old(pgd), u)
    {
      pgd := GetPte(pgd, x);
      UpdateOne(pgd, x, Lookup(pgd, x).(info := b));
      pgd := Update(pgd, x, Lookup(pgd, x).(info := b));
    }

    /** do_pagefault behind alloc_one_page; `grant` is the frame it got, if it asked and there was one. */
    method MapPage(v: nat, grant: Option<Grant>, r: nat, grown: Bytes) returns (out: Outcome)
      requires Paged() && !Lookup(pgd, v).lo.v && r < TLB_NUM && GrantOk(S(), grant) && (grant.Some? ==> |fifo| < max)
      modifies this, pool
      ensures Paged() && FaultDone(old(S()), old(pool.live), v, grant, out, S(), pool.live)
    {
      if grant.Some? { MapFresh(v, grant.value); out := Faulted; } else { out := MapSwapped(v, r, grown); }
    }

    /** The new frame goes to the end of the FIFO. */
    method MapFresh(v: nat, grant: Grant)
      requires Paged() && !Lookup(pgd, v).lo.v && GrantOk(S(), Some(grant)) && |fifo| < max
      modifies this
      ensures Paged() && FaultDone(old(S()), pool.live, v, Some(grant), Faulted, S(), pool.live)
    {
      ghost var s, live := S(), pool.live;
      pgd := GetPte(pgd, v);
      fifo := fifo + [Resident(grant.frame, v)];
      pfNum := pfNum + 1;
      assert frames == frames[grant.frame := grant.data];
      ghost var s1 := S();
      SetFrame(v, grant.frame);
      FreshFault(s, live, v, grant.frame, grant.data, s1, S());
    }

    /** There is no new frame. */
    method MapSwapped(v: nat, r: nat, grown: Bytes) returns (out: Outcome)
      requires Paged() && !Lookup(pgd, v).lo.v && r < TLB_NUM
      modifies this, pool
      ensures Paged() && FaultDone(old(S()), old(pool.live), v, None, out, S(), pool.live)
    {
      ghost var s, live := S(), pool.live;
      pgd := GetPte(pgd, v);
      MapCoherent(s.pgd, tlb, v, pgd);
      UntouchedInv(s, live, S(), live);
      ghost var block, s1;
      out, block := SwapOnePage(v, r, grown);
      if out.Faulted? {
        s1 := S();
        SetFrame(v, fifo[|fifo| - 1].frame);
        SwapDone(s, live, v, block, s1, S());
      } else {
        NotDone(s, live, v, out, S(), pool.live);
      }
    }

    /** set_pte_tlb_entry with frame `f`, behind the get_pte at the top of do_pagefault */
    method SetFrame(v: nat, f: nat)
      requires PgdOk(pgd)
      modifies this`pgd
      ensures PgdOk(pgd) && Lookup(pgd, v) == Pte(MapTo(f), Lookup(old(pgd), v).info)
      ensures forall u: nat :: u != v ==> Lookup(pgd, u) == Lookup(old(pgd), u)
    {
      pgd := GetPte(pgd, v);
      UpdateOne(pgd, v, Lookup(pgd, v).(lo := MapTo(f)));
      pgd := Update(pgd, v, Lookup(pgd, v).(lo := MapTo(f)));
    }

    /** alloc_one_page: a frame that is not resident, with the bytes it happens to hold; NULL exactly when the
        zone has no free page. */
    method AllocOnePage() returns (grant: Option<Grant>)
      requires Valid()
      modifies zone
      ensures Valid() && GrantOk(S(), grant) && (grant.Some? <==> HasPage(old(zone.Z()), old(zone.lev)))
      ensures grant.Some? ==> HeldFrame(zone.Z(), zone.lev, grant.value.frame)
      ensures Used(old(zone.Z()), old(zone.lev), grant, zone.Z(), zone.lev)
    {
      ghost var z, lev := zone.Z(), zone.lev;
      var p;
      ghost var level;
      p, level := zone.AllocBytes(PAGE_SIZE);
      OnePage(level);
      if p.None? { return None; }
      GrantHeld(z, lev, fifo, p.value, zone.Z(), zone.lev);
      grant := Some(Grant(p.value, frames[p.value]));
    }

    /** do_pagefault. It takes a new frame exactly when the limit is not reached and there is one. */
    method DoPagefault(v: nat, r: nat, grown: Bytes) returns (out: Outcome, ghost grant: Option<Grant>)
      requires Valid() && !Lookup(pgd, v).lo.v && r < TLB_NUM
      modifies this, pool, zone
      ensures Valid() && FaultDone(old(S()), old(pool.live), v, grant, out, S(), pool.live)
      ensures GrantOk(old(S()), grant) && (grant.Some? <==> |old(fifo)| < max && HasPage(old(zone.Z()), old(zone.lev)))
      ensures Used(old(zone.Z()), old(zone.lev), grant, zone.Z(), zone.lev)
      ensures |fifo| == |old(fifo)| + if |old(fifo)| < max && HasPage(old(zone.Z()), old(zone.lev)) then 1 else 0
      ensures grant.Some? ==> out.Faulted? && fifo == old(fifo) + [Resident(grant.value.frame, v)]
      ensures grant.None? && out.Faulted? ==>
                && old(fifo) != [] && fifo == old(fifo)[1..] + [Resident(old(fifo)[0].frame, v)]
                && !Lookup(pgd, old(fifo)[0].page).lo.v
      ensures out.Undefined? <==>
                && grant.None?
                && (old(fifo) == [] || (Lookup(old(pgd), old(fifo)[0].page).info == 0 && AllUsed(old(pool.live))))
      ensures out.Retry? <==> grant.None? && !out.Undefined? && !Hit(old(tlb), old(fifo)[0].page)
      ensures out.Faulted? ==> Lookup(pgd, v).lo.v && (grant.None? && Content(old(S()), v).Some? ==>
                Content(S(), v) == Content(old(S()), v))
    {
      var got: Option<Grant> := None;
      if pfNum < max { got := AllocOnePage(); }
      grant := got;
      ghost var z, lev, s := zone.Z(), zone.lev, S();
      out := MapPage(v, got, r, grown);
      if out.Faulted? && got.None? { VictimGone(s, old(pool.live), v, S(), pool.live); }
      FaultHeld(s, v, got, out, S(), z, lev);
    }

    /** tlb_read_handler and tlb_write_handler, and the refill vector: an access to page `v` did not hit. */
    method TlbException(v: nat, r: nat, grown: Bytes) returns (out: Outcome, ghost grant: Option<Grant>)
      requires Valid() && r < TLB_NUM
      modifies this, pool, zone
      ensures Valid() && GrantOk(old(S()), grant)
      ensures Lookup(old(pgd), v).lo.v ==> out.Refilled? && grant.None? && Hit(tlb, v) && Untouched(old(S()), S())
      ensures Lookup(old(pgd), v).lo.v ==>
                pool.live == old(pool.live) && forall u: nat :: Content(S(), u) == Content(old(S()), u)
      ensures !Lookup(old(pgd), v).lo.v ==> FaultDone(old(S()), old(pool.live), v, grant, out, S(), pool.live)
      ensures !Lookup(old(pgd), v).lo.v ==>
                (grant.Some? <==> |old(fifo)| < max && HasPage(old(zone.Z()), old(zone.lev)))
      ensures Used(old(zone.Z()), old(zone.lev), grant, zone.Z(), zone.lev)
    {
      if Lookup(pgd, v).lo.v {
        Refill(v, r);
        out, grant := Refilled, None;
      } else {
        out, grant := DoPagefault(v, r, grown);
      }
    }

    /** The first case of __tlb_refill. */
    method Refill(v: nat, r: nat)
      requires Paged() && r < TLB_NUM && Lookup(pgd, v).lo.v
      modifies this`pgd, this`tlb
      ensures Paged() && Hit(tlb, v) && Untouched(old(S()), S())
      ensures forall u: nat :: Content(S(), u) == Content(old(S()), u)
    {
      ghost var s := S();
      pgd := GetPte(pgd, v);
      MapCoherent(s.pgd, tlb, v, pgd);
      var _ := TlbWrite(v, r);
      UntouchedInv(s, pool.live, S(), pool.live);
      forall u: nat
        ensures Content(S(), u) == Content(s, u)
      {
        UntouchedContent(s, pool.live, S(), u);
      }
    }

    /** A load or store at page `v`: the instruction is repeated until the TLB translates. `random` are the values
        of the Random register; `n` is the number of exceptions. */
    method Access(v: nat, random: nat -> nat, grown: Bytes) returns (ok: bool, n: nat, ghost grant: Option<Grant>)
      requires Valid()
      modifies this, pool, zone
      ensures Valid() && n <= 3 && GrantOk(old(S()), grant)
      ensures ok ==> Hit(tlb, v) && HitFrame(tlb, v) in frames && Content(S(), v) == Some(frames[HitFrame(tlb, v)])
      ensures ok ==> Content(S(), v) == AccessContent(old(S()), v, grant)
      ensures grant.Some? <==> !Lookup(old(pgd), v).lo.v && |old(fifo)| < max && HasPage(old(zone.Z()), old(zone.lev))
      ensures ok && Content(old(S()), v).Some? && grant.None? ==> Content(S(), v) == Content(old(S()), v)
      ensures Lookup(old(pgd), v).lo.v || grant.Some? ==> ok
      ensures forall u: nat :: u != v ==> Content(S(), u) == Content(old(S()), u)
    {
      n, grant := 0, None;
      ghost var s := S();
      if Hit(tlb, v) { HitIsContent(s, pool.live, v); }
      while !Hit(tlb, v)
        invariant Valid() && n + Distance(S(), v) <= 3 && GrantOk(s, grant)
        invariant Lookup(pgd, v).lo.v || (Untouched(s, S()) && grant.None?)
        invariant Lookup(pgd, v).lo.v || (zone.Z() == old(zone.Z()) && zone.lev == old(zone.lev))
        invariant Lookup(s.pgd, v).lo.v ==> Lookup(pgd, v).lo.v
        invariant Lookup(pgd, v).lo.v ==>
                    (grant.Some? <==> !Lookup(s.pgd, v).lo.v && |s.fifo| < max && HasPage(old(zone.Z()), old(zone.lev)))
        invariant forall u: nat :: u != v ==> Content(S(), u) == Content(s, u)
        invariant Content(S(), v) == if Lookup(pgd, v).lo.v then AccessContent(s, v, grant) else Content(s, v)
        decreases Distance(S(), v)
      {
        var out;
        ghost var got;
        out, got := TlbException(v, random(n) % TLB_NUM, grown);
        n := n + 1;
        if out.Undefined? { return false, n, grant; }
        if out.Faulted? { grant := got; }
      }
      HitIsContent(S(), pool.live, v);
      ok := true;
    }

    /** A store to a page the TLB translates. */
    method Store(v: nat, data: Bytes)
      requires Valid() && Hit(tlb, v)
      modifies this`frames
      ensures Valid() && Content(S(), v) == Some(data) && frames == old(frames)[HitFrame(tlb, v) := data]
      ensures forall u: nat :: u != v ==> Content(S(), u) == Content(old(S()), u)
    {
      HitIsContent(S(), pool.live, v);
      StoredOk(S(), pool.live, v, data);
      frames := frames[HitFrame(tlb, v) := data];
    }

    /** Some other part of the kernel takes a page. */
    method OtherTakes() returns (p: Option<nat>)
      requires Valid()
      modifies zone
      ensures Valid() && (p.None? <==> !HasPage(old(zone.Z()), old(zone.lev)))
      ensures p.None? ==> zone.Z() == old(zone.Z()) && zone.lev == old(zone.lev)
      ensures p.Some? ==> Granted(old(zone.Z()), old(zone.lev), p.value, 0, Alloced, zone.Z(), zone.lev)
      ensures p.Some? ==>
                HeldFrame(zone.Z(), zone.lev, p.value) && forall k :: 0 <= k < |fifo| ==> fifo[k].frame != p.value
    {
      ghost var z, lev := zone.Z(), zone.lev;
      p := zone.AllocPages(0, Alloced);
      if p.Some? { GrantHeld(z, lev, fifo, p.value, zone.Z(), zone.lev); }
    }

    /** Some other part of the kernel gives a page back. */
    method OtherFrees(p: nat)
      requires Valid() && HeldFrame(zone.Z(), zone.lev, p) && forall k :: 0 <= k < |fifo| ==> fifo[k].frame != p
      modifies zone
      ensures Valid() && HasPage(zone.Z(), zone.lev)
    {
      ghost var z, lev := zone.Z(), zone.lev;
      zone.FreePages(p);
      FreeHeld(z, lev, fifo, p, zone.Z(), zone.lev);
    }

    /** The loop of free_mm_struct: every resident page is unmapped and its frame given back, in FIFO order,
        and then nothing is mapped any more and all those frames are free. */
    method FreePages() returns (freed: seq<nat>)
      requires Valid()
      modifies this, zone
      ensures PagingModel.Inv(S(), pool.live, -1) && zone.Valid() && fifo == []
      ensures |freed| == |old(fifo)| && forall k :: 0 <= k < |freed| ==> freed[k] == old(fifo)[k].frame
      ensures forall k :: 0 <= k < |freed| ==> FreePage(zone.Z(), zone.lev, freed[k])
      ensures forall v: nat :: !Lookup(pgd, v).lo.v && !Hit(tlb, v)
    {
      freed := [];
      while fifo != []
        invariant PagingModel.Inv(S(), pool.live, -1) && |freed| <= |old(fifo)| && fifo == old(fifo)[|freed|..]
        invariant Held()
        invariant forall k :: 0 <= k < |freed| ==> freed[k] == old(fifo)[k].frame
        invariant forall k :: 0 <= k < |freed| ==> InZone(zone.Z(), freed[k]) && FreePage(zone.Z(), zone.lev, freed[k])
        decreases |fifo|
      {
        var x := fifo[0];
        UnmapFirst();
        ghost var z, lev := zone.Z(), zone.lev;
        assert HeldFrame(z, lev, x.frame);
        zone.FreePages(x.frame);
        FreeHeld(z, lev, fifo, x.frame, zone.Z(), zone.lev);
        FreeStays(z, lev, x.frame, freed, zone.Z(), zone.lev);
        freed := freed + [x.frame];
      }
      NothingMapped(S(), pool.live);
    }

    /** The part of a round of that loop in front of free_pages. */
    method UnmapFirst()
      requires PagingModel.Inv(S(), pool.live, -1) && fifo != [] && Held()
      modifies this`pgd, this`tlb, this`fifo
      ensures PagingModel.Inv(S(), pool.live, -1) && fifo == old(fifo)[1..] && Held()
      ensures HeldFrame(zone.Z(), zone.lev, old(fifo)[0].frame)
      ensures forall k :: 0 <= k < |fifo| ==> fifo[k].frame != old(fifo)[0].frame
    {
      ghost var s := S();
      assert HeldAt(zone.Z(), zone.lev, fifo, 0);
      Unmap(fifo[0].page);
      fifo := fifo[1..];
      DroppedInv(s, pool.live, S());
      forall k: nat
        ensures HeldAt(zone.Z(), zone.lev, fifo, k)
      {
        assert HeldAt(zone.Z(), zone.lev, s.fifo, k + 1);
      }
    }
  }

  // ---------------------------------------------------------------- frames and the buddy allocator

  /** Page `f` is an allocated block of order 0. */
  predicate HeldFrame(z: Zone, lev: Tiling, f: nat) {
    InZone(z, f) && f < |z.pages| && IsHead(lev, f) && lev[f] == 0 && z.pages[f].used.Alloced?
  }

  predicate HeldAt(z: Zone, lev: Tiling, fifo: seq<Resident>, k: nat) {
    k < |fifo| ==> HeldFrame(z, lev, fifo[k].frame)
  }

  /** The zone has a free page. */
  ghost predicate HasPage(z: Zone, lev: Tiling) {
    exists a: nat :: FreeRun(z, lev, a, 0)
  }

  /** Of the free pages exactly the granted one was taken. */
  ghost predicate Used(z: Zone, lev: Tiling, grant: Option<Grant>, z': Zone, lev': Tiling) {
    if grant.None? then z' == z && lev' == lev
    else grant.value.frame in FreeSet(z, lev) && FreeSet(z', lev') == FreeSet(z, lev) - {grant.value.frame}
  }

  /** A request for one page asks for order 0. */
  lemma OnePage(level: nat)
    requires IsOrder(level, PageCount(PAGE_SIZE))
    ensures level == 0
  {
    assert PageCount(PAGE_SIZE) == 1 && Pow2(0) == 1;
  }

  /** An allocated page was free, so it was not resident; and the resident frames stay what they were. */
  lemma {:induction false} GrantHeld(z: Zone, lev: Tiling, fifo: seq<Resident>, p: nat, z': Zone, lev': Tiling)
    requires Buddies.Inv(z, lev, -1) && Buddies.Inv(z', lev', -1) && Granted(z, lev, p, 0, Alloced, z', lev')
    requires forall k: nat :: HeldAt(z, lev, fifo, k)
    ensures HeldFrame(z', lev', p) && (forall k: nat :: HeldAt(z', lev', fifo, k))
    ensures forall k :: 0 <= k < |fifo| ==> fifo[k].frame != p
    ensures FreeSet(z', lev') == FreeSet(z, lev) - {p} && p in FreeSet(z, lev)
  {
    GrantTakes(z, lev, p, 0, Alloced, z', lev');
    HeadsKept(z, lev, -1, z', lev', p, p);
    assert FreePage(z, lev, p);
    forall k: nat
      ensures HeldAt(z', lev', fifo, k)
      ensures k < |fifo| ==> fifo[k].frame != p
    {
      assert HeldAt(z, lev, fifo, k);
      if k < |fifo| && fifo[k].frame != p { assert HeadSame(z, lev, z', lev', fifo[k].frame); }
    }
  }

  /** Giving back a page that is not resident leaves the resident frames alone, and there is a free page then. */
  lemma {:induction false} FreeHeld(z: Zone, lev: Tiling, fifo: seq<Resident>, p: nat, z': Zone, lev': Tiling)
    requires Buddies.Inv(z, lev, -1) && Buddies.Inv(z', lev', -1) && Freed(z, lev, p, z', lev') && HeldFrame(z, lev, p)
    requires (forall k: nat :: HeldAt(z, lev, fifo, k)) && forall k :: 0 <= k < |fifo| ==> fifo[k].frame != p
    ensures (forall k: nat :: HeldAt(z', lev', fifo, k)) && HasPage(z', lev')
    ensures FreePage(z', lev', p)
  {
    HeadsKept(z, lev, p, z', lev', -1, p);
    forall k: nat
      ensures HeldAt(z', lev', fifo, k)
    {
      assert HeldAt(z, lev, fifo, k);
      if k < |fifo| { assert HeadSame(z, lev, z', lev', fifo[k].frame); }
    }
    assert Open(z', lev', -1, p) <==> Open(z, lev, p, p);
    assert FreeRun(z', lev', p, 0);
  }

  lemma {:induction false} FreeStays(z: Zone, lev: Tiling, p: nat, ps: seq<nat>, z': Zone, lev': Tiling)
    requires Freed(z, lev, p, z', lev') && forall k :: 0 <= k < |ps| ==> InZone(z, ps[k]) && FreePage(z, lev, ps[k])
    ensures forall k :: 0 <= k < |ps| ==> InZone(z', ps[k]) && FreePage(z', lev', ps[k])
  {
    forall k | 0 <= k < |ps|
      ensures FreePage(z', lev', ps[k])
    {
      assert Open(z', lev', -1, ps[k]) <==> Open(z, lev, p, ps[k]);
    }
  }

  /** A fault keeps the resident frames allocated. */
  lemma {:induction false} FaultHeld(s: Vm, v: nat, grant: Option<Grant>, out: Outcome, s': Vm, z: Zone, lev: Tiling)
    requires forall k: nat :: HeldAt(z, lev, s.fifo, k)
    requires grant.Some? ==> HeldFrame(z, lev, grant.value.frame)
    requires s'.fifo == if out.Faulted? then FaultFifo(s, v, grant) else s.fifo
    ensures forall k: nat :: HeldAt(z, lev, s'.fifo, k)
  {
    forall k: nat
      ensures HeldAt(z, lev, s'.fifo, k)
    {
      assert HeldAt(z, lev, s.fifo, k) && HeldAt(z, lev, s.fifo, k + 1) && HeldAt(z, lev, s.fifo, 0);
    }
  }

  /** The page whose frame was taken is not mapped any more. */
  lemma {:induction false} VictimGone(s: Vm, live: set<nat>, v: nat, s': Vm, live': set<nat>)
    requires PagingModel.Inv(s, live, -1) && PagingModel.Inv(s', live', -1) && !Lookup(s.pgd, v).lo.v && s.fifo != []
    requires s'.fifo == s.fifo[1..] + [Resident(s.fifo[0].frame, v)]
    ensures !Lookup(s'.pgd, s.fifo[0].page).lo.v
  {
    VictimOk(s, live);
    assert ValidOk(s', s.fifo[0].page);
    assert forall k :: 0 < k < |s.fifo| ==> s'.fifo[k - 1] == s.fifo[k];
  }

  // ---------------------------------------------------------------- what a fault does

  /** A granted frame is not resident and holds whatever bytes it held before. */
  predicate GrantOk(s: Vm, grant: Option<Grant>) {
    grant.Some? ==>
      && grant.value.frame in s.frames && grant.value.data == s.frames[grant.value.frame]
      && forall k :: 0 <= k < |s.fifo| ==> s.fifo[k].frame != grant.value.frame
  }

  ghost function FaultOutcome(s: Vm, live: set<nat>, grant: Option<Grant>): Outcome {
    if grant.Some? then Faulted
    else if Starved(s, live) then Undefined
    else if !Hit(s.tlb, s.fifo[0].page) then Retry
    else Faulted
  }

  /** The bytes of page `v` after a fault on it. */
  function FaultContent(s: Vm, v: nat, grant: Option<Grant>): Option<Bytes> {
    if grant.Some? then Some(grant.value.data) else SwappedIn(s, v)
  }

  /** First in, first out: the page goes to the end, and when there is no new frame the first one leaves. */
  function FaultFifo(s: Vm, v: nat, grant: Option<Grant>): seq<Resident> {
    if grant.Some? then s.fifo + [Resident(grant.value.frame, v)]
    else if s.fifo == [] then []
    else s.fifo[1..] + [Resident(s.fifo[0].frame, v)]
  }

  /** What a fault on `v` does: the outcome, the FIFO, the bytes of `v`, and no other page changes. */
  ghost predicate FaultDone(s: Vm, live: set<nat>, v: nat, grant: Option<Grant>, out: Outcome, s': Vm,
                            live': set<nat>) {
    && out == FaultOutcome(s, live, grant) && s'.frames.Keys == s.frames.Keys && (grant.Some? ==> live' == live)
    && (!out.Faulted? ==> Untouched(s, s'))
    && (forall p: nat :: p in s.frames && (grant.Some? || s.fifo == [] || p != s.fifo[0].frame) ==>
          s'.frames[p] == s.frames[p])
    && (out.Retry? ==> s'.fifo != [] && Hit(s'.tlb, s'.fifo[0].page))
    && (out.Faulted? ==> Lookup(s'.pgd, v).lo.v && s'.fifo == FaultFifo(s, v, grant))
    && (out.Faulted? ==> Content(s', v) == FaultContent(s, v, grant))
    && (out.Faulted? ==> s'.fifo != [] && Entries(s, v, grant, s'))
    && (forall u: nat :: u != v || !out.Faulted? ==> Content(s', u) == Content(s, u))
  }

  /** The page table after a fault on `v`: its entry has the new frame and keeps its swap block; the victim, if there
      is one, is no longer valid and keeps its swap block or gets its first one; all other entries are as before. */
  ghost predicate Entries(s: Vm, v: nat, grant: Option<Grant>, s': Vm)
    requires s'.fifo != []
  {
    && Lookup(s'.pgd, v) == Pte(MapTo(s'.fifo[|s'.fifo| - 1].frame), Lookup(s.pgd, v).info)
    && (grant.Some? ==> forall u: nat :: u != v ==> Lookup(s'.pgd, u) == Lookup(s.pgd, u))
    && (grant.None? && s.fifo != [] ==>
          && (forall u: nat :: u != v && u != s.fifo[0].page ==> Lookup(s'.pgd, u) == Lookup(s.pgd, u))
          && Lookup(s'.pgd, s.fifo[0].page).lo == Lookup(s.pgd, s.fifo[0].page).lo.(v := false)
          && Lookup(s'.pgd, s.fifo[0].page).info != 0
          && (Lookup(s.pgd, s.fifo[0].page).info != 0 ==>
                Lookup(s'.pgd, s.fifo[0].page).info == Lookup(s.pgd, s.fifo[0].page).info))
  }

  lemma {:induction false} SwapDone(s: Vm, live: set<nat>, v: nat, b: nat, s1: Vm, s2: Vm)
    requires PagingModel.Inv(s, live, -1) && !Lookup(s.pgd, v).lo.v && Evicted(s, v, b, s1) && GoodBlock(s, live, b)
    requires PagingModel.Inv(s1, live + {b}, v) && PgdOk(s2.pgd) && Mapped(s1, v, s2)
    requires !Starved(s, live) && Hit(s.tlb, s.fifo[0].page)
    ensures PagingModel.Inv(s2, live + {b}, -1) && FaultDone(s, live, v, None, Faulted, s2, live + {b})
  {
    VictimOk(s, live);
    SwapFault(s, live, v, b, s1, s2);
  }

  lemma {:induction false} NotDone(s: Vm, live: set<nat>, v: nat, out: Outcome, s': Vm, live': set<nat>)
    requires PagingModel.Inv(s, live, -1) && Untouched(s, s') && !out.Faulted? && out == FaultOutcome(s, live, None)
    requires out.Retry? ==> s'.fifo != [] && Hit(s'.tlb, s'.fifo[0].page)
    ensures FaultDone(s, live, v, None, out, s', live')
  {
    forall u: nat
      ensures Content(s', u) == Content(s, u)
    {
      UntouchedContent(s, live, s', u);
    }
  }

  /** The bytes of page `v` after an access to it. */
  function AccessContent(s: Vm, v: nat, grant: Option<Grant>): Option<Bytes> {
    if Lookup(s.pgd, v).lo.v then Content(s, v) else FaultContent(s, v, grant)
  }

  /** The grant of frame `f`, if any, when it holds `data`. */
  function GrantOf(f: Option<nat>, data: Bytes): Option<Grant> {
    if f.None? then None else Some(Grant(f.value, data))
  }

  /** Whatever the frames hold, an access gives a page that was used before its bytes back: exactly unless a new
      frame is taken for a page that has been evicted. */
  lemma {:induction false} AccessKeeps(s: Vm, v: nat, f: Option<nat>)
    requires Content(s, v).Some?
    ensures (forall data: Bytes :: AccessContent(s, v, GrantOf(f, data)) == Content(s, v))
            <==> Lookup(s.pgd, v).lo.v || f.None?
  {
    if !Lookup(s.pgd, v).lo.v && f.Some? {
      var other := Content(s, v).value + [0];
      assert AccessContent(s, v, GrantOf(f, other)) == Some(other);
    }
  }

  /** How many exceptions an access to `v` is away from a translation. */
  function Distance(s: Vm, v: nat): nat {
    if Hit(s.tlb, v) then 0
    else if Lookup(s.pgd, v).lo.v then 1
    else if s.fifo != [] && Hit(s.tlb, s.fifo[0].page) then 2
    else 3
  }

  // ---------------------------------------------------------------- a run that loses an evicted page

  /** `n` frames that all hold `b`. */
  function Memory(n: nat, b: Bytes): (m: map<nat, Bytes>)
    ensures forall p: nat :: p in m <==> p < n
    ensures forall p: nat :: p in m ==> m[p] == b
  {
    if n == 0 then map[] else Memory(n - 1, b)[n - 1 := b]
  }

  /** An address space of at most two frames over sixteen that all hold `b`. */
  method NewSpace(b: Bytes) returns (m: AddressSpace)
    ensures fresh(m) && fresh(m.pool) && fresh(m.zone) && m.Valid() && m.max == 2 && m.fifo == [] && m.pool.live == {}
    ensures {0, 1} <= FreeSet(m.zone.Z(), m.zone.lev) && forall p: nat :: p in m.frames ==> m.frames[p] == b
  {
    var zone := new BuddyZone.Init(0, 16);
    var pool := new PagePool();
    m := new AddressSpace(2, pool, zone, Memory(16, b), []);
    assert InZone(zone.Z(), 0) && InZone(zone.Z(), 1);
  }

  lemma {:induction false} SomeFree(z: Zone, lev: Tiling, q: nat)
    requires q in FreeSet(z, lev)
    ensures HasPage(z, lev)
  {
    assert FreeRun(z, lev, q, 0);
  }

  /** Only page `v` is resident, it holds `a` and is translated; every other frame holds `b`. */
  ghost predicate OnlyPage(m: AddressSpace, v: nat, a: Bytes, b: Bytes)
    reads m, m.pool, m.zone
  {
    && m.Valid() && m.max == 2 && |m.fifo| == 1 && m.fifo[0].page == v && m.pool.live == {}
    && Hit(m.tlb, v) && Content(m.S(), v) == Some(a)
    && forall p: nat :: p in m.frames && p != m.fifo[0].frame ==> m.frames[p] == b
  }

  /** Page 0 is used, and `a` stored in it. */
  method FirstPage(m: AddressSpace, a: Bytes, b: Bytes)
    requires m.Valid() && m.max == 2 && m.fifo == [] && m.pool.live == {} && {0, 1} <= FreeSet(m.zone.Z(), m.zone.lev)
    requires forall p: nat :: p in m.frames ==> m.frames[p] == b
    modifies m, m.pool, m.zone
    ensures OnlyPage(m, 0, a, b) && HasPage(m.zone.Z(), m.zone.lev)
  {
    assert ValidOk(m.S(), 0);
    MapZero(m, b);
    HitIsContent(m.S(), m.pool.live, 0);
    assert ValidOk(m.S(), 0) && ResidentOk(m.S(), -1, 0);
    m.Store(0, a);
  }

  method MapZero(m: AddressSpace, b: Bytes)
    requires m.Valid() && m.max == 2 && m.fifo == [] && m.pool.live == {} && {0, 1} <= FreeSet(m.zone.Z(), m.zone.lev)
    requires !Lookup(m.pgd, 0).lo.v && forall p: nat :: p in m.frames ==> m.frames[p] == b
    modifies m, m.pool, m.zone
    ensures m.Valid() && |m.fifo| == 1 && m.fifo[0].page == 0 && m.pool.live == {} && Hit(m.tlb, 0)
    ensures HasPage(m.zone.Z(), m.zone.lev) && forall p: nat :: p in m.frames ==> m.frames[p] == b
  {
    SomeFree(m.zone.Z(), m.zone.lev, 0);
    var out;
    ghost var grant;
    out, grant := m.TlbException(0, 0, []);
    SomeFree(m.zone.Z(), m.zone.lev, if grant.value.frame == 0 then 1 else 0);
    out, grant := m.TlbException(0, 0, []);
  }

  /** The rest of the kernel takes all pages that are left; `p` is one of them. */
  method TakeAll(m: AddressSpace) returns (p: Option<nat>)
    requires m.Valid()
    modifies m.zone
    ensures m.Valid() && !HasPage(m.zone.Z(), m.zone.lev)
    ensures p.Some? ==>
              HeldFrame(m.zone.Z(), m.zone.lev, p.value) && forall k :: 0 <= k < |m.fifo| ==> m.fifo[k].frame != p.value
    ensures p.Some? <==> HasPage(old(m.zone.Z()), old(m.zone.lev))
  {
    p := m.OtherTakes();
    if p.None? { return; }
    var more := p;
    while more.Some?
      invariant m.Valid() && p.Some? && HeldFrame(m.zone.Z(), m.zone.lev, p.value)
      invariant forall k :: 0 <= k < |m.fifo| ==> m.fifo[k].frame != p.value
      invariant more.None? ==> !HasPage(m.zone.Z(), m.zone.lev)
      decreases more.Some?, |FreeSet(m.zone.Z(), m.zone.lev)|
    {
      ghost var z, lev := m.zone.Z(), m.zone.lev;
      more := m.OtherTakes();
      if more.Some? {
        GrantTakes(z, lev, more.value, 0, Alloced, m.zone.Z(), m.zone.lev);
        p := more;
      }
    }
  }

  /** Page 1 takes the frame of page 0, which is evicted. */
  method SecondPage(m: AddressSpace, a: Bytes, b: Bytes)
    requires OnlyPage(m, 0, a, b) && !HasPage(m.zone.Z(), m.zone.lev)
    modifies m, m.pool, m.zone
    ensures m.Valid() && m.max == 2 && |m.fifo| == 1 && m.fifo[0].frame == old(m.fifo[0].frame)
    ensures Content(m.S(), 0) == Some(a) && !Lookup(m.pgd, 0).lo.v && m.zone.Z() == old(m.zone.Z())
    ensures m.zone.lev == old(m.zone.lev)
    ensures forall p: nat :: p in m.frames && p != m.fifo[0].frame ==> m.frames[p] == b
  {
    assert 1 !in m.pool.live && 1 <= MACHINE_PAGE_NUM;
    assert ValidOk(m.S(), 1);
    var out;
    ghost var grant;
    out, grant := m.TlbException(1, 0, []);
    assert ValidOk(m.S(), 0);
  }

  /** Page 0 was evicted while no frame was free; page `p` is in other hands, and no frame but that of page 1
      holds anything else than `b`. */
  method EvictZero(a: Bytes, b: Bytes) returns (m: AddressSpace, p: nat)
    ensures fresh(m) && fresh(m.pool) && fresh(m.zone) && m.Valid() && m.max == 2 && |m.fifo| == 1
    ensures Content(m.S(), 0) == Some(a) && !Lookup(m.pgd, 0).lo.v
    ensures HeldFrame(m.zone.Z(), m.zone.lev, p) && m.fifo[0].frame != p
    ensures forall q: nat :: q in m.frames && q != m.fifo[0].frame ==> m.frames[q] == b
  {
    m := NewSpace(b);
    FirstPage(m, a, b);
    var last := TakeAll(m);
    p := last.value;
    SecondPage(m, a, b);
  }

  /** A run in which an evicted page comes back with other bytes: page 0 is evicted while no frame is free,
      and faults again when one is. */
  method EvictedPageLost(a: Bytes, b: Bytes) returns (before: Option<Bytes>, after: Option<Bytes>)
    ensures before == Some(a) && after == Some(b)
  {
    var m, p := EvictZero(a, b);
    before := Content(m.S(), 0);
    m.OtherFrees(p);
    var out;
    ghost var grant;
    out, grant := m.TlbException(0, 0, []);
    after := Content(m.S(), 0);
  }
}
