/**
 The state of one address space: page table, TLB, FIFO of resident pages, physical frames and swap file
 (arch/mips32/tlb.c, kernel/vm/vm.c), with the invariant that ties them together.
 */
module PagingModel {
  import opened Words
  import opened Options
  import opened PageTables
  import opened PagePools

  const TLB_NUM: nat := 32

  /** A TLB entry: EntryHi and the two halves, for the even and the odd page. */
  datatype TlbEntry = TlbEntry(vpn2: nat, lo0: EntryLo, lo1: EntryLo)

  /** A struct page on mm->fifo: its frame and the page it is mapped at. */
  datatype Resident = Resident(frame: nat, page: nat)

  /** `file` is the swap file, block by block. */
  datatype Vm = Vm(pgd: Pgd, tlb: seq<TlbEntry>, fifo: seq<Resident>, frames: map<nat, Bytes>, file: seq<Bytes>)

  // ---------------------------------------------------------------- the TLB

  function Half(e: TlbEntry, v: nat): EntryLo {
    if v % 2 == 0 then e.lo0 else e.lo1
  }

  function WithHalf(e: TlbEntry, v: nat, lo: EntryLo): TlbEntry {
    if v % 2 == 0 then e.(lo0 := lo) else e.(lo1 := lo)
  }

  /** tlbp: the first entry from `i` on with the given VPN2. */
  function ProbeFrom(tlb: seq<TlbEntry>, vpn2: nat, i: nat): (r: Option<nat>)
    requires i <= |tlb|
    ensures r.Some? ==> i <= r.value < |tlb| && tlb[r.value].vpn2 == vpn2
    ensures r.None? ==> forall j :: i <= j < |tlb| ==> tlb[j].vpn2 != vpn2
    decreases |tlb| - i
  {
    if i == |tlb| then None
    else if tlb[i].vpn2 == vpn2 then Some(i)
    else ProbeFrom(tlb, vpn2, i + 1)
  }

  function Probe(tlb: seq<TlbEntry>, v: nat): (r: Option<nat>)
    ensures r.Some? ==> r.value < |tlb| && tlb[r.value].vpn2 == v / 2
    ensures r.None? ==> forall j :: 0 <= j < |tlb| ==> tlb[j].vpn2 != v / 2
  {
    ProbeFrom(tlb, v / 2, 0)
  }

  /** The hardware translates page `v`. */
  predicate Hit(tlb: seq<TlbEntry>, v: nat) {
    Probe(tlb, v).Some? && Half(tlb[Probe(tlb, v).value], v).v
  }

  function HitFrame(tlb: seq<TlbEntry>, v: nat): nat
    requires Hit(tlb, v)
  {
    Half(tlb[Probe(tlb, v).value], v).pfn
  }

  /** A half with V = 1 equals the page-table entry of its page. */
  predicate HalfOk(pgd: Pgd, lo: EntryLo, v: nat) {
    lo.v ==> lo == Lookup(pgd, v).lo
  }

  predicate EntryOk(pgd: Pgd, tlb: seq<TlbEntry>, i: nat) {
    i < |tlb| ==> HalfOk(pgd, tlb[i].lo0, 2 * tlb[i].vpn2) && HalfOk(pgd, tlb[i].lo1, 2 * tlb[i].vpn2 + 1)
  }

  /** No VPN2 appears twice. */
  ghost predicate Vpn2Once(tlb: seq<TlbEntry>) {
    forall i, j :: 0 <= i < j < |tlb| ==> tlb[i].vpn2 != tlb[j].vpn2
  }

  ghost predicate Coherent(pgd: Pgd, tlb: seq<TlbEntry>) {
    |tlb| == TLB_NUM && Vpn2Once(tlb) && forall i: nat :: EntryOk(pgd, tlb, i)
  }

  // ---------------------------------------------------------------- resident pages

  /** The page at position `k` of the FIFO is mapped to its frame; `pending` is a page whose entry is still
      to be written. */
  predicate ResidentOk(s: Vm, pending: int, k: nat) {
    k < |s.fifo| ==>
      && s.fifo[k].frame in s.frames
      && (s.fifo[k].page != pending ==> MapsTo(s.pgd, s.fifo[k].page, s.fifo[k].frame))
  }

  predicate MapsTo(pgd: Pgd, v: nat, f: nat) {
    Lookup(pgd, v).lo.v && Lookup(pgd, v).lo.pfn == f
  }

  predicate InFifo(fifo: seq<Resident>, v: nat) {
    exists k: nat :: k < |fifo| && fifo[k].page == v
  }

  /** A valid page is on the FIFO. */
  predicate ValidOk(s: Vm, v: nat) {
    Lookup(s.pgd, v).lo.v ==> InFifo(s.fifo, v)
  }

  /** No page and no frame is on the FIFO twice. */
  ghost predicate Apart(fifo: seq<Resident>) {
    forall j, k :: 0 <= j < k < |fifo| ==> fifo[j].page != fifo[k].page && fifo[j].frame != fifo[k].frame
  }

  ghost predicate FifoOk(s: Vm, pending: int) {
    && Apart(s.fifo) && (forall k: nat :: ResidentOk(s, pending, k)) && (forall v: nat :: ValidOk(s, v))
    && (pending >= 0 ==> s.fifo != [] && s.fifo[|s.fifo| - 1].page == pending && !Lookup(s.pgd, pending).lo.v)
  }

  // ---------------------------------------------------------------- swap blocks

  /** The swap block of page `v`, if it has one, is in use and inside the file. */
  predicate BlockOk(s: Vm, live: set<nat>, v: nat) {
    var b := Lookup(s.pgd, v).info;
    b != 0 ==> b in live && b <= |s.file|
  }

  /** Two pages never share a swap block. */
  predicate OwnBlock(pgd: Pgd, u: nat, v: nat) {
    u != v && Lookup(pgd, u).info != 0 ==> Lookup(pgd, u).info != Lookup(pgd, v).info
  }

  ghost predicate BlocksOk(s: Vm, live: set<nat>) {
    (forall v: nat :: BlockOk(s, live, v)) && (forall u: nat, v: nat :: OwnBlock(s.pgd, u, v))
  }

  ghost predicate Inv(s: Vm, live: set<nat>, pending: int) {
    PgdOk(s.pgd) && Coherent(s.pgd, s.tlb) && FifoOk(s, pending) && BlocksOk(s, live)
  }

  // ---------------------------------------------------------------- what it means

  /** The bytes of page `v`: in its frame when it is resident, in its swap block when it was evicted, and
      None when it was never touched. */
  function Content(s: Vm, v: nat): Option<Bytes> {
    var e := Lookup(s.pgd, v);
    if e.lo.v then (if e.lo.pfn in s.frames then Some(s.frames[e.lo.pfn]) else None)
    else if 1 <= e.info <= |s.file| then Some(s.file[e.info - 1])
    else None
  }

  /** The TLB translates to the frame that holds the bytes of the page. */
  lemma {:induction false} HitIsContent(s: Vm, live: set<nat>, v: nat)
    requires Inv(s, live, -1) && Hit(s.tlb, v)
    ensures Lookup(s.pgd, v).lo.v && Lookup(s.pgd, v).lo.pfn == HitFrame(s.tlb, v)
    ensures HitFrame(s.tlb, v) in s.frames && Content(s, v) == Some(s.frames[HitFrame(s.tlb, v)])
  {
    var i := Probe(s.tlb, v).value;
    assert EntryOk(s.pgd, s.tlb, i);
    assert v == 2 * (v / 2) + v % 2;
    assert ValidOk(s, v);
    var k: nat :| k < |s.fifo| && s.fifo[k].page == v;
    assert ResidentOk(s, -1, k);
  }

  /** No two pages share a frame. */
  lemma {:induction false} FramesApart(s: Vm, live: set<nat>, u: nat, v: nat)
    requires Inv(s, live, -1) && u != v && Lookup(s.pgd, u).lo.v && Lookup(s.pgd, v).lo.v
    ensures Lookup(s.pgd, u).lo.pfn != Lookup(s.pgd, v).lo.pfn
  {
    assert ValidOk(s, u) && ValidOk(s, v);
    var j: nat :| j < |s.fifo| && s.fifo[j].page == u;
    var k: nat :| k < |s.fifo| && s.fifo[k].page == v;
    assert ResidentOk(s, -1, j) && ResidentOk(s, -1, k);
  }

  // ---------------------------------------------------------------- steps

  /** The pair of entries __tlb_refill loads for page `v`. */
  function PairOf(pgd: Pgd, v: nat): TlbEntry {
    TlbEntry(v / 2, Lookup(pgd, 2 * (v / 2)).lo, Lookup(pgd, 2 * (v / 2) + 1).lo)
  }

  /** Writing that pair over the entry with the same VPN2, or anywhere when there is none. */
  lemma {:induction false} RefillCoherent(pgd: Pgd, tlb: seq<TlbEntry>, v: nat, i: nat)
    requires Coherent(pgd, tlb) && i < TLB_NUM && (Probe(tlb, v) == None || Probe(tlb, v) == Some(i))
    ensures Coherent(pgd, tlb[i := PairOf(pgd, v)])
    ensures Lookup(pgd, v).lo.v ==> Hit(tlb[i := PairOf(pgd, v)], v)
  {
    var t := tlb[i := PairOf(pgd, v)];
    forall j: nat
      ensures EntryOk(pgd, t, j)
    {
      assert EntryOk(pgd, tlb, j);
    }
    assert v == 2 * (v / 2) + v % 2;
    assert t[i].vpn2 == v / 2;
  }

  /** Writing over an entry whose page-table entry is not valid keeps the TLB coherent, ... */
  lemma {:induction false} MapCoherent(pgd: Pgd, tlb: seq<TlbEntry>, v: nat, pgd': Pgd)
    requires Coherent(pgd, tlb) && (Lookup(pgd, v).lo.v ==> Lookup(pgd', v).lo == Lookup(pgd, v).lo)
    requires forall u: nat :: u != v ==> Lookup(pgd', u).lo == Lookup(pgd, u).lo
    ensures Coherent(pgd', tlb)
  {
    forall i: nat
      ensures EntryOk(pgd', tlb, i)
    {
      assert EntryOk(pgd, tlb, i);
    }
  }

  /** ... and invalidating an entry does after tlb_reset. */
  lemma {:induction false} ResetCoherent(pgd: Pgd, tlb: seq<TlbEntry>, v: nat, pgd': Pgd)
    requires Coherent(pgd, tlb) && (forall u: nat :: u != v ==> Lookup(pgd', u).lo == Lookup(pgd, u).lo)
    ensures Coherent(pgd', AfterReset(pgd', tlb, v))
    ensures Hit(AfterReset(pgd', tlb, v), v) ==> Lookup(pgd', v).lo.v
  {
    var t := AfterReset(pgd', tlb, v);
    assert v == 2 * (v / 2) + v % 2;
    forall i: nat
      ensures EntryOk(pgd', t, i)
    {
      assert EntryOk(pgd, tlb, i);
    }
    var p := Probe(tlb, v);
    if p.Some? && Probe(t, v).Some? { assert t[p.value].vpn2 == v / 2; }
  }

  /** tlb_reset: the half of page `v` in the entry that has it takes the page-table entry. */
  function AfterReset(pgd: Pgd, tlb: seq<TlbEntry>, v: nat): seq<TlbEntry> {
    var p := Probe(tlb, v);
    if p.None? then tlb else tlb[p.value := WithHalf(tlb[p.value], v, Lookup(pgd, v).lo)]
  }

  /** Page `v` goes to the end of the FIFO on frame `f`, whose bytes are `data`; its page-table entry is still
      to be written. */
  ghost predicate Queued(s: Vm, v: nat, f: nat, data: Bytes, s': Vm) {
    s' == s.(pgd := s'.pgd, fifo := s.fifo + [Resident(f, v)], frames := s.frames[f := data])
    && forall u: nat :: Lookup(s'.pgd, u) == Lookup(s.pgd, u)
  }

  lemma {:induction false} QueuedInv(s: Vm, live: set<nat>, v: nat, f: nat, data: Bytes, s': Vm)
    requires Inv(s, live, -1) && !Lookup(s.pgd, v).lo.v && PgdOk(s'.pgd) && Queued(s, v, f, data, s')
    requires forall k :: 0 <= k < |s.fifo| ==> s.fifo[k].frame != f
    ensures Inv(s', live, v)
  {
    MapCoherent(s.pgd, s.tlb, v, s'.pgd);
    forall k: nat
      ensures ResidentOk(s', v, k)
      ensures k < |s.fifo| ==> s.fifo[k].page != v
    {
      assert ResidentOk(s, -1, k);
    }
    forall u: nat
      ensures ValidOk(s', u) && BlockOk(s', live, u)
    {
      assert ValidOk(s, u) && BlockOk(s, live, u);
      if k: nat :| k < |s.fifo| && s.fifo[k].page == u { assert s'.fifo[k].page == u; }
    }
    forall u: nat, w: nat
      ensures OwnBlock(s'.pgd, u, w)
    {
      assert OwnBlock(s.pgd, u, w);
    }
  }

  /** The oldest resident page was written to swap block `b` and unmapped, and its frame went to the end of
      the FIFO, for page `v`, with the bytes of the swap block of `v` if it has one. */
  ghost predicate Evicted(s: Vm, v: nat, b: nat, s': Vm) {
    && s.fifo != [] && s.fifo[0].frame in s.frames && s'.fifo == s.fifo[1..] + [Resident(s.fifo[0].frame, v)]
    && Lookup(s'.pgd, s.fifo[0].page) == Pte(Lookup(s.pgd, s.fifo[0].page).lo.(v := false), b)
    && (forall u: nat :: u != s.fifo[0].page ==> Lookup(s'.pgd, u) == Lookup(s.pgd, u))
    && 1 <= b <= |s.file| + 1 && FileWritten(s.file, b, s.frames[s.fifo[0].frame], s'.file)
    && s'.frames == s.frames[s.fifo[0].frame := Loaded(s'.file, Lookup(s.pgd, v).info, s.frames[s.fifo[0].frame])]
  }

  /** Block `b` of the file holds `data` now; the other blocks are as before. */
  ghost predicate FileWritten(file: seq<Bytes>, b: nat, data: Bytes, file': seq<Bytes>) {
    && 1 <= b <= |file'| && |file| <= |file'| && file'[b - 1] == data
    && forall j :: 0 <= j < |file| && j != b - 1 ==> file'[j] == file[j]
  }

  /** load_page_from_disk: a page without a swap block leaves the frame alone. */
  function Loaded(file: seq<Bytes>, info: nat, data: Bytes): Bytes {
    if 1 <= info <= |file| then file[info - 1] else data
  }

  /** Block `b` is the one the page has, or a new one. */
  predicate GoodBlock(s: Vm, live: set<nat>, b: nat)
    requires s.fifo != []
  {
    var info := Lookup(s.pgd, s.fifo[0].page).info;
    b != 0 && (b == info || (info == 0 && b !in live))
  }

  lemma {:induction false} VictimOk(s: Vm, live: set<nat>)
    requires Inv(s, live, -1) && s.fifo != []
    ensures var x := s.fifo[0]; x.frame in s.frames && MapsTo(s.pgd, x.page, x.frame)
  {
    assert ResidentOk(s, -1, 0);
  }

  lemma {:induction false} EvictedInv(s: Vm, live: set<nat>, v: nat, b: nat, s': Vm)
    requires Inv(s, live, -1) && !Lookup(s.pgd, v).lo.v && Evicted(s, v, b, s') && GoodBlock(s, live, b)
    requires PgdOk(s'.pgd) && Coherent(s'.pgd, s'.tlb)
    ensures Inv(s', live + {b}, v)
  {
    VictimOk(s, live);
    EvictedFifo(s, live, v, b, s');
    forall u: nat
      ensures BlockOk(s', live + {b}, u)
    {
      assert BlockOk(s, live, u);
    }
    forall u: nat, w: nat
      ensures OwnBlock(s'.pgd, u, w)
    {
      assert OwnBlock(s.pgd, u, w) && BlockOk(s, live, u) && BlockOk(s, live, w);
    }
  }

  lemma {:induction false} EvictedFifo(s: Vm, live: set<nat>, v: nat, b: nat, s': Vm)
    requires Inv(s, live, -1) && !Lookup(s.pgd, v).lo.v && Evicted(s, v, b, s')
    ensures FifoOk(s', v)
  {
    VictimOk(s, live);
    forall k: nat
      ensures ResidentOk(s', v, k)
      ensures k < |s.fifo| ==> s.fifo[k].page != v
    {
      assert ResidentOk(s, -1, k) && ResidentOk(s, -1, k + 1);
    }
    forall u: nat
      ensures ValidOk(s', u)
    {
      assert ValidOk(s, u);
      if k: nat :| k < |s.fifo| && s.fifo[k].page == u {
        if k > 0 { assert s'.fifo[k - 1].page == u; }
      }
    }
  }

  /** The last step of do_pagefault: the entry of the pending page is written. */
  ghost predicate Mapped(s: Vm, v: nat, s': Vm) {
    && s.fifo != [] && s' == s.(pgd := s'.pgd)
    && Lookup(s'.pgd, v) == Pte(MapTo(s.fifo[|s.fifo| - 1].frame), Lookup(s.pgd, v).info)
    && forall u: nat :: u != v ==> Lookup(s'.pgd, u) == Lookup(s.pgd, u)
  }

  lemma {:induction false} MappedInv(s: Vm, live: set<nat>, v: nat, s': Vm)
    requires Inv(s, live, v) && PgdOk(s'.pgd) && Mapped(s, v, s')
    ensures Inv(s', live, -1)
  {
    MapCoherent(s.pgd, s.tlb, v, s'.pgd);
    forall k: nat
      ensures ResidentOk(s', -1, k)
    {
      assert ResidentOk(s, v, k);
    }
    forall u: nat
      ensures ValidOk(s', u) && BlockOk(s', live, u)
    {
      assert ValidOk(s, u) && BlockOk(s, live, u);
      if u == v { assert s'.fifo[|s'.fifo| - 1].page == u; }
    }
    forall u: nat, w: nat
      ensures OwnBlock(s'.pgd, u, w)
    {
      assert OwnBlock(s.pgd, u, w);
    }
  }

  // ---------------------------------------------------------------- contents

  /** Evicting and mapping moves bytes around and changes the contents of no page but `v`. */
  lemma {:induction false} EvictedContent(s: Vm, live: set<nat>, v: nat, b: nat, s': Vm, u: nat)
    requires Inv(s, live, -1) && !Lookup(s.pgd, v).lo.v && Evicted(s, v, b, s') && GoodBlock(s, live, b) && u != v
    ensures Content(s', u) == Content(s, u)
  {
    VictimOk(s, live);
    var x := s.fifo[0].page;
    assert OwnBlock(s.pgd, u, x) && BlockOk(s, live, u);
    if u != x && Lookup(s.pgd, u).lo.v { FramesApart(s, live, u, x); }
  }

  /** The frame given to `v` holds the bytes `v` had when it was last evicted. */
  lemma {:induction false} EvictedLoads(s: Vm, live: set<nat>, v: nat, b: nat, s': Vm)
    requires Inv(s, live, -1) && !Lookup(s.pgd, v).lo.v && Evicted(s, v, b, s') && GoodBlock(s, live, b)
    ensures s.fifo[0].frame in s'.frames
    ensures Content(s, v).Some? ==> s'.frames[s.fifo[0].frame] == Content(s, v).value
    ensures Content(s, v).None? ==> Content(s, s.fifo[0].page) == Some(s'.frames[s.fifo[0].frame])
  {
    VictimOk(s, live);
    assert OwnBlock(s.pgd, v, s.fifo[0].page) && BlockOk(s, live, v);
  }

  lemma {:induction false} QueuedContent(s: Vm, live: set<nat>, v: nat, f: nat, data: Bytes, s': Vm, u: nat)
    requires Inv(s, live, -1) && Queued(s, v, f, data, s') && (forall k :: 0 <= k < |s.fifo| ==> s.fifo[k].frame != f)
    ensures Content(s', u) == Content(s, u)
  {
    if Lookup(s.pgd, u).lo.v {
      assert ValidOk(s, u);
      var k: nat :| k < |s.fifo| && s.fifo[k].page == u;
      assert ResidentOk(s, -1, k);
    }
  }

  lemma {:induction false} MappedContent(s: Vm, live: set<nat>, v: nat, s': Vm, u: nat)
    requires Inv(s, live, v) && Mapped(s, v, s')
    ensures u != v ==> Content(s', u) == Content(s, u)
    ensures var f := s.fifo[|s.fifo| - 1].frame; f in s.frames && Content(s', v) == Some(s.frames[f])
  {
    assert ResidentOk(s, v, |s.fifo| - 1);
  }

  // ---------------------------------------------------------------- steps that move nothing

  /** The file may have grown at its end, the TLB and the set of second-level tables may have changed. */
  ghost predicate Untouched(s: Vm, s': Vm) {
    && s'.fifo == s.fifo && s'.frames == s.frames && |s.file| <= |s'.file| && s'.file[..|s.file|] == s.file
    && forall u: nat :: Lookup(s'.pgd, u) == Lookup(s.pgd, u)
  }

  lemma {:induction false} UntouchedInv(s: Vm, live: set<nat>, s': Vm, live': set<nat>)
    requires Inv(s, live, -1) && Untouched(s, s') && live <= live' && PgdOk(s'.pgd) && Coherent(s'.pgd, s'.tlb)
    ensures Inv(s', live', -1)
  {
    forall k: nat
      ensures ResidentOk(s', -1, k)
    {
      assert ResidentOk(s, -1, k);
    }
    forall u: nat
      ensures ValidOk(s', u) && BlockOk(s', live', u)
    {
      assert ValidOk(s, u) && BlockOk(s, live, u);
    }
    forall u: nat, w: nat
      ensures OwnBlock(s'.pgd, u, w)
    {
      assert OwnBlock(s.pgd, u, w);
    }
  }

  lemma {:induction false} UntouchedContent(s: Vm, live: set<nat>, s': Vm, u: nat)
    requires Inv(s, live, -1) && Untouched(s, s')
    ensures Content(s', u) == Content(s, u)
  {
    assert BlockOk(s, live, u);
  }

  /** Every swap block is in use. */
  ghost predicate AllUsed(live: set<nat>) {
    forall b: nat :: 1 <= b <= MACHINE_PAGE_NUM ==> b in live
  }

  /** There is no page to evict, or no swap block to put it into. */
  ghost predicate Starved(s: Vm, live: set<nat>) {
    s.fifo == [] || (Lookup(s.pgd, s.fifo[0].page).info == 0 && AllUsed(live))
  }

  /** A resident page was written to. */
  lemma {:induction false} StoredOk(s: Vm, live: set<nat>, v: nat, data: Bytes)
    requires Inv(s, live, -1) && Lookup(s.pgd, v).lo.v
    ensures var s' := s.(frames := s.frames[Lookup(s.pgd, v).lo.pfn := data]);
            Inv(s', live, -1) && Content(s', v) == Some(data)
                && forall u: nat :: u != v ==> Content(s', u) == Content(s, u)
  {
    var s' := s.(frames := s.frames[Lookup(s.pgd, v).lo.pfn := data]);
    forall k: nat
      ensures ResidentOk(s', -1, k)
    {
      assert ResidentOk(s, -1, k);
    }
    forall u: nat
      ensures ValidOk(s', u) && BlockOk(s', live, u) && (u != v ==> Content(s', u) == Content(s, u))
    {
      assert ValidOk(s, u) && BlockOk(s, live, u);
      if u != v && Lookup(s.pgd, u).lo.v { FramesApart(s, live, u, v); }
    }
  }

  /** The oldest resident page was unmapped and left the FIFO. */
  lemma {:induction false} DroppedInv(s: Vm, live: set<nat>, s': Vm)
    requires Inv(s, live, -1) && s.fifo != [] && s' == s.(pgd := s'.pgd, tlb := s'.tlb, fifo := s.fifo[1..])
    requires PgdOk(s'.pgd) && Coherent(s'.pgd, s'.tlb)
    requires Lookup(s'.pgd, s.fifo[0].page) == Pte(Lookup(s.pgd, s.fifo[0].page).lo.(v := false),
        Lookup(s.pgd, s.fifo[0].page).info)
    requires forall u: nat :: u != s.fifo[0].page ==> Lookup(s'.pgd, u) == Lookup(s.pgd, u)
    ensures Inv(s', live, -1)
  {
    forall k: nat
      ensures ResidentOk(s', -1, k)
    {
      assert ResidentOk(s, -1, k + 1);
    }
    forall u: nat
      ensures ValidOk(s', u) && BlockOk(s', live, u)
    {
      assert ValidOk(s, u) && BlockOk(s, live, u);
      if k: nat :| k < |s.fifo| && s.fifo[k].page == u {
        if k > 0 { assert s'.fifo[k - 1].page == u; }
      }
    }
    forall u: nat, w: nat
      ensures OwnBlock(s'.pgd, u, w)
    {
      assert OwnBlock(s.pgd, u, w);
    }
  }

  /** With an empty FIFO nothing is mapped, neither in the page table nor in the TLB. */
  lemma {:induction false} NothingMapped(s: Vm, live: set<nat>)
    requires Inv(s, live, -1) && s.fifo == []
    ensures forall v: nat :: !Lookup(s.pgd, v).lo.v
    ensures forall i: nat :: i < TLB_NUM ==> !s.tlb[i].lo0.v && !s.tlb[i].lo1.v
  {
    forall v: nat
      ensures !Lookup(s.pgd, v).lo.v
    {
      assert ValidOk(s, v);
    }
    forall i: nat | i < TLB_NUM
      ensures !s.tlb[i].lo0.v && !s.tlb[i].lo1.v
    {
      assert EntryOk(s.pgd, s.tlb, i);
    }
  }

  // ---------------------------------------------------------------- whole page faults

  /** A fault on `v` that took frame `f` with bytes `data`. */
  lemma {:induction false} FreshFault(s: Vm, live: set<nat>, v: nat, f: nat, data: Bytes, s1: Vm, s2: Vm)
    requires Inv(s, live, -1) && !Lookup(s.pgd, v).lo.v && (forall k :: 0 <= k < |s.fifo| ==> s.fifo[k].frame != f)
    requires PgdOk(s1.pgd) && Queued(s, v, f, data, s1) && PgdOk(s2.pgd) && Mapped(s1, v, s2)
    ensures Inv(s2, live, -1) && Content(s2, v) == Some(data)
    ensures forall u: nat :: u != v ==> Content(s2, u) == Content(s, u)
  {
    QueuedInv(s, live, v, f, data, s1);
    MappedInv(s1, live, v, s2);
    forall u: nat
      ensures u != v ==> Content(s2, u) == Content(s, u)
      ensures Content(s2, v) == Some(data)
    {
      QueuedContent(s, live, v, f, data, s1, u);
      MappedContent(s1, live, v, s2, u);
    }
  }

  /** A fault on `v` that evicted the oldest resident page. */
  lemma {:induction false} SwapFault(s: Vm, live: set<nat>, v: nat, b: nat, s1: Vm, s2: Vm)
    requires Inv(s, live, -1) && !Lookup(s.pgd, v).lo.v && Evicted(s, v, b, s1) && GoodBlock(s, live, b)
    requires Inv(s1, live + {b}, v) && PgdOk(s2.pgd) && Mapped(s1, v, s2)
    ensures Inv(s2, live + {b}, -1) && Content(s2, v) == SwappedIn(s, v)
    ensures forall u: nat :: u != v ==> Content(s2, u) == Content(s, u)
  {
    MappedInv(s1, live + {b}, v, s2);
    EvictedLoads(s, live, v, b, s1);
    forall u: nat
      ensures u != v ==> Content(s2, u) == Content(s, u)
      ensures Content(s2, v) == SwappedIn(s, v)
    {
      if u != v { EvictedContent(s, live, v, b, s1, u); }
      MappedContent(s1, live + {b}, v, s2, u);
    }
  }

  /** The bytes of a page that is swapped in: those it was evicted with, or on its first use those of the
      victim, whose frame it gets as it is. */
  function SwappedIn(s: Vm, v: nat): Option<Bytes> {
    if Content(s, v).Some? || s.fifo == [] then Content(s, v) else Content(s, s.fifo[0].page)
  }

  /** An eviction from a state in which the file has just grown. */
  lemma {:induction false} EvictedFrom(s: Vm, s1: Vm, v: nat, b: nat, s2: Vm)
    requires Untouched(s, s1) && Evicted(s1, v, b, s2) && b <= |s.file| + 1
    ensures Evicted(s, v, b, s2)
  {
    assert forall j :: 0 <= j < |s.file| ==> s.file[j] == s1.file[..|s.file|][j] == s1.file[j];
  }
}
