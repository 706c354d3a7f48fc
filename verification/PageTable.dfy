/**
 Page table entries and the two-level page table of kernel/vm/vm.c, whose second level is allocated on
 first use.
 */
module PageTables {
  import opened Division

  const PTE_NUM: nat := 1024
  const VPN_NUM: nat := 0x10_0000

  /** union EntryLo */
  datatype EntryLo = EntryLo(g: bool, v: bool, d: bool, c: nat, pfn: nat)

  /** pte_t: the TLB half and the number of the swap block, 0 for none. */
  datatype Pte = Pte(lo: EntryLo, info: nat)

  const ZERO_PTE: Pte := Pte(EntryLo(false, false, false, 0, 0), 0)

  /** The entry do_pagefault writes for frame `pfn`. */
  function MapTo(pfn: nat): EntryLo {
    EntryLo(true, true, true, 3, pfn)
  }

  /** The fields of a 32-bit EntryLo word. */
  function DecodeLo(w: nat): EntryLo {
    EntryLo(w % 2 == 1, w / 2 % 2 == 1, w / 4 % 2 == 1, w / 8 % 8, w / 64 % 0x100_0000)
  }

  lemma Field(w: nat, d: nat, q: nat, r: nat)
    requires (d == 2 || d == 4 || d == 8 || d == 64) && w == d * q + r && r < d
    ensures w / d == q && w % d == r
  {
    DivUnique(w, d, q, r);
  }

  /** ((paddr >> 12) << 6) | 0x1f, for a frame below 2^24, decodes to a valid, writable, global entry. */
  lemma LoWord(pfn: nat)
    requires pfn < 0x100_0000
    ensures DecodeLo(pfn * 64 + 0x1f) == MapTo(pfn)
  {
    Field(pfn * 64 + 0x1f, 2, pfn * 32 + 15, 1);
    Field(pfn * 64 + 0x1f, 4, pfn * 16 + 7, 3);
    Field(pfn * 64 + 0x1f, 8, pfn * 8 + 3, 7);
    Field(pfn * 64 + 0x1f, 64, pfn, 31);
    Field(pfn * 32 + 15, 2, pfn * 16 + 7, 1);
    Field(pfn * 16 + 7, 2, pfn * 8 + 3, 1);
    Field(pfn * 8 + 3, 8, pfn, 3);
  }

  // The indexes get_pte and addr_bind_to_lo1 cut out of a 32-bit address.

  function PgdIndex(addr: nat): nat {
    addr / 0x40_0000
  }

  function PteIndex(addr: nat): nat {
    addr * 0x400 % 0x1_0000_0000 / 0x40_0000
  }

  function BindsToLo1(addr: nat): bool {
    addr * 0x8_0000 % 0x1_0000_0000 / 0x8000_0000 == 1
  }

  /** They depend on the page number alone, which they determine. */
  lemma IndexesSplitThePageNumber(addr: nat)
    requires addr < 0x1_0000_0000
    ensures var v := addr / 0x1000;
            && v < VPN_NUM && PgdIndex(addr) == v / PTE_NUM && PteIndex(addr) == v % PTE_NUM
            && v == PgdIndex(addr) * PTE_NUM + PteIndex(addr)
            && (BindsToLo1(addr) <==> v % 2 == 1)
  {
    SecondIndex(addr);
    HalfBit(addr);
  }

  lemma SecondIndex(addr: nat)
    requires addr < 0x1_0000_0000
    ensures PteIndex(addr) == addr / 0x1000 % 1024 && addr / 0x40_0000 == addr / 0x1000 / 1024
  {
    var t, r := addr / 0x40_0000, addr % 0x40_0000;
    assert addr * 0x400 == t * 0x1_0000_0000 + r * 0x400;
    assert addr * 0x400 % 0x1_0000_0000 == r * 0x400;
  }

  lemma HalfBit(addr: nat)
    requires addr < 0x1_0000_0000
    ensures BindsToLo1(addr) <==> addr / 0x1000 % 2 == 1
  {
    var h, s := addr / 0x2000, addr % 0x2000;
    var b := if s < 0x1000 then 0 else 1;
    Shifted(h, b, s - b * 0x1000);
    assert addr == h * 0x2000 + b * 0x1000 + (s - b * 0x1000);
  }

  /** The address with page number 2 * h + b and offset `o`, shifted left by 19 bits. */
  lemma Shifted(h: nat, b: nat, o: nat)
    requires b < 2 && o < 0x1000
    ensures var addr := h * 0x2000 + b * 0x1000 + o;
            addr / 0x1000 == 2 * h + b && addr * 0x8_0000 % 0x1_0000_0000 == b * 0x8000_0000 + o * 0x8_0000
  {
  }

  /** The first level: the second-level tables allocated so far. */
  type Pgd = map<nat, seq<Pte>>

  ghost predicate PgdOk(pgd: Pgd) {
    forall i: nat :: i in pgd ==> |pgd[i]| == PTE_NUM
  }

  function NewTable(): (t: seq<Pte>)
    ensures |t| == PTE_NUM && forall j :: 0 <= j < PTE_NUM ==> t[j] == ZERO_PTE
  {
    seq(PTE_NUM, _ => ZERO_PTE)
  }

  /** The page table as a flat map: a page without a second-level table has the zero entry. */
  function Lookup(pgd: Pgd, v: nat): Pte {
    if v / PTE_NUM in pgd && |pgd[v / PTE_NUM]| == PTE_NUM then pgd[v / PTE_NUM][v % PTE_NUM] else ZERO_PTE
  }

  /** Writing through the pointer get_pte returned. */
  function Update(pgd: Pgd, v: nat, e: Pte): Pgd
    requires v / PTE_NUM in pgd && |pgd[v / PTE_NUM]| == PTE_NUM
  {
    pgd[v / PTE_NUM := pgd[v / PTE_NUM][v % PTE_NUM := e]]
  }

  lemma {:induction false} UpdateOne(pgd: Pgd, v: nat, e: Pte)
    requires PgdOk(pgd) && v / PTE_NUM in pgd
    ensures PgdOk(Update(pgd, v, e)) && v / PTE_NUM in Update(pgd, v, e)
    ensures forall u: nat :: Lookup(Update(pgd, v, e), u) == if u == v then e else Lookup(pgd, u)
  {
  }

  /** get_pte: makes sure that the second-level table exists, and changes no entry by that. */
  method GetPte(pgd: Pgd, v: nat) returns (r: Pgd)
    requires PgdOk(pgd)
    ensures PgdOk(r) && v / PTE_NUM in r && (forall u: nat :: Lookup(r, u) == Lookup(pgd, u))
    ensures forall i: nat :: i in r <==> i in pgd || i == v / PTE_NUM
  {
    r := pgd;
    if v / PTE_NUM !in pgd {
      r := r[v / PTE_NUM := NewTable()];
    }
  }
}
