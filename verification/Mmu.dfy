/**
 The address-space layout and the page-table words of include/mmu.h.

 A page-table word is kept as the pair (frame number, low twelve bits); the lemmas at
 the end tie that pair to the 32-bit number and the shifts that the C macros compute.
 */
module Mmu {
  const PAGE_SIZE: nat := 4096
  const PDMAP: nat := 4194304
  const ULIM: nat := 0x8000_0000
  const UVPT: nat := ULIM - PDMAP
  const UPAGES: nat := UVPT - PDMAP
  const UENVS: nat := UPAGES - PDMAP
  const UTOP: nat := UENVS
  const UTEXT: nat := PDMAP
  const UCOW: nat := UTEXT - PAGE_SIZE
  const UTEMP: nat := UCOW - PAGE_SIZE
  const USTACKTOP: nat := UTOP - 2 * PAGE_SIZE
  const NASID: nat := 256

  // Directory slots: user tables lie below PD_UTOP, then the two template slots, then the self-map.
  const PD_UTOP: nat := 509
  const PD_UENVS: nat := 509
  const PD_UPAGES: nat := 510
  const PD_UVPT: nat := 511

  const PTE_G: bv12 := 0x040
  const PTE_V: bv12 := 0x080
  const PTE_D: bv12 := 0x100
  const PTE_C_CACHEABLE: bv12 := 0x600
  const PTE_COW: bv12 := 0x001
  const PTE_LIBRARY: bv12 := 0x002

  function PDX(va: nat): nat { va / PDMAP % 1024 }

  function PTX(va: nat): nat { va / PAGE_SIZE % 1024 }

  function VPN(va: nat): nat { va / PAGE_SIZE }

  datatype Word = Word(ppn: nat, flags: bv12)

  const ZERO := Word(0, 0)

  type Table = t: seq<Word> | |t| == 1024 witness seq(1024, _ => Word(0, 0))

  predicate Valid(w: Word) { w.flags & PTE_V != 0 }

  predicate Writable(w: Word) { w.flags & PTE_D != 0 }

  /** page2pa(pp) | perm | PTE_C_CACHEABLE | PTE_V, the only way a user mapping is written. */
  function Entry(f: nat, perm: bv12): (w: Word)
    ensures Valid(w) && w.ppn == f
    ensures Writable(w) <==> perm & PTE_D != 0
    ensures w.flags & 0x680 == 0x680 && w.flags & 0x97f == perm & 0x97f
  {
    Word(f, perm | PTE_C_CACHEABLE | PTE_V)
  }

  /** One half of a TLB pair: EntryLo is the page-table word shifted right by six. */
  datatype EntryLo = EntryLo(pfn: nat, hw: bv12)

  function Shift6(w: Word): (lo: EntryLo)
    ensures LoValid(lo) <==> Valid(w)
    ensures LoWritable(lo) <==> Writable(w)
  {
    EntryLo(w.ppn, w.flags >> 6)
  }

  predicate LoValid(lo: EntryLo) { lo.hw & 2 != 0 }

  predicate LoWritable(lo: EntryLo) { lo.hw & 4 != 0 }

  // ---- the pairs above as the 32-bit numbers of the source ----

  function Value(w: Word): nat { w.ppn * 4096 + w.flags as int }

  function LoValue(lo: EntryLo): nat { lo.pfn * 64 + lo.hw as int }

  /** The layout and the flags as numbers. */
  lemma Constants()
    ensures UTEMP == 0x003f_e000 && UCOW == 0x003f_f000 && UTEXT == 0x0040_0000
    ensures USTACKTOP == 0x7f3f_e000 && UTOP == UENVS == 0x7f40_0000
    ensures UPAGES == 0x7f80_0000 && UVPT == 0x7fc0_0000 && ULIM == 0x8000_0000
    ensures PTE_G == 0x0001 << 6 && PTE_V == 0x0002 << 6 && PTE_D == 0x0004 << 6
    ensures PTE_C_CACHEABLE == 0x0018 << 6 && PTE_COW == 0x0001 && PTE_LIBRARY == 0x0002
  {
  }

  lemma LayoutSlots(va: nat)
    requires va < ULIM
    ensures PDX(va) < PD_UTOP <==> va < UTOP
    ensures PDX(va) == PD_UVPT <==> UVPT <= va
    ensures VPN(va) == PDX(va) * 1024 + PTX(va)
  {
  }

  lemma WordDecodes(w: Word)
    ensures Value(w) / 4096 == w.ppn
    ensures Value(w) % 4096 == w.flags as int
  {
  }

  lemma ShiftIsDivision(w: Word)
    ensures LoValue(Shift6(w)) == Value(w) / 64
  {
    FlagShift(w.flags);
  }

  lemma FlagShift(b: bv12)
    ensures (b >> 6) as int == (b as int) / 64
  {
  }
}
