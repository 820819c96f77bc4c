/**
 What the hardware adds to the TLB of VmState: a pair whose two halves both carry the global
 bit matches under every ASID. System calls pass the permission bits of user code through, so
 whether the TLB is still coherent depends on that bit, here to the exact condition.
 */
module VmGlobal {
  import opened Wrappers
  import opened Mmu
  import opened VmState
  import opened VmOps
  import opened VmEnv
  import opened VmRun
  import opened VmLimits

  predicate Global(lo: EntryLo) { lo.hw & 1 != 0 }

  /** A pair is global when both halves say so; then its ASID is not compared. */
  predicate GlobalPair(p: TlbPair) { Global(p.even) && Global(p.odd) }

  predicate Matches(k: TlbKey, p: TlbPair, asid: nat) { k.asid == asid || GlobalPair(p) }

  /** The half is the current word of env `e` for that page. */
  predicate Shows(s: Vm, k: TlbKey, h: nat, e: nat)
    requires k in s.tlb
  {
    var w := WalkWord(s, e, k.pd, 2 * k.pair + h);
    w.Some? && s.tlb[k].Half(h) == Shift6(w.value)
  }

  /** Whatever the hardware may use for a live env is that env's current word. */
  ghost predicate Coherent(s: Vm) {
    forall k, h, e: nat | k in s.tlb && 0 <= h <= 1 && LoValid(s.tlb[k].Half(h)) && Live(s, e) &&
                          Matches(k, s.tlb[k], s.envs[e].asid) ::
      Shows(s, k, h, e)
  }

  /** Every private page in a global pair is mapped by the same word in every live env. */
  ghost predicate GlobalsAgree(s: Vm) {
    forall k, h, e: nat | k in s.tlb && 0 <= h <= 1 && LoValid(s.tlb[k].Half(h)) && Live(s, e) &&
                          GlobalPair(s.tlb[k]) && Private(k.pd, 2 * k.pair + h) ::
      Shows(s, k, h, e)
  }

  /** The pages of the shared template are the same word in every env. */
  lemma TemplateShows(s: Vm, k: TlbKey, h: nat, e: nat)
    requires Inv(s) && k in s.tlb && h <= 1 && LoValid(s.tlb[k].Half(h)) && Live(s, e)
    requires !Private(k.pd, 2 * k.pair + h)
    ensures Shows(s, k, h, e)
  {
    assert HalfOk(s, k, h);
    LeafFacts(s, e, 0, 0);
    assert DirOk(s, e);
  }

  /** The TLB is coherent under hardware matching if and only if the global pairs agree. */
  lemma CoherentExact(s: Vm)
    requires Inv(s)
    ensures Coherent(s) <==> GlobalsAgree(s)
  {
    hide Inv;
    if GlobalsAgree(s) {
      forall k, h, e: nat | k in s.tlb && 0 <= h <= 1 && LoValid(s.tlb[k].Half(h)) && Live(s, e) &&
                            Matches(k, s.tlb[k], s.envs[e].asid)
        ensures Shows(s, k, h, e)
      {
        if k.asid == s.envs[e].asid {
          TlbCoherent(s, k, h, e);
        } else if !Private(k.pd, 2 * k.pair + h) {
          TemplateShows(s, k, h, e);
        }
      }
    }
  }

  // ---- no global bit, no global pair ----

  /** No user page is mapped with the global bit. */
  ghost predicate NoGlobals(s: Vm) {
    forall e: nat, pd: nat, pt: nat :: NotGlobal(Translate(s, e, pd, pt))
  }

  predicate NotGlobal(w: Option<Word>) { w.Some? ==> w.value.flags & PTE_G == 0 }

  lemma GlobalBit(w: Word)
    ensures Global(Shift6(w)) <==> w.flags & PTE_G != 0
  {
    assert (w.flags >> 6) & 1 != 0 <==> w.flags & 0x040 != 0;
  }

  lemma EntryGlobal(f: nat, perm: bv12)
    ensures Entry(f, perm).flags & PTE_G == perm & PTE_G
  {
    assert (perm | 0x600 | 0x080) & 0x040 == perm & 0x040;
  }

  /** A word of one env's own, links of its directory included, has the bit only if a user page has. */
  lemma PrivateWord(s: Vm, e: nat, pd: nat, pt: nat)
    requires Inv(s) && NoGlobals(s) && Live(s, e) && Private(pd, pt) && WalkWord(s, e, pd, pt).Some?
    ensures !Global(Shift6(WalkWord(s, e, pd, pt).value))
  {
    var w := WalkWord(s, e, pd, pt).value;
    GlobalBit(w);
    LeafFacts(s, e, pd, pt);
    assert DirOk(s, e);
    if pd < PD_UTOP {
      assert NotGlobal(Translate(s, e, pd, pt));
    } else {
      assert LINK_FLAGS & PTE_G == 0;
      assert PTE_V & PTE_G == 0;
    }
  }

  lemma NoGlobalsCoherent(s: Vm)
    requires Inv(s) && NoGlobals(s)
    ensures Coherent(s)
  {
    forall k, h | k in s.tlb && 0 <= h <= 1 && LoValid(s.tlb[k].Half(h)) && Private(k.pd, 2 * k.pair + h)
      ensures !GlobalPair(s.tlb[k])
    {
      assert HalfOk(s, k, h);
      var o: nat :| Owned(s, k, h, s.tlb[k].Half(h), o);
      PrivateWord(s, o, k.pd, 2 * k.pair + h);
    }
    CoherentExact(s);
  }

  /** A step whose caller passes the global bit. */
  predicate AsksGlobal(st: Step) {
    (st.MemAlloc? || st.MemMap? || st.IpcShare? || st.LoadPage?) && st.perm & PTE_G != 0
  }

  lemma OneNotGlobal(s: Vm, s': Vm, e: nat, pd: nat, pt: nat, f: nat, perm: bv12)
    requires NoGlobals(s) && OnePage(s, s', e, pd, pt, Some(Entry(f, perm))) && perm & PTE_G == 0
    ensures NoGlobals(s')
  {
    hide Translate;
    EntryGlobal(f, perm);
    forall e': nat, pd': nat, pt': nat
      ensures NotGlobal(Translate(s', e', pd', pt'))
    {
      assert NotGlobal(Translate(s, e', pd', pt'));
    }
  }

  lemma FewerNotGlobal(s: Vm, s': Vm)
    requires NoGlobals(s)
    requires forall e: nat, pd: nat, pt: nat ::
               Translate(s', e, pd, pt) == Translate(s, e, pd, pt) || Translate(s', e, pd, pt).None?
    ensures NoGlobals(s')
  {
    hide Translate;
    forall e: nat, pd: nat, pt: nat
      ensures NotGlobal(Translate(s', e, pd, pt))
    {
      assert NotGlobal(Translate(s, e, pd, pt));
    }
  }

  lemma MapNotGlobal(s: Vm, st: Step)
    requires Inv(s) && Bounded(s) && Enabled(s, st) && NoGlobals(s) && !AsksGlobal(st)
    requires st.MemMap? || st.IpcShare?
    ensures NoGlobals(Apply(s, st))
  {
    hide Inv, Bounded, Translate, SysMemMap, SharePage, Shareable, NoGlobals, OnePage, NoPage;
    var s' := Apply(s, st);
    var r;
    if st.MemMap? {
      r := SysMemMap(s, st.src, st.srcva, st.dst, st.dstva, st.perm).0;
      MemMapKeeps(s, r, s', st.src, st.srcva, st.dst, st.dstva, st.perm);
    } else {
      r := SharePage(s, st.src, st.srcva, st.dst, st.dstva, st.perm).0;
      ShareKeeps(s, r, s', st.src, st.srcva, st.dst, st.dstva, st.perm);
    }
    if r == Success {
      OneNotGlobal(s, s', st.dst, PDX(st.dstva), PTX(st.dstva),
                   Translate(s, st.src, PDX(st.srcva), PTX(st.srcva)).value.ppn, st.perm);
    } else {
      SameNotGlobal(s, s');
    }
  }

  lemma SameNotGlobal(s: Vm, s': Vm)
    requires NoGlobals(s) && NoPage(s, s')
    ensures NoGlobals(s')
  {
    hide Translate;
    FewerNotGlobal(s, s');
  }

  lemma AllocNotGlobal(s: Vm, st: Step)
    requires Inv(s) && Bounded(s) && Enabled(s, st) && NoGlobals(s) && !AsksGlobal(st)
    requires st.MemAlloc? || st.LoadPage?
    ensures NoGlobals(Apply(s, st))
  {
    hide Inv, Bounded, Translate, SysMemAlloc, AddPage, NoGlobals, OnePage, NoPage;
    var s' := Apply(s, st);
    var r;
    if st.MemAlloc? {
      r := SysMemAlloc(s, st.e, st.va, st.perm).0;
      MemAllocKeeps(s, r, s', st.e, st.va, st.perm);
    } else {
      r := AddPage(s, st.e, st.va, st.perm).0;
      AddPageKeeps(s, r, s', st.e, st.va, st.perm);
    }
    if r == Success {
      OneNotGlobal(s, s', st.e, PDX(st.va), PTX(st.va), s.free[0], st.perm);
    } else {
      SameNotGlobal(s, s');
    }
  }

  lemma MissNotGlobal(s: Vm, e: nat, va: nat, victim: TlbKey)
    requires Inv(s) && Bounded(s) && Live(s, e) && va < ULIM && !PastSelfMap(va) && NoGlobals(s)
    ensures NoGlobals(Refill(s, e, va, victim).1)
  {
    hide Inv, Bounded, Translate, Refill, PastSelfMap, NoGlobals, OnePage, NoPage;
    var (r, s') := Refill(s, e, va, victim);
    RefillKeeps(s, r, s', e, va, victim);
    if r == Success && va < UTOP && Translate(s, e, PDX(va), PTX(va)).None? {
      assert PTE_D & PTE_G == 0;
      OneNotGlobal(s, s', e, PDX(va), PTX(va), s.free[0], PTE_D);
    } else {
      SameNotGlobal(s, s');
    }
  }

  lemma StepNotGlobal(s: Vm, st: Step)
    requires Inv(s) && Bounded(s) && Enabled(s, st) && NoGlobals(s) && !AsksGlobal(st)
    ensures NoGlobals(Apply(s, st))
  {
    hide Inv, Bounded, Translate, NoGlobals, EnvAlloc, EnvFree, SysMemUnmap, Store, Refill;
    var s' := Apply(s, st);
    match st
    case MemAlloc(_, _, _) => AllocNotGlobal(s, st);
    case LoadPage(_, _, _) => AllocNotGlobal(s, st);
    case MemMap(_, _, _, _, _) => MapNotGlobal(s, st);
    case IpcShare(_, _, _, _, _) => MapNotGlobal(s, st);
    case MemUnmap(e, va) =>
      MemUnmapKeeps(s, SysMemUnmap(s, e, va).0, s', e, va);
      FewerNotGlobal(s, s');
    case NewEnv(e) =>
      EnvAllocKeeps(s, EnvAlloc(s, e).0, s', e);
      SameNotGlobal(s, s');
    case FreeEnv(e) =>
      EnvFreeKeeps(s, s', e);
      GoneNotGlobal(s, s', e);
    case Miss(e, va, victim) => MissNotGlobal(s, e, va, victim);
    case UserStore(k, h, i, w) =>
      StoreKeeps(s, s', k, h, i, w);
      SameNotGlobal(s, s');
  }

  lemma GoneNotGlobal(s: Vm, s': Vm, e: nat)
    requires NoGlobals(s) && !Live(s', e)
    requires forall e': nat, pd: nat, pt: nat :: e' != e ==> Translate(s', e', pd, pt) == Translate(s, e', pd, pt)
    ensures NoGlobals(s')
  {
    assert forall pd: nat, pt: nat :: Translate(s', e, pd, pt).None?;
    FewerNotGlobal(s, s');
  }

  /**
   In every run from boot in which no caller passes the global bit, whatever the hardware may
   use for a live env, in any state, is that env's current page-table word.
   */
  lemma {:induction false} RunCoherent(states: seq<Vm>, steps: seq<Step>, n: nat)
    requires IsRun(states, steps) && n <= |steps| && Booted(states[0])
    requires forall i :: 0 <= i < n ==> !AsksGlobal(steps[i])
    ensures NoGlobals(states[n]) && Coherent(states[n])
  {
    hide Inv, Bounded, Enabled, Apply, NoGlobals, Coherent, AsksGlobal;
    if n == 0 {
      BootNotGlobal(states[0]);
    } else {
      RunCoherent(states, steps, n - 1);
      RunKeeps(states, steps, n - 1);
      assert Next(states[n - 1], steps[n - 1], states[n]);
      StepNotGlobal(states[n - 1], steps[n - 1]);
    }
    RunKeeps(states, steps, n);
    NoGlobalsCoherent(states[n]);
  }

  lemma BootNotGlobal(s: Vm)
    requires Booted(s)
    ensures NoGlobals(s)
  {
    assert forall e: nat, pd: nat, pt: nat :: Translate(s, e, pd, pt).None?;
  }

  // ---- a run in which one env is served the page of another ----

  /** sys_mem_alloc at a legal address succeeds with two free frames, and takes no more. */
  lemma AllocSucceeds(s: Vm, e: nat, va: nat, perm: bv12)
    requires Inv(s) && Bounded(s) && Live(s, e) && !IllegalVa(va) && |s.free| >= 2
    requires PDX(va) < PD_UTOP && Translate(s, e, PDX(va), PTX(va)).None?
    ensures var (r, s') := SysMemAlloc(s, e, va, perm);
      r == Success && SameUser(s, s') && |s'.free| + 2 >= |s.free|
      && OnePage(s, s', e, PDX(va), PTX(va), Some(Entry(s.free[0], perm)))
  {
    hide Inv, PageInsert, Translate, PDX, PTX;
    var (r, s') := SysMemAlloc(s, e, va, perm);
    var s1 := PageAlloc(s).1;
    PageAllocKeeps(s, s1);
    InvBounded(s1);
    PtxFits(va);
    var ok := PageInsert(s1, e, s.free[0], PDX(va), PTX(va), perm).0;
    InsertKeeps(s1, ok, s', e, s.free[0], PDX(va), PTX(va), perm);
    InsertCounts(s1, s', e, s.free[0], PDX(va), PTX(va), perm);
    MemAllocKeeps(s, r, s', e, va, perm);
  }

  lemma PtxFits(va: nat)
    ensures PTX(va) < 1024
  {
  }

  /** Both pages of a pair mapped by env 0 with the global bit, and nothing mapped by env 1. */
  ghost predicate PairMapped(s: Vm, f: nat, g: nat) {
    && Reached(s) && Live(s, 0) && Live(s, 1)
    && Translate(s, 0, 0, 1022) == Some(Entry(f, PTE_G)) && Translate(s, 0, 0, 1023) == Some(Entry(g, PTE_G))
    && Translate(s, 1, 0, 1022).None?
  }

  lemma MapPair() returns (s: Vm, f: nat, g: nat)
    ensures PairMapped(s, f, g)
  {
    assert 2 <= NASID;
    hide *;
    var s0 := Populate(2, 300);
    TwoEnvs(s0);
    s, f, g := PairFrom(s0);
  }

  lemma TwoEnvs(s: Vm)
    requires Populated(s, 2, 300)
    ensures Reached(s) && Live(s, 0) && Live(s, 1) && |s.free| == 298
    ensures forall e: nat, pd: nat, pt: nat :: Translate(s, e, pd, pt).None?
  {
  }

  /** One sys_mem_alloc with the global bit by env 0. */
  lemma AllocGlobal(s: Vm, va: nat, pt: nat) returns (s': Vm, f: nat)
    requires Reached(s) && Live(s, 0) && |s.free| >= 2 && !IllegalVa(va) && PDX(va) == 0 && PTX(va) == pt
    requires Translate(s, 0, 0, pt).None?
    ensures Reached(s') && SameUser(s, s') && |s'.free| + 2 >= |s.free|
    ensures OnePage(s, s', 0, 0, pt, Some(Entry(f, PTE_G)))
  {
    hide Reached, Inv, Bounded, Translate, SysMemAlloc, OnePage, SameUser, PDX, PTX;
    ReachedKeeps(s);
    AllocSucceeds(s, 0, va, PTE_G);
    ReachMemAlloc(s, 0, va, PTE_G);
    s', f := SysMemAlloc(s, 0, va, PTE_G).1, s.free[0];
  }

  lemma PairFrom(s0: Vm) returns (s: Vm, f: nat, g: nat)
    requires Reached(s0) && Live(s0, 0) && Live(s0, 1) && |s0.free| == 298
    requires forall e: nat, pd: nat, pt: nat :: Translate(s0, e, pd, pt).None?
    ensures PairMapped(s, f, g)
  {
    hide Reached, Inv, Bounded, Translate, SysMemAlloc;
    var s1;
    s1, f := AllocGlobal(s0, UTEMP, 1022);
    s, g := AllocGlobal(s1, UCOW, 1023);
  }

  /**
   A run from boot after which the TLB serves env 1 a page of env 0 that env 1 does not map:
   env 0 allocates both pages of a pair with the global bit and touches one of them.
   */
  lemma GlobalPairLeaks() returns (s: Vm, k: TlbKey)
    ensures Reached(s) && Inv(s) && !Coherent(s) && Live(s, 0) && Live(s, 1)
    ensures k in s.tlb && LoValid(s.tlb[k].even) && Matches(k, s.tlb[k], s.envs[1].asid)
    ensures Translate(s, 0, k.pd, 2 * k.pair).Some? && s.tlb[k].even.pfn == Translate(s, 0, k.pd, 2 * k.pair).value.ppn
    ensures Translate(s, 1, k.pd, 2 * k.pair).None?
  {
    var s0, f, g := MapPair();
    ReachedKeeps(s0);
    var victim := TlbKey(0, 0, 0);
    assert PDX(UTEMP) == 0 && PTX(UTEMP) == 1022;
    ReachStep(s0, Miss(0, UTEMP, victim));
    s := Refill(s0, 0, UTEMP, victim).1;
    k := TlbKey(0, 511, s0.envs[0].asid);
    PairFilled(s0, s, k, victim, f, g);
  }

  /** Refilling a mapped page writes both words of its pair. */
  lemma FillsPair(s0: Vm, s: Vm, k: TlbKey, victim: TlbKey, f: nat, g: nat)
    requires PairMapped(s0, f, g) && Inv(s0) && Bounded(s0)
    requires k == TlbKey(0, 511, s0.envs[0].asid) && s == Refill(s0, 0, UTEMP, victim).1
    ensures k in s.tlb && s.tlb[k] == TlbPair(Shift6(Entry(f, PTE_G)), Shift6(Entry(g, PTE_G)))
  {
    hide Reached, Inv, PassiveAlloc;
    assert PDX(UTEMP) == 0 && PTX(UTEMP) == 1022;
  }

  lemma PairFilled(s0: Vm, s: Vm, k: TlbKey, victim: TlbKey, f: nat, g: nat)
    requires PairMapped(s0, f, g) && Inv(s0) && Bounded(s0)
    requires k == TlbKey(0, 511, s0.envs[0].asid) && s == Refill(s0, 0, UTEMP, victim).1
    ensures Inv(s) && SameUser(s0, s) && NoPage(s0, s) && !Coherent(s)
    ensures k in s.tlb && s.tlb[k] == TlbPair(Shift6(Entry(f, PTE_G)), Shift6(Entry(g, PTE_G)))
    ensures GlobalPair(s.tlb[k])
  {
    hide Reached, Inv, Refill, WalkWord, Translate;
    FillsPair(s0, s, k, victim, f, g);
    RefillOfMapped(s0, s, victim, f, g);
    GlobalBit(Entry(f, PTE_G));
    GlobalBit(Entry(g, PTE_G));
    EntryGlobal(f, PTE_G);
    EntryGlobal(g, PTE_G);
    NotWalked(s, 1, 0, 1022);
    assert !Shows(s, k, 0, 1);
  }

  lemma RefillOfMapped(s0: Vm, s: Vm, victim: TlbKey, f: nat, g: nat)
    requires PairMapped(s0, f, g) && Inv(s0) && Bounded(s0) && s == Refill(s0, 0, UTEMP, victim).1
    ensures Inv(s) && SameUser(s0, s) && NoPage(s0, s) && Live(s, 1) && Translate(s, 1, 0, 1022).None?
  {
    hide Reached, Inv, Refill, WalkWord, Translate;
    assert PDX(UTEMP) == 0 && PTX(UTEMP) == 1022;
    RefillKeeps(s0, Refill(s0, 0, UTEMP, victim).0, s, 0, UTEMP, victim);
  }

  lemma NotWalked(s: Vm, e: nat, pd: nat, pt: nat)
    requires Inv(s) && Live(s, e) && pd < PD_UTOP && Translate(s, e, pd, pt).None?
    ensures WalkWord(s, e, pd, pt).None?
  {
    LeafFacts(s, e, pd, pt);
  }
}
