/**
 The memory system calls of kern/syscall_all.c, TLB refill of kern/tlbex.c, user stores and
 env creation and teardown as one transition system, and what holds in every run of it.
 */
module VmRun {
  import opened Wrappers
  import opened Mmu
  import opened VmState
  import opened VmOps
  import opened VmEnv

  datatype Errno = Success | EInval | ENoMem | Panic

  predicate IllegalVa(va: nat) { va < UTEMP || va >= UTOP }

  // ---- system calls ----

  /** A new page at a user address: the end of sys_mem_alloc, and the page mapper of load_icode. */
  function AddPage(s: Vm, e: nat, va: nat, perm: bv12): (Errno, Vm)
    requires Bounded(s) && Live(s, e) && va < UTOP
  {
    LayoutSlots(va);
    var a := PageAlloc(s);
    if a.0.None? then (ENoMem, s)
    else
      var r := PageInsert(a.1, e, a.0.value, PDX(va), PTX(va), perm);
      (if r.0 then Success else ENoMem, r.1)
  }

  /** One env's page mapped in another: the end of sys_mem_map, sys_ipc_try_send and sys_send_return_value. */
  function SharePage(s: Vm, src: nat, srcva: nat, dst: nat, dstva: nat, perm: bv12): (Errno, Vm)
    requires Bounded(s) && Live(s, src) && Live(s, dst) && srcva < UTOP && dstva < UTOP
  {
    LayoutSlots(srcva);
    LayoutSlots(dstva);
    var w := Translate(s, src, PDX(srcva), PTX(srcva));
    if w.None? then (EInval, s)
    else if w.value.ppn >= |s.refs| then (Panic, s)
    else
      var r := PageInsert(s, dst, w.value.ppn, PDX(dstva), PTX(dstva), perm);
      (if r.0 then Success else ENoMem, r.1)
  }

  function SysMemAlloc(s: Vm, e: nat, va: nat, perm: bv12): (Errno, Vm)
    requires Bounded(s) && Live(s, e)
  {
    if IllegalVa(va) then (EInval, s) else AddPage(s, e, va, perm)
  }

  function SysMemMap(s: Vm, src: nat, srcva: nat, dst: nat, dstva: nat, perm: bv12): (Errno, Vm)
    requires Bounded(s) && Live(s, src) && Live(s, dst)
  {
    if IllegalVa(srcva) || IllegalVa(dstva) then (EInval, s) else SharePage(s, src, srcva, dst, dstva, perm)
  }

  function SysMemUnmap(s: Vm, e: nat, va: nat): (Errno, Vm)
    requires Bounded(s) && Live(s, e)
  {
    if IllegalVa(va) then (EInval, s) else (Success, PageRemove(s, e, PDX(va), PTX(va)))
  }

  /** A frame fresh from page_alloc is cleared, uncounted, off the list and unmapped. */
  lemma PageAllocKeeps(s: Vm, s': Vm)
    requires Inv(s) && Bounded(s) && s.free != [] && s' == PageAlloc(s).1
    ensures Inv(s') && SameUser(s, s') && NoPage(s, s') && s'.refs == s.refs
    ensures Insertable(s', s.free[0]) && s'.refs[s.free[0]] == 0
    ensures s'.words[s.free[0]] == ZeroTable()
    ensures forall e: nat, pd: nat :: TableOf(s', e, pd) == TableOf(s, e, pd)
  {
    AllocFacts(s);
    assert forall e: nat, pd: nat :: TableOf(s', e, pd) == TableOf(s, e, pd);
    assert forall r: Ref :: Target(s', r) == Target(s, r);
    forall f | 0 <= f < |s.refs| && f !in s.kernel
      ensures s'.refs[f] == |Slots(s', f)|
    {
      SlotsStep(s, s', Root(0), f);
    }
    forall r: Ref
      ensures Target(s', r) != Some(s.free[0])
    {
      ZeroIsUnmapped(s, s.free[0], r);
    }
    PageAllocTlb(s, s');
  }

  lemma PageAllocTlb(s: Vm, s': Vm)
    requires Inv(s) && Bounded(s) && s.free != [] && s' == PageAlloc(s).1
    ensures TlbOk(s') && BaseOk(s')
    ensures forall e: nat :: DirOk(s', e)
  {
    AllocFacts(s);
    forall e: nat
      ensures DirOk(s', e)
    {
      assert DirOk(s, e);
    }
    forall e: nat, pd: nat, pt: nat | WalkWord(s, e, pd, pt).Some?
      ensures WalkWord(s', e, pd, pt) == WalkWord(s, e, pd, pt)
    {
      assert DirOk(s, e);
      if pd < PD_UTOP { assert TableOf(s, e, pd).Some?; }
    }
    TlbKeep(s, s');
  }

  /** A mapped user page may be inserted again: it is neither free nor a table. */
  lemma MappedIsInsertable(s: Vm, e: nat, pd: nat, pt: nat)
    requires Inv(s) && Translate(s, e, pd, pt).Some?
    ensures Insertable(s, Translate(s, e, pd, pt).value.ppn)
  {
    var r0 := Leaf(e, pd, pt);
    var f := Translate(s, e, pd, pt).value.ppn;
    LeafFacts(s, e, pd, pt);
    assert Target(s, r0) == Some(f);
    forall r: Ref | Target(s, r) == Some(f)
      ensures r.Leaf?
    {
      if !r.Leaf? { SoleOwner(s, r, r0); }
    }
  }

  lemma MapLeafWraps(s: Vm, s': Vm, e: nat, f: nat, pd: nat, pt: nat, perm: bv12)
    requires Inv(s) && TableOf(s, e, pd).Some? && TableOf(s, e, pd).value < |s.words| && pt < 1024
    requires f < |s.refs| && f !in s.kernel && s.refs[f] >= 65535
    requires TlbKey(pd, pt / 2, s.envs[e].asid) !in s.tlb
    requires s' == MapLeaf(s, f, TableOf(s, e, pd).value, pt, perm)
    ensures !Counted(s')
  {
    assert s'.tlb == s.tlb - {TlbKey(pd, pt / 2, s.envs[e].asid)};
    LeafTargets(s, s', e, pd, pt, Entry(f, perm));
    SlotsIff(s', f);
    SlotsStep(s, s', Leaf(e, pd, pt), f);
  }

  /** At 65535 references one more wraps pp_ref to 0 while the frame stays mapped. */
  lemma InsertWraps(s: Vm, s': Vm, e: nat, f: nat, pd: nat, pt: nat, perm: bv12)
    requires Inv(s) && Bounded(s) && Live(s, e) && pd < PD_UTOP && pt < 1024 && Insertable(s, f)
    requires s.refs[f] >= 65535 && Target(s, Leaf(e, pd, pt)) != Some(f)
    requires (true, s') == PageInsert(s, e, f, pd, pt, perm)
    ensures !Inv(s')
  {
    var s1 := TlbInvalidate(PageRemove(s, e, pd, pt), s.envs[e].asid, pd, pt);
    InsertClears(s, s1, e, f, pd, pt);
    if TableOf(s, e, pd).None? {
      var (t, s2) := CreateTable(s1, e, pd);
      CreateKeeps(s1, t, s2, e, pd);
      MapLeafWraps(s2, s', e, f, pd, pt, perm);
    } else {
      LeafFacts(s1, e, pd, pt);
      MapLeafWraps(s1, s', e, f, pd, pt, perm);
    }
  }

  /**
   page_insert exactly: it keeps the invariant if and only if it fails, or the count of the
   frame does not overflow.
   */
  lemma InsertExact(s: Vm, ok: bool, s': Vm, e: nat, f: nat, pd: nat, pt: nat, perm: bv12)
    requires Inv(s) && Bounded(s) && Live(s, e) && pd < PD_UTOP && pt < 1024 && Insertable(s, f)
    requires (ok, s') == PageInsert(s, e, f, pd, pt, perm)
    ensures Inv(s') <==> (ok ==> Countable(s, e, f, pd, pt))
    ensures ok && Countable(s, e, f, pd, pt) ==> SameUser(s, s') && OnePage(s, s', e, pd, pt, Some(Entry(f, perm)))
    ensures ok && Countable(s, e, f, pd, pt) ==> MapsTo(Translate(s', e, pd, pt), f, perm)
    ensures !ok ==> SameUser(s, s') && NoPage(s, s')
    ensures !ok <==> TableOf(s, e, pd).None? && s.free == []
  {
    if Countable(s, e, f, pd, pt) {
      InsertKeeps(s, ok, s', e, f, pd, pt, perm);
    } else {
      InsertFailure(s, ok, s', e, f, pd, pt, perm);
      if ok { InsertWraps(s, s', e, f, pd, pt, perm); }
    }
  }

  /** page_insert fails only for want of a frame for the table, and then changes no page. */
  lemma InsertFailure(s: Vm, ok: bool, s': Vm, e: nat, f: nat, pd: nat, pt: nat, perm: bv12)
    requires Inv(s) && Bounded(s) && Live(s, e) && pd < PD_UTOP && pt < 1024 && Insertable(s, f)
    requires (ok, s') == PageInsert(s, e, f, pd, pt, perm) && Target(s, Leaf(e, pd, pt)) != Some(f)
    ensures !ok <==> TableOf(s, e, pd).None? && s.free == []
    ensures !ok ==> Inv(s') && SameUser(s, s') && NoPage(s, s')
  {
    hide Inv, TlbInvalidate, PageRemove, CreateTable, MapLeaf;
    var s1 := TlbInvalidate(PageRemove(s, e, pd, pt), s.envs[e].asid, pd, pt);
    InsertClears(s, s1, e, f, pd, pt);
    if TableOf(s, e, pd).None? {
      var (t, s2) := CreateTable(s1, e, pd);
      CreateKeeps(s1, t, s2, e, pd);
    }
  }

  lemma AddPageKeeps(s: Vm, r: Errno, s': Vm, e: nat, va: nat, perm: bv12)
    requires Inv(s) && Bounded(s) && Live(s, e) && va < UTOP && (r, s') == AddPage(s, e, va, perm)
    ensures Inv(s') && SameUser(s, s') && (r == Success || r == ENoMem)
    ensures r == Success <==> s.free != [] && (TableOf(s, e, PDX(va)).Some? || |s.free| > 1)
    ensures r == Success ==> OnePage(s, s', e, PDX(va), PTX(va), Some(Entry(s.free[0], perm)))
    ensures r == Success ==> MapsTo(Translate(s', e, PDX(va), PTX(va)), s.free[0], perm)
    ensures r != Success ==> NoPage(s, s')
  {
    if s.free != [] {
      LayoutSlots(va);
      var s1 := PageAlloc(s).1;
      PageAllocKeeps(s, s1);
      InsertKeeps(s1, r == Success, s', e, s.free[0], PDX(va), PTX(va), perm);
    }
  }

  /**
   sys_mem_alloc maps a cleared page that nothing else maps, with the permission it was given, or
   changes no translation. It refuses exactly the addresses outside [UTEMP, UTOP), and runs out of
   memory exactly when no frame is free for the page or, where it is missing, for its table.
   */
  lemma MemAllocKeeps(s: Vm, r: Errno, s': Vm, e: nat, va: nat, perm: bv12)
    requires Inv(s) && Bounded(s) && Live(s, e) && (r, s') == SysMemAlloc(s, e, va, perm)
    ensures Inv(s') && SameUser(s, s')
    ensures r == EInval <==> va < UTEMP || UTOP <= va
    ensures r == Success <==>
              UTEMP <= va < UTOP && s.free != [] && (TableOf(s, e, PDX(va)).Some? || |s.free| > 1)
    ensures r == Success || r == EInval || r == ENoMem
    ensures r == Success ==> OnePage(s, s', e, PDX(va), PTX(va), Some(Entry(s.free[0], perm)))
    ensures r == Success ==> MapsTo(Translate(s', e, PDX(va), PTX(va)), s.free[0], perm)
    ensures r != Success ==> NoPage(s, s')
  {
    hide AddPage;
    if !IllegalVa(va) { AddPageKeeps(s, r, s', e, va, perm); }
  }

  /** Mapping the page at `srcva` once more does not overflow its frame's count. */
  predicate Shareable(s: Vm, src: nat, srcva: nat, dst: nat, dstva: nat) {
    var w := Translate(s, src, PDX(srcva), PTX(srcva));
    w.Some? && w.value.ppn < |s.refs| ==> Countable(s, dst, w.value.ppn, PDX(dstva), PTX(dstva))
  }

  /** Sharing keeps the invariant if and only if the count does not overflow. */
  lemma ShareKeeps(s: Vm, r: Errno, s': Vm, src: nat, srcva: nat, dst: nat, dstva: nat, perm: bv12)
    requires Inv(s) && Bounded(s) && Live(s, src) && Live(s, dst) && srcva < UTOP && dstva < UTOP
    requires (r, s') == SharePage(s, src, srcva, dst, dstva, perm)
    ensures r != Panic && (Inv(s') <==> (r == Success ==> Shareable(s, src, srcva, dst, dstva)))
    ensures r == EInval <==> Translate(s, src, PDX(srcva), PTX(srcva)).None?
    ensures r == Success <==> Translate(s, src, PDX(srcva), PTX(srcva)).Some? &&
                              (TableOf(s, dst, PDX(dstva)).Some? || s.free != [])
    ensures r == Success && Shareable(s, src, srcva, dst, dstva) ==>
              SameUser(s, s') &&
              OnePage(s, s', dst, PDX(dstva), PTX(dstva),
                      Some(Entry(Translate(s, src, PDX(srcva), PTX(srcva)).value.ppn, perm)))
    ensures r == Success && Shareable(s, src, srcva, dst, dstva) ==>
              MapsTo(Translate(s', dst, PDX(dstva), PTX(dstva)),
                     Translate(s, src, PDX(srcva), PTX(srcva)).value.ppn, perm)
    ensures r != Success ==> SameUser(s, s') && NoPage(s, s')
  {
    LayoutSlots(srcva);
    LayoutSlots(dstva);
    var w := Translate(s, src, PDX(srcva), PTX(srcva));
    if w.Some? {
      LeafFacts(s, src, PDX(srcva), PTX(srcva));
      MappedIsInsertable(s, src, PDX(srcva), PTX(srcva));
      hide Inv, PageInsert, OnePage, NoPage, SameUser;
      InsertExact(s, r == Success, s', dst, w.value.ppn, PDX(dstva), PTX(dstva), perm);
    }
  }

  lemma MemMapKeeps(s: Vm, r: Errno, s': Vm, src: nat, srcva: nat, dst: nat, dstva: nat, perm: bv12)
    requires Inv(s) && Bounded(s) && Live(s, src) && Live(s, dst)
    requires (r, s') == SysMemMap(s, src, srcva, dst, dstva, perm)
    ensures r != Panic && (Inv(s') <==> (r == Success ==> Shareable(s, src, srcva, dst, dstva)))
    ensures r == EInval <==> !(UTEMP <= srcva < UTOP && UTEMP <= dstva < UTOP) ||
                             Translate(s, src, PDX(srcva), PTX(srcva)).None?
    ensures r == Success <==> UTEMP <= srcva < UTOP && UTEMP <= dstva < UTOP &&
                              Translate(s, src, PDX(srcva), PTX(srcva)).Some? &&
                              (TableOf(s, dst, PDX(dstva)).Some? || s.free != [])
    ensures r == Success && Shareable(s, src, srcva, dst, dstva) ==>
              SameUser(s, s') &&
              OnePage(s, s', dst, PDX(dstva), PTX(dstva),
                      Some(Entry(Translate(s, src, PDX(srcva), PTX(srcva)).value.ppn, perm)))
    ensures r == Success && Shareable(s, src, srcva, dst, dstva) ==>
              MapsTo(Translate(s', dst, PDX(dstva), PTX(dstva)),
                     Translate(s, src, PDX(srcva), PTX(srcva)).value.ppn, perm)
    ensures r != Success ==> SameUser(s, s') && NoPage(s, s')
  {
    hide SharePage, Inv, Shareable;
    if !IllegalVa(srcva) && !IllegalVa(dstva) { ShareKeeps(s, r, s', src, srcva, dst, dstva, perm); }
  }

  lemma MemUnmapKeeps(s: Vm, r: Errno, s': Vm, e: nat, va: nat)
    requires Inv(s) && Bounded(s) && Live(s, e) && (r, s') == SysMemUnmap(s, e, va)
    ensures Inv(s') && SameUser(s, s')
    ensures r == if UTEMP <= va < UTOP then Success else EInval
    ensures r == Success ==> OnePage(s, s', e, PDX(va), PTX(va), None)
    ensures r != Success ==> s' == s
  {
    if !IllegalVa(va) {
      LayoutSlots(va);
      RemoveKeeps(s, s', e, PDX(va), PTX(va));
    }
  }

  // ---- TLB refill ----

  /** The pair of words around slot `pt`, both shifted, written over a random victim by tlbwr. */
  function TlbFill(s: Vm, e: nat, pd: nat, pt: nat, victim: TlbKey): Vm
    requires WalkWord(s, e, pd, pt).Some? && pt < 1024
  {
    var t := s.words[s.words[s.envs[e].pgdir][pd].ppn];
    s.(tlb := (s.tlb - {victim})
              [TlbKey(pd, pt / 2, s.envs[e].asid) :=
               TlbPair(Shift6(t[pt / 2 * 2]), Shift6(t[pt / 2 * 2 + 1]))])
  }

  /**
   passive_alloc for a page that is not mapped. Inside UVPT the self-map makes the same
   page_insert write a directory slot, so it links a new page table.
   */
  function PassiveAlloc(s: Vm, e: nat, va: nat): (Errno, Vm)
    requires Bounded(s) && Live(s, e)
  {
    if va < UTEMP || (USTACKTOP <= va < USTACKTOP + PAGE_SIZE) || (UENVS <= va < UVPT) || va >= ULIM
    then (Panic, s)
    else
      var a := PageAlloc(s);
      if a.0.None? then (Panic, s)
      else if va < UVPT then
        LayoutSlots(va);
        var r := PageInsert(a.1, e, a.0.value, PDX(va), PTX(va), PTE_D);
        (if r.0 then Success else Panic, r.1)
      else
        var s1 := TlbInvalidate(a.1, s.envs[e].asid, PD_UVPT, PTX(va));
        var s2 := s1.(refs := s1.refs[a.0.value := (s1.refs[a.0.value] + 1) % 65536]);
        (Success, WriteWord(s2, s2.envs[e].pgdir, PTX(va), Entry(a.0.value, 0)))
  }

  /** _do_tlb_refill and the tlbwr after it. */
  function Refill(s: Vm, e: nat, va: nat, victim: TlbKey): (Errno, Vm)
    requires Bounded(s) && Live(s, e) && va < ULIM
  {
    var s0 := TlbInvalidate(s, s.envs[e].asid, PDX(va), PTX(va));
    if WalkWord(s0, e, PDX(va), PTX(va)).Some? then (Success, TlbFill(s0, e, PDX(va), PTX(va), victim))
    else
      var p := PassiveAlloc(s0, e, va);
      if p.0 == Success && WalkWord(p.1, e, PDX(va), PTX(va)).Some?
      then (Success, TlbFill(p.1, e, PDX(va), PTX(va), victim))
      else (Panic, p.1)
  }

  lemma TlbFillKeeps(s: Vm, s': Vm, e: nat, pd: nat, pt: nat, victim: TlbKey)
    requires Inv(s) && WalkWord(s, e, pd, pt).Some? && pd <= PD_UVPT && pt < 1024
    requires s' == TlbFill(s, e, pd, pt, victim)
    ensures Inv(s') && SameUser(s, s') && NoPage(s, s')
  {
    assert forall r: Ref :: Target(s', r) == Target(s, r);
    forall f | 0 <= f < |s.refs| && f !in s.kernel
      ensures s'.refs[f] == |Slots(s', f)|
    {
      SlotsStep(s, s', Root(0), f);
    }
    forall e': nat
      ensures DirOk(s', e')
    {
      assert DirOk(s, e');
    }
    TlbFillTlb(s, s', e, pd, pt, victim);
  }

  lemma TlbFillTlb(s: Vm, s': Vm, e: nat, pd: nat, pt: nat, victim: TlbKey)
    requires Inv(s) && WalkWord(s, e, pd, pt).Some? && pd <= PD_UVPT && pt < 1024
    requires s' == TlbFill(s, e, pd, pt, victim)
    ensures TlbOk(s')
  {
    var k0 := TlbKey(pd, pt / 2, s.envs[e].asid);
    assert DirOk(s, e);
    LeafFacts(s, e, 0, 0);
    forall k, h | k in s'.tlb && 0 <= h <= 1 && LoValid(s'.tlb[k].Half(h))
      ensures HalfOk(s', k, h)
    {
      if k == k0 {
        assert WalkWord(s, e, pd, 2 * k.pair + h).Some?;
        if Private(pd, 2 * k.pair + h) {
          assert Owned(s', k, h, s'.tlb[k].Half(h), e);
        }
      } else {
        assert HalfOk(s, k, h);
        if Private(k.pd, 2 * k.pair + h) {
          var o: nat :| Owned(s, k, h, s.tlb[k].Half(h), o);
          assert Owned(s', k, h, s'.tlb[k].Half(h), o);
        }
      }
    }
  }

  /** passive_alloc inside UVPT is exactly pgdir_walk creating the table. */
  lemma VptAllocIsCreate(s: Vm, e: nat, va: nat)
    requires Inv(s) && Bounded(s) && Live(s, e) && UVPT <= va < ULIM && PTX(va) < PD_UTOP
    requires s.free != []
    ensures PassiveAlloc(s, e, va) ==
            (Success, TlbInvalidate(CreateTable(s, e, PTX(va)).1, s.envs[e].asid, PD_UVPT, PTX(va)))
  {
    assert s.refs[s.free[0]] == 0;
    assert 0 | PTE_C_CACHEABLE | PTE_V == LINK_FLAGS;
  }

  /** A self-map page that shows no user table, no template table and not the directory. */
  predicate PastSelfMap(va: nat) { UVPT <= va && PTX(va) > PD_UVPT }

  /**
   Beyond the directory's own slot the same write links a page that is counted once and named
   by no place that env_free or page_remove looks at.
   */
  lemma VptAllocAboveUlimLeaks(s: Vm, s': Vm, e: nat, va: nat)
    requires Inv(s) && Bounded(s) && Live(s, e) && PastSelfMap(va) && va < ULIM
    requires s.free != [] && s' == PassiveAlloc(s, e, va).1
    ensures !Inv(s') && !Counted(s') && !DirOk(s', e)
    ensures s'.refs[s.free[0]] == 1 && s.free[0] !in s'.free && Slots(s', s.free[0]) == {}
    ensures WalkWord(s', e, PDX(va), PTX(va)).Some?
  {
    hide Inv, PassiveAlloc, WalkWord, Counted;
    LeakShows(s, s', e, va);
    LeakCounts(s, s', e, va);
    LeakBreaks(s', e, s.free[0]);
  }

  lemma LeakBreaks(s: Vm, e: nat, f: nat)
    requires Sized(s) && !DirOk(s, e) && f < |s.refs| && f !in s.kernel && s.refs[f] == 1 && Slots(s, f) == {}
    ensures !Inv(s) && !Counted(s)
  {
  }

  lemma LeakShows(s: Vm, s': Vm, e: nat, va: nat)
    requires Inv(s) && Bounded(s) && Live(s, e) && PastSelfMap(va) && va < ULIM
    requires s.free != [] && s' == PassiveAlloc(s, e, va).1
    ensures Sized(s') && !DirOk(s', e) && WalkWord(s', e, PDX(va), PTX(va)).Some?
  {
    hide Counted, Exclusive, TlbOk;
    LeafFacts(s, e, 0, 0);
    CreateFacts(s, e);
    LayoutSlots(va);
    assert DirOk(s, e);
    assert Valid(s'.words[s'.envs[e].pgdir][PTX(va)]);
  }

  lemma LeakCounts(s: Vm, s': Vm, e: nat, va: nat)
    requires Inv(s) && Bounded(s) && Live(s, e) && PastSelfMap(va) && va < ULIM
    requires s.free != [] && s' == PassiveAlloc(s, e, va).1
    ensures s.free[0] < |s'.refs| && s.free[0] !in s'.kernel && s.free[0] !in s'.free
    ensures s'.refs[s.free[0]] == 1 && Slots(s', s.free[0]) == {}
  {
    hide Counted, Exclusive, TlbOk, DirOk, BaseOk, WalkWord;
    LeakTargets(s, s', e, va);
    SlotsIff(s', s.free[0]);
    forall r: Ref
      ensures Target(s', r) != Some(s.free[0])
    {
      ZeroIsUnmapped(s, s.free[0], r);
    }
  }

  lemma LeakTargets(s: Vm, s': Vm, e: nat, va: nat)
    requires Inv(s) && Bounded(s) && Live(s, e) && PastSelfMap(va) && va < ULIM
    requires s.free != [] && s' == PassiveAlloc(s, e, va).1
    ensures forall r: Ref :: Target(s', r) == Target(s, r)
  {
    hide TlbOk, DirOk, BaseOk, Counted, Exclusive;
    CreateFacts(s, e);
    AllocFacts(s);
    assert forall e': nat, pd: nat :: TableOf(s', e', pd) == TableOf(s, e', pd);
  }

  /** Where a first touch may make a page: not below UTEMP, in the guard page, or in the kernel's windows. */
  predicate Touchable(va: nat) {
    0x003f_e000 <= va < 0x7f3f_e000 || 0x7f3f_f000 <= va < 0x7f40_0000 || 0x7fc0_0000 <= va < 0x8000_0000
  }

  /** No frame is left for the page or, where it is missing, for its table; a self-map page is its own table. */
  predicate NoFrames(s: Vm, e: nat, va: nat) {
    s.free == [] || (va < UTOP && |s.free| == 1 && TableOf(s, e, PDX(va)).None?)
  }

  /**
   For an unmapped page, passive_alloc maps it or stops; it keeps the invariant if and only if
   the page is not one past the self-map's own, or no frame is free.
   */
  lemma PassiveKeeps(s: Vm, r: Errno, s': Vm, e: nat, va: nat)
    requires Inv(s) && Bounded(s) && Live(s, e) && va < ULIM
    requires WalkWord(s, e, PDX(va), PTX(va)).None?
    requires (r, s') == PassiveAlloc(s, e, va)
    ensures Inv(s') <==> !(PastSelfMap(va) && s.free != [])
    ensures s'.envs == s.envs && (Inv(s') ==> SameUser(s, s'))
    ensures r == Panic <==> !Touchable(va) || NoFrames(s, e, va)
    ensures r == Panic || r == Success
    ensures r == Success ==> WalkWord(s', e, PDX(va), PTX(va)).Some?
    ensures r == Success && va < UTOP ==>
              s.free != [] && OnePage(s, s', e, PDX(va), PTX(va), Some(Entry(s.free[0], PTE_D)))
    ensures Inv(s') && (r != Success || va >= UTOP) ==> NoPage(s, s')
  {
    LayoutSlots(va);
    if PastSelfMap(va) {
      if s.free != [] { VptAllocAboveUlimLeaks(s, s', e, va); }
    } else if va >= UVPT {
      SelfSlots(s, e, PTX(va));
      PassiveVpt(s, r, s', e, va);
    } else if s.free != [] && va < UTOP {
      var s1 := PageAlloc(s).1;
      PageAllocKeeps(s, s1);
      if !(va < UTEMP || (USTACKTOP <= va < USTACKTOP + PAGE_SIZE)) {
        InsertKeeps(s1, r == Success, s', e, s.free[0], PDX(va), PTX(va), PTE_D);
        if r == Success {
          LeafFacts(s', e, PDX(va), PTX(va));
          assert Translate(s', e, PDX(va), PTX(va)).Some?;
        }
      }
    }
  }

  lemma PassiveVpt(s: Vm, r: Errno, s': Vm, e: nat, va: nat)
    requires Inv(s) && Bounded(s) && Live(s, e) && UVPT <= va < ULIM && PTX(va) < PD_UTOP
    requires WalkWord(s, e, PD_UVPT, PTX(va)).None? && (r, s') == PassiveAlloc(s, e, va)
    ensures Inv(s') && SameUser(s, s') && NoPage(s, s')
    ensures r == Success ==> WalkWord(s', e, PD_UVPT, PTX(va)).Some?
  {
    if s.free != [] {
      VptAllocIsCreate(s, e, va);
      VptNone(s, e, PTX(va));
      var (t, s1) := CreateTable(s, e, PTX(va));
      CreateKeeps(s, t, s1, e, PTX(va));
      InvalidateKeeps(s1, s', s.envs[e].asid, PD_UVPT, PTX(va));
      VptSome(s', e, PTX(va));
    }
  }

  lemma VptNone(s: Vm, e: nat, pd: nat)
    requires Inv(s) && Live(s, e) && pd < PD_UTOP && WalkWord(s, e, PD_UVPT, pd).None?
    ensures TableOf(s, e, pd).None?
  {
    LeafFacts(s, e, pd, 0);
    assert DirOk(s, e);
  }

  lemma VptSome(s: Vm, e: nat, pd: nat)
    requires Inv(s) && Live(s, e) && pd < PD_UTOP && TableOf(s, e, pd).Some?
    ensures WalkWord(s, e, PD_UVPT, pd).Some?
  {
    LeafFacts(s, e, pd, 0);
    assert DirOk(s, e);
  }

  /**
   Half `h` of the pair around `va` is in the TLB under the env's ASID: valid if and only if that
   page is mapped, and then the page-table word shifted by six.
   */
  predicate LoadsHalf(s: Vm, e: nat, va: nat, h: nat)
    requires Live(s, e)
  {
    var k := TlbKey(PDX(va), PTX(va) / 2, s.envs[e].asid);
    var w := WalkWord(s, e, PDX(va), PTX(va) / 2 * 2 + h);
    && k in s.tlb && (LoValid(s.tlb[k].Half(h)) <==> w.Some?)
    && (w.Some? ==> LoValue(s.tlb[k].Half(h)) == Value(w.value) / 64)
  }

  /** What tlbwr has just written is the pair of words around the page. */
  lemma FillLoads(s: Vm, s': Vm, e: nat, va: nat, victim: TlbKey)
    requires Live(s, e) && WalkWord(s, e, PDX(va), PTX(va)).Some?
    requires PTX(va) < 1024 && s' == TlbFill(s, e, PDX(va), PTX(va), victim)
    ensures WalkWord(s', e, PDX(va), PTX(va)).Some? && LoadsHalf(s', e, va, 0) && LoadsHalf(s', e, va, 1)
  {
    hide PDX, PTX;
    var t := s.words[s.words[s.envs[e].pgdir][PDX(va)].ppn];
    ShiftIsDivision(t[PTX(va) / 2 * 2]);
    ShiftIsDivision(t[PTX(va) / 2 * 2 + 1]);
  }

  /**
   A TLB miss leaves a coherent TLB and at most the missing page itself becomes mapped, if and
   only if the page is not one past the self-map's own, or no frame is free.
   */
  lemma RefillKeeps(s: Vm, r: Errno, s': Vm, e: nat, va: nat, victim: TlbKey)
    requires Inv(s) && Bounded(s) && Live(s, e) && va < ULIM && (r, s') == Refill(s, e, va, victim)
    ensures Inv(s') <==> !(PastSelfMap(va) && s.free != [])
    ensures Inv(s') ==> SameUser(s, s')
    ensures r == Success || r == Panic
    ensures r == Panic <==>
              WalkWord(s, e, PDX(va), PTX(va)).None? && (!Touchable(va) || NoFrames(s, e, va))
    ensures r == Success ==> Live(s', e) && WalkWord(s', e, PDX(va), PTX(va)).Some?
    ensures r == Success ==> LoadsHalf(s', e, va, 0) && LoadsHalf(s', e, va, 1)
    ensures Inv(s') && (r == Panic || va >= UTOP || Translate(s, e, PDX(va), PTX(va)).Some?) ==> NoPage(s, s')
    ensures r == Success && va < UTOP && Translate(s, e, PDX(va), PTX(va)).None? ==>
              s.free != [] && OnePage(s, s', e, PDX(va), PTX(va), Some(Entry(s.free[0], PTE_D)))
  {
    RefillMaps(s, r, s', e, va, victim);
    RefillResult(s, r, s', e, va, victim);
  }

  /** When a refill panics, and what it has loaded when it does not. */
  lemma RefillResult(s: Vm, r: Errno, s': Vm, e: nat, va: nat, victim: TlbKey)
    requires Inv(s) && Bounded(s) && Live(s, e) && va < ULIM && (r, s') == Refill(s, e, va, victim)
    ensures r == Success || r == Panic
    ensures r == Panic <==>
              WalkWord(s, e, PDX(va), PTX(va)).None? && (!Touchable(va) || NoFrames(s, e, va))
    ensures r == Success ==> Live(s', e) && WalkWord(s', e, PDX(va), PTX(va)).Some?
    ensures r == Success ==> LoadsHalf(s', e, va, 0) && LoadsHalf(s', e, va, 1)
  {
    LayoutSlots(va);
    PtxInRange(va);
    var s0 := TlbInvalidate(s, s.envs[e].asid, PDX(va), PTX(va));
    InvalidateKeeps(s, s0, s.envs[e].asid, PDX(va), PTX(va));
    InvBounded(s0);
    hide Inv, PassiveAlloc, LoadsHalf, PDX, PTX, Touchable, TlbFill;
    if WalkWord(s0, e, PDX(va), PTX(va)).Some? {
      FillLoads(s0, s', e, va, victim);
    } else {
      var (r1, s1) := PassiveAlloc(s0, e, va);
      PassiveKeeps(s0, r1, s1, e, va);
      if r1 == Success { FillLoads(s1, s', e, va, victim); }
    }
  }

  lemma PtxInRange(va: nat)
    ensures PTX(va) < 1024
  {
  }

  /** What a refill does to mappings and to the invariant. */
  lemma RefillMaps(s: Vm, r: Errno, s': Vm, e: nat, va: nat, victim: TlbKey)
    requires Inv(s) && Bounded(s) && Live(s, e) && va < ULIM && (r, s') == Refill(s, e, va, victim)
    ensures Inv(s') <==> !(PastSelfMap(va) && s.free != [])
    ensures Inv(s') ==> SameUser(s, s')
    ensures Inv(s') && (r == Panic || va >= UTOP || Translate(s, e, PDX(va), PTX(va)).Some?) ==> NoPage(s, s')
    ensures r == Success && va < UTOP && Translate(s, e, PDX(va), PTX(va)).None? ==>
              s.free != [] && OnePage(s, s', e, PDX(va), PTX(va), Some(Entry(s.free[0], PTE_D)))
  {
    LayoutSlots(va);
    var s0 := TlbInvalidate(s, s.envs[e].asid, PDX(va), PTX(va));
    InvalidateKeeps(s, s0, s.envs[e].asid, PDX(va), PTX(va));
    InvBounded(s0);
    if WalkWord(s0, e, PDX(va), PTX(va)).Some? {
      if PastSelfMap(va) { PastSelfMapUnmapped(s0, e, va); }
      TlbFillKeeps(s0, s', e, PDX(va), PTX(va), victim);
      if va < UTOP { LeafFacts(s0, e, PDX(va), PTX(va)); }
    } else {
      var (r1, s1) := PassiveAlloc(s0, e, va);
      PassiveKeeps(s0, r1, s1, e, va);
      if PastSelfMap(va) && s.free != [] {
        VptAllocAboveUlimLeaks(s0, s1, e, va);
        LeakSurvivesFill(s1, s', e);
      } else if r1 == Success {
        TlbFillKeeps(s1, s', e, PDX(va), PTX(va), victim);
      }
      if va < UTOP { TranslateNone(s0, e, PDX(va), PTX(va)); }
    }
  }

  lemma PastSelfMapUnmapped(s: Vm, e: nat, va: nat)
    requires Inv(s) && Live(s, e) && PastSelfMap(va) && va < ULIM
    ensures WalkWord(s, e, PDX(va), PTX(va)).None?
  {
    LayoutSlots(va);
    LeafFacts(s, e, 0, 0);
    assert DirOk(s, e);
  }

  lemma LeakSurvivesFill(s: Vm, s': Vm, e: nat)
    requires Sized(s) && !DirOk(s, e) && s'.words == s.words && s'.envs == s.envs && s'.base == s.base
    ensures !Inv(s')
  {
    if Sized(s') { assert !DirOk(s', e); }
  }

  lemma TranslateNone(s: Vm, e: nat, pd: nat, pt: nat)
    requires Inv(s) && Live(s, e) && pd < PD_UTOP && WalkWord(s, e, pd, pt).None?
    ensures Translate(s, e, pd, pt).None?
  {
    LeafFacts(s, e, pd, pt);
  }

  /** The template and self-map slots are always readable through UVPT. */
  lemma SelfSlots(s: Vm, e: nat, i: nat)
    requires Inv(s) && Live(s, e) && i <= PD_UVPT && WalkWord(s, e, PD_UVPT, i).None?
    ensures i < PD_UTOP
  {
    LeafFacts(s, e, 0, 0);
    assert DirOk(s, e);
    assert BaseOk(s) && Valid(s.words[s.base][PD_UENVS]) && Valid(s.words[s.base][PD_UPAGES]);
  }

  // ---- user stores ----

  function Store(s: Vm, k: TlbKey, h: nat, i: nat, w: Word): Vm
    requires k in s.tlb && i < 1024
  {
    var lo := s.tlb[k].Half(h);
    if LoValid(lo) && LoWritable(lo) && lo.pfn < |s.words| then WriteWord(s, lo.pfn, i, w) else s
  }

  /** A half that permits stores maps a user page of the live env that holds the ASID. */
  lemma WritableHalf(s: Vm, k: TlbKey, h: nat) returns (e: nat)
    requires Inv(s) && k in s.tlb && h <= 1
    requires LoValid(s.tlb[k].Half(h)) && LoWritable(s.tlb[k].Half(h))
    ensures Live(s, e) && s.envs[e].asid == k.asid && k.pd < PD_UTOP
    ensures Translate(s, e, k.pd, 2 * k.pair + h).Some?
    ensures Writable(Translate(s, e, k.pd, 2 * k.pair + h).value)
    ensures s.tlb[k].Half(h).pfn == Translate(s, e, k.pd, 2 * k.pair + h).value.ppn
  {
    var pt := 2 * k.pair + h;
    assert HalfOk(s, k, h);
    assert BaseOk(s);
    e :| Owned(s, k, h, s.tlb[k].Half(h), e);
    LeafFacts(s, e, k.pd, pt);
    assert DirOk(s, e);
    assert LINK_FLAGS & PTE_D == 0;
    assert PTE_V & PTE_D == 0;
  }

  /**
   No store by user code reaches a directory, a page table or a kernel frame: every
   translation of every env and the whole invariant survive it.
   */
  lemma StoreKeeps(s: Vm, s': Vm, k: TlbKey, h: nat, i: nat, w: Word)
    requires Inv(s) && k in s.tlb && h <= 1 && i < 1024 && s' == Store(s, k, h, i, w)
    ensures Inv(s') && SameUser(s, s') && NoPage(s, s')
    ensures var lo := s.tlb[k].Half(h);
      if LoValid(lo) && LoWritable(lo)
      then lo.pfn < |s.words| && s'.words == s.words[lo.pfn := s.words[lo.pfn][i := w]] else s' == s
    ensures forall r: Ref :: !r.Leaf? && Target(s, r).Some? ==>
              s'.words[Target(s, r).value] == s.words[Target(s, r).value]
    ensures forall f :: f in s.kernel ==> s'.words[f] == s.words[f]
  {
    var lo := s.tlb[k].Half(h);
    if LoValid(lo) && LoWritable(lo) {
      var e := WritableHalf(s, k, h);
      LeafFacts(s, e, k.pd, 2 * k.pair + h);
      var r0 := Leaf(e, k.pd, 2 * k.pair + h);
      var f := s.tlb[k].Half(h).pfn;
      assert Target(s, r0) == Some(f);
      forall r: Ref | !r.Leaf? && Target(s, r).Some?
        ensures Target(s, r) != Some(f)
      {
        if Target(s, r) == Some(f) { SoleOwner(s, r, r0); }
      }
      DataWriteKeeps(s, s', f, i, w);
    }
  }

  lemma DataWriteKeeps(s: Vm, s': Vm, f: nat, i: nat, w: Word)
    requires Inv(s) && f < |s.words| && f !in s.kernel && i < 1024
    requires forall r: Ref :: !r.Leaf? && Target(s, r).Some? ==> Target(s, r) != Some(f)
    requires s' == WriteWord(s, f, i, w)
    ensures Inv(s') && NoPage(s, s')
  {
    forall e: nat | Live(s, e)
      ensures s.envs[e].pgdir < |s.words| && s.envs[e].pgdir != f
    {
      assert Target(s, Root(e)).Some?;
    }
    forall e: nat, pd: nat | TableOf(s, e, pd).Some?
      ensures TableOf(s, e, pd).value != f
    {
      assert Target(s, Link(e, pd)).Some?;
    }
    DataWriteTlb(s, s', f, i, w);
    DataWriteTargets(s, s', f, i, w);
    hide TlbOk, DirOk, BaseOk, WalkWord, Translate, TableOf;
    SameTargets(s, s');
  }

  lemma DataWriteTargets(s: Vm, s': Vm, f: nat, i: nat, w: Word)
    requires f < |s.words| && i < 1024 && s' == WriteWord(s, f, i, w)
    requires forall e: nat :: Live(s, e) ==> s.envs[e].pgdir < |s.words| && s.envs[e].pgdir != f
    requires forall e: nat, pd: nat :: TableOf(s, e, pd).Some? ==> TableOf(s, e, pd).value != f
    ensures NoPage(s, s') && forall r: Ref :: Target(s', r) == Target(s, r)
  {
    assert forall e: nat, pd: nat :: TableOf(s', e, pd) == TableOf(s, e, pd);
  }

  /** Where no place names another frame than before, the counts stay exact. */
  lemma SameTargets(s: Vm, s': Vm)
    requires InRange(s) && Counted(s) && Exclusive(s) && s'.refs == s.refs && s'.kernel == s.kernel
    requires forall r: Ref :: Target(s', r) == Target(s, r)
    ensures InRange(s') && Counted(s') && Exclusive(s')
  {
    hide Target;
    forall g | 0 <= g < |s.refs| && g !in s.kernel
      ensures s'.refs[g] == |Slots(s', g)|
    {
      SlotsStep(s, s', Root(0), g);
    }
  }

  lemma DataWriteTlb(s: Vm, s': Vm, f: nat, i: nat, w: Word)
    requires Inv(s) && f < |s.words| && f !in s.kernel && i < 1024
    requires forall e: nat :: Live(s, e) ==> s.envs[e].pgdir < |s.words| && s.envs[e].pgdir != f
    requires forall e: nat, pd: nat :: TableOf(s, e, pd).Some? ==> TableOf(s, e, pd).value != f
    requires s' == WriteWord(s, f, i, w)
    ensures TlbOk(s') && BaseOk(s')
    ensures forall e: nat :: DirOk(s', e)
  {
    forall e: nat
      ensures DirOk(s', e)
    {
      assert DirOk(s, e);
    }
    forall e: nat, pd: nat, pt: nat | WalkWord(s, e, pd, pt).Some?
      ensures WalkWord(s', e, pd, pt) == WalkWord(s, e, pd, pt)
    {
      assert DirOk(s, e);
      if pd < PD_UTOP { assert TableOf(s, e, pd).Some?; }
    }
    TlbKeep(s, s');
  }

  // ---- runs ----

  datatype Step =
    | MemAlloc(e: nat, va: nat, perm: bv12)
    | MemMap(src: nat, srcva: nat, dst: nat, dstva: nat, perm: bv12)
    | MemUnmap(e: nat, va: nat)
    | IpcShare(src: nat, srcva: nat, dst: nat, dstva: nat, perm: bv12)
    | LoadPage(e: nat, va: nat, perm: bv12)
    | NewEnv(e: nat)
    | FreeEnv(e: nat)
    | Miss(e: nat, va: nat, victim: TlbKey)
    | UserStore(k: TlbKey, h: nat, i: nat, w: Word)

  /**
   When a step can be taken. The limits are the ones the code does not check itself: a
   16-bit count, an ASID for each new env, and no touch of UVPT past the self-map's own page.
   A page sent by IPC goes to address 0 or to a legal address of the receiver.
   */
  ghost predicate Enabled(s: Vm, st: Step) {
    match st
    case MemAlloc(e, va, perm) => Live(s, e)
    case MemMap(src, srcva, dst, dstva, perm) =>
      Live(s, src) && Live(s, dst) && Shareable(s, src, srcva, dst, dstva)
    case MemUnmap(e, va) => Live(s, e)
    case IpcShare(src, srcva, dst, dstva, perm) =>
      && Live(s, src) && Live(s, dst) && !IllegalVa(srcva) && (dstva == 0 || !IllegalVa(dstva))
      && Shareable(s, src, srcva, dst, dstva)
    case LoadPage(e, va, perm) => Live(s, e) && va < UTOP
    case NewEnv(e) => e < |s.envs| && !Live(s, e) && s.base < |s.words| && FirstClear(s.asids, 0).Some?
    case FreeEnv(e) => Live(s, e) && s.envs[e].asid < |s.asids|
    case Miss(e, va, victim) => Live(s, e) && va < ULIM && !PastSelfMap(va)
    case UserStore(k, h, i, w) => k in s.tlb && h <= 1 && i < 1024
  }

  ghost function Apply(s: Vm, st: Step): Vm
    requires Bounded(s) && Enabled(s, st)
  {
    match st
    case MemAlloc(e, va, perm) => SysMemAlloc(s, e, va, perm).1
    case MemMap(src, srcva, dst, dstva, perm) => SysMemMap(s, src, srcva, dst, dstva, perm).1
    case MemUnmap(e, va) => SysMemUnmap(s, e, va).1
    case IpcShare(src, srcva, dst, dstva, perm) => SharePage(s, src, srcva, dst, dstva, perm).1
    case LoadPage(e, va, perm) => AddPage(s, e, va, perm).1
    case NewEnv(e) => EnvAlloc(s, e).1
    case FreeEnv(e) => EnvFree(s, e)
    case Miss(e, va, victim) => Refill(s, e, va, victim).1
    case UserStore(k, h, i, w) => Store(s, k, h, i, w)
  }

  lemma StepKeeps(s: Vm, st: Step)
    requires Inv(s) && Bounded(s) && Enabled(s, st)
    ensures Inv(Apply(s, st)) && Bounded(Apply(s, st))
  {
    var s' := Apply(s, st);
    match st {
      case MemAlloc(e, va, perm) => MemAllocKeeps(s, SysMemAlloc(s, e, va, perm).0, s', e, va, perm);
      case MemMap(src, srcva, dst, dstva, perm) =>
        MemMapKeeps(s, SysMemMap(s, src, srcva, dst, dstva, perm).0, s', src, srcva, dst, dstva, perm);
      case MemUnmap(e, va) => MemUnmapKeeps(s, SysMemUnmap(s, e, va).0, s', e, va);
      case IpcShare(src, srcva, dst, dstva, perm) =>
        ShareKeeps(s, SharePage(s, src, srcva, dst, dstva, perm).0, s', src, srcva, dst, dstva, perm);
      case LoadPage(e, va, perm) => AddPageKeeps(s, AddPage(s, e, va, perm).0, s', e, va, perm);
      case NewEnv(e) => EnvAllocKeeps(s, EnvAlloc(s, e).0, s', e);
      case FreeEnv(e) => EnvFreeKeeps(s, s', e);
      case Miss(e, va, victim) => RefillKeeps(s, Refill(s, e, va, victim).0, s', e, va, victim);
      case UserStore(k, h, i, w) => StoreKeeps(s, s', k, h, i, w);
    }
    InvBounded(s');
  }

  /** A run: consecutive states are related by enabled steps. */
  ghost predicate IsRun(states: seq<Vm>, steps: seq<Step>) {
    && |states| == |steps| + 1
    && (forall i :: 0 <= i < |steps| ==> Next(states[i], steps[i], states[i + 1]))
  }

  ghost predicate Next(s: Vm, st: Step, s': Vm) {
    Bounded(s) && Enabled(s, st) && s' == Apply(s, st)
  }

  /** Right after page_init: the frames in `kernel` are taken, the others free or unused. */
  ghost predicate PageInited(s: Vm) {
    && |s.words| == |s.refs| && |s.asids| == NASID && (forall f :: f in s.kernel ==> f < |s.refs|)
    && FreeOk(s) && s.tlb == map[] && (forall e: nat :: !Live(s, e))
    && (forall f :: 0 <= f < |s.refs| && f !in s.kernel ==> s.refs[f] == 0)
  }

  /**
   Right after env_init: the template directory is built, nothing is mapped for users, and
   everything dynamic is free.
   */
  ghost predicate Booted(s: Vm) {
    && Sized(s) && BaseOk(s) && FreeOk(s) && s.tlb == map[]
    && (forall e: nat :: !Live(s, e))
    && (forall f :: 0 <= f < |s.refs| && f !in s.kernel ==> s.refs[f] == 0)
  }

  lemma BootedInv(s: Vm)
    requires Booted(s)
    ensures Inv(s)
  {
    assert forall r: Ref :: Target(s, r).None?;
    forall f | 0 <= f < |s.refs| && f !in s.kernel
      ensures |Slots(s, f)| == 0
    {
      SlotsIff(s, f);
      assert Slots(s, f) == {};
    }
  }

  /** Nothing is in use but the boot frames. */
  predicate AllFree(s: Vm) {
    && (forall i :: 0 <= i < |s.asids| ==> !s.asids[i])
    && (forall f :: 0 <= f < |s.refs| && f !in s.kernel ==> f in s.free)
  }

  /** A machine with two boot frames and any number of free ones can boot, so runs exist. */
  lemma BootExists(nfree: nat, nenv: nat)
    ensures exists s: Vm ::
              Booted(s) && |s.free| == nfree && |s.envs| == nenv && AllFree(s)
  {
    var blank: Table := ZeroTable();
    var base: Table := blank[PD_UENVS := Word(1, LINK_FLAGS)][PD_UPAGES := Word(1, LINK_FLAGS)];
    var words := seq(nfree + 2, i => if i == 0 then base else blank);
    var s := Vm(seq(nfree + 2, _ => 0), seq(nfree, i requires 0 <= i => i + 2), words,
                seq(nenv, _ => EnvVm(false, 0, 0)), seq(NASID, _ => false), map[], {0, 1}, 0);
    assert Valid(Word(1, LINK_FLAGS)) && !Writable(Word(1, LINK_FLAGS));
    forall f | 0 <= f < |s.refs| && f !in s.kernel
      ensures f in s.free
    {
      assert s.free[f - 2] == f;
    }
    assert Booted(s) && AllFree(s);
  }

  /** In every run from boot the invariant holds in every state. */
  lemma {:induction false} RunKeeps(states: seq<Vm>, steps: seq<Step>, n: nat)
    requires IsRun(states, steps) && n <= |steps| && Booted(states[0])
    ensures Inv(states[n]) && Bounded(states[n])
  {
    if n == 0 {
      BootedInv(states[0]);
      InvBounded(states[0]);
    } else {
      RunKeeps(states, steps, n - 1);
      assert Next(states[n - 1], steps[n - 1], states[n]);
      StepKeeps(states[n - 1], steps[n - 1]);
    }
  }

  /**
   What the invariant means in every reachable state: a frame's pp_ref is the number of
   places naming it, free frames are unmapped, live envs have distinct ASIDs, and a valid
   TLB half tagged with a live env's ASID is that env's current page-table word.
   */
  lemma RunSafety(states: seq<Vm>, steps: seq<Step>, n: nat)
    requires IsRun(states, steps) && n <= |steps| && Booted(states[0])
    ensures var s := states[n];
      && Sized(s)
      && (forall f :: 0 <= f < |s.refs| && f !in s.kernel ==> s.refs[f] == |Slots(s, f)|)
      && (forall f: nat, r: Ref :: f in s.free ==> Target(s, r) != Some(f))
      && (forall e: nat, e': nat :: Live(s, e) && Live(s, e') && e != e' ==>
            s.envs[e].asid != s.envs[e'].asid)
      && (forall k, h, e: nat | k in s.tlb && 0 <= h <= 1 && LoValid(s.tlb[k].Half(h)) &&
                                Live(s, e) && s.envs[e].asid == k.asid ::
            Owned(s, k, h, s.tlb[k].Half(h), e))
  {
    RunKeeps(states, steps, n);
    var s := states[n];
    forall f: nat, r: Ref | f in s.free
      ensures Target(s, r) != Some(f)
    {
      ZeroIsUnmapped(s, f, r);
    }
    forall k, h, e: nat | k in s.tlb && 0 <= h <= 1 && LoValid(s.tlb[k].Half(h)) &&
                          Live(s, e) && s.envs[e].asid == k.asid
      ensures Owned(s, k, h, s.tlb[k].Half(h), e)
    {
      TlbCoherent(s, k, h, e);
    }
  }

  lemma TlbCoherent(s: Vm, k: TlbKey, h: nat, e: nat)
    requires Inv(s) && k in s.tlb && h <= 1 && LoValid(s.tlb[k].Half(h))
    requires Live(s, e) && s.envs[e].asid == k.asid
    ensures Owned(s, k, h, s.tlb[k].Half(h), e)
  {
    assert HalfOk(s, k, h);
    LeafFacts(s, e, 0, 0);
    assert DirOk(s, e);
  }

  // ---- the recursive self-map ----

  /** The word, as (frame, index), that a user load at address `a` reads. */
  function LoadedWord(s: Vm, e: nat, a: nat): Option<(nat, nat)> {
    var w := WalkWord(s, e, PDX(a), PTX(a));
    if w.None? then None else Some((w.value.ppn, a % PAGE_SIZE / 4))
  }

  /** The page-table word that pgdir_walk without `create` points at. */
  function PteSlot(s: Vm, e: nat, va: nat): Option<(nat, nat)>
    requires Live(s, e) && s.envs[e].pgdir < |s.words|
  {
    var l := s.words[s.envs[e].pgdir][PDX(va)];
    if Valid(l) then Some((l.ppn, PTX(va))) else None
  }

  lemma VptAddress(va: nat)
    requires va < 0x1_0000_0000
    ensures PDX(UVPT + 4 * VPN(va)) == PD_UVPT
    ensures PTX(UVPT + 4 * VPN(va)) == PDX(va)
    ensures (UVPT + 4 * VPN(va)) % PAGE_SIZE / 4 == PTX(va)
  {
    var q := VPN(va);
    assert q == (q / 1024) * 1024 + q % 1024;
    assert va / PDMAP == q / 1024;
    assert 4 * q == (q / 1024) * 4096 + 4 * (q % 1024);
    assert (UVPT + 4 * q) / 4096 == UVPT / 4096 + q / 1024;
  }

  /** vpt[VPN(va)] is the word pgdir_walk finds for va, and is unreadable when there is none. */
  lemma VptIsWalk(s: Vm, e: nat, va: nat)
    requires Inv(s) && Live(s, e) && va < 0x1_0000_0000 && s.envs[e].pgdir < |s.words|
    ensures LoadedWord(s, e, UVPT + 4 * VPN(va)) == PteSlot(s, e, va)
  {
    LeafFacts(s, e, 0, 0);
    assert DirOk(s, e);
    VptAddress(va);
  }

  /** vpd[i], at UVPT + (PDX(UVPT) << 12) + 4 * i, is directory entry i. */
  lemma VpdIsDirectory(s: Vm, e: nat, i: nat)
    requires Inv(s) && Live(s, e) && i < 1024
    ensures LoadedWord(s, e, UVPT + PDX(UVPT) * PAGE_SIZE + 4 * i) == Some((s.envs[e].pgdir, i))
  {
    LeafFacts(s, e, 0, 0);
    assert DirOk(s, e);
  }

  function ReadWord(s: Vm, at: Option<(nat, nat)>): Word {
    if at.Some? && at.value.0 < |s.words| && at.value.1 < 1024
    then s.words[at.value.0][at.value.1] else ZERO
  }

  /** pageref, as user code computes it through vpd and vpt. */
  function PageRef(s: Vm, e: nat, va: nat): nat {
    if !Valid(ReadWord(s, LoadedWord(s, e, UVPT + PDX(UVPT) * PAGE_SIZE + 4 * PDX(va)))) then 0
    else
      var pte := ReadWord(s, LoadedWord(s, e, UVPT + 4 * VPN(va)));
      if !Valid(pte) then 0 else if pte.ppn < |s.refs| then s.refs[pte.ppn] else 0
  }

  /** pageref counts the user pages of all envs that map the same frame. */
  lemma PageRefCounts(s: Vm, e: nat, va: nat)
    requires Inv(s) && Live(s, e) && va < UTOP
    ensures var w := Translate(s, e, PDX(va), PTX(va));
      if w.None? then PageRef(s, e, va) == 0
      else PageRef(s, e, va) == |Slots(s, w.value.ppn)| && forall r :: r in Slots(s, w.value.ppn) ==> r.Leaf?
  {
    LayoutSlots(va);
    LeafFacts(s, e, PDX(va), PTX(va));
    VpdIsDirectory(s, e, PDX(va));
    VptIsWalk(s, e, va);
    var w := Translate(s, e, PDX(va), PTX(va));
    if w.Some? {
      MappedIsInsertable(s, e, PDX(va), PTX(va));
      SlotsIff(s, w.value.ppn);
    }
  }
}
