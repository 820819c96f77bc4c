/**
 Conservation of frames and ASIDs: what is not in use can be had again. The invariant of VmState
 says that everything free is unused; here is the converse, and the only steps that break it.
 */
module VmConserve {
  import opened Wrappers
  import opened Mmu
  import opened VmState
  import opened VmOps
  import opened VmEnv
  import opened VmRun
  import opened VmLimits

  /** Every frame that is not counted, `x` perhaps excepted, is on the free list. */
  ghost predicate FramesBut(s: Vm, x: Option<nat>) {
    forall f :: 0 <= f < |s.refs| && f !in s.kernel && s.refs[f] == 0 && x != Some(f) ==> f in s.free
  }

  /** Every ASID that is taken belongs to a live env. */
  ghost predicate AsidsKept(s: Vm) {
    forall i :: 0 <= i < |s.asids| && s.asids[i] ==> Holds(s, i)
  }

  ghost predicate Holds(s: Vm, i: nat) { exists e: nat :: Live(s, e) && s.envs[e].asid == i }

  ghost predicate Kept(s: Vm) { FramesBut(s, None) && AsidsKept(s) }

  /** With the invariant: a frame is free iff nothing names it, and an ASID is free iff no live env has it. */
  lemma KeptExact(s: Vm)
    requires Inv(s) && Kept(s)
    ensures forall f :: 0 <= f < |s.refs| && f !in s.kernel ==>
              (f in s.free <==> forall r: Ref :: Target(s, r) != Some(f))
    ensures forall i :: 0 <= i < |s.asids| ==> (s.asids[i] <==> Holds(s, i))
  {
    forall f | 0 <= f < |s.refs| && f !in s.kernel
      ensures f in s.free <==> forall r: Ref :: Target(s, r) != Some(f)
    {
      SlotsIff(s, f);
      if f in s.free {
        forall r: Ref ensures Target(s, r) != Some(f) { ZeroIsUnmapped(s, f, r); }
      } else {
        assert Slots(s, f) != {} by { assert |Slots(s, f)| != 0; }
        var r :| r in Slots(s, f);
        assert Target(s, r) == Some(f);
      }
    }
  }

  /** So it is after boot. */
  lemma AllFreeKept(s: Vm)
    requires AllFree(s)
    ensures Kept(s)
  {
  }

  // ---- the operations ----

  lemma FreedKept(s: Vm, s': Vm, x: Option<nat>)
    requires FramesBut(s, x) && Freed(s, s') && s'.kernel == s.kernel
    ensures FramesBut(s', x)
  {
  }

  lemma CreateKept(s: Vm, e: nat, pd: nat, x: Option<nat>)
    requires Bounded(s) && Live(s, e) && pd < PD_UTOP && FramesBut(s, x)
    ensures FramesBut(CreateTable(s, e, pd).1, x)
  {
  }

  /** page_insert of `x`, counted or fresh from page_alloc, loses no other frame. */
  lemma InsertKept(s: Vm, ok: bool, s': Vm, e: nat, f: nat, pd: nat, pt: nat, perm: bv12)
    requires Inv(s) && Bounded(s) && Live(s, e) && pd < PD_UTOP && pt < 1024
    requires Insertable(s, f) && Countable(s, e, f, pd, pt) && FramesBut(s, Some(f))
    requires (ok, s') == PageInsert(s, e, f, pd, pt, perm)
    ensures FramesBut(s', Some(f)) && |s'.refs| == |s.refs|
    ensures ok ==> s'.refs[f] > 0 && FramesBut(s', None)
    ensures !ok ==> s'.refs[f] == s.refs[f] && f !in s'.free
  {
    LeafFacts(s, e, pd, pt);
    var w := Translate(s, e, pd, pt);
    if !(w.Some? && w.value.ppn == f) {
      var s1 := TlbInvalidate(PageRemove(s, e, pd, pt), s.envs[e].asid, pd, pt);
      InsertClears(s, s1, e, f, pd, pt);
      RemoveFreed(s, PageRemove(s, e, pd, pt), e, pd, pt);
      hide Inv, Insertable, PageRemove, Translate;
      FreedKept(s, s1, Some(f));
      if TableOf(s, e, pd).None? { CreateKept(s1, e, pd, Some(f)); }
      InsertTail(s, s1, ok, s', e, f, pd, pt, perm);
    }
  }

  /** The end of page_insert, once the old page is gone. */
  lemma InsertTail(s: Vm, s1: Vm, ok: bool, s': Vm, e: nat, f: nat, pd: nat, pt: nat, perm: bv12)
    requires Bounded(s1) && Live(s1, e) && pd < PD_UTOP && pt < 1024 && f < |s1.refs| && s1.refs[f] < 65535
    requires FramesBut(s1, Some(f)) && f !in s1.free
    requires TableOf(s1, e, pd).Some? ==>
               TableOf(s1, e, pd).value < |s1.words| && ok && s' == MapLeaf(s1, f, TableOf(s1, e, pd).value, pt, perm)
    requires TableOf(s1, e, pd).None? ==>
               var c := CreateTable(s1, e, pd);
               ok == c.0.Some? && s' == if ok then MapLeaf(c.1, f, c.0.value, pt, perm) else c.1
    ensures FramesBut(s', Some(f)) && |s'.refs| == |s1.refs|
    ensures ok ==> s'.refs[f] > 0
    ensures !ok ==> s'.refs[f] == s1.refs[f] && f !in s'.free
  {
  }

  lemma Weaken(s: Vm, f: nat)
    requires FramesBut(s, None)
    ensures FramesBut(s, Some(f))
  {
  }

  lemma AsidsSame(s: Vm, s': Vm)
    requires AsidsKept(s) && s'.envs == s.envs && s'.asids == s.asids
    ensures AsidsKept(s')
  {
    forall i | 0 <= i < |s'.asids| && s'.asids[i]
      ensures Holds(s', i)
    {
      assert Holds(s, i);
      var e: nat :| Live(s, e) && s.envs[e].asid == i;
      assert Live(s', e);
    }
  }

  /** A frame is lost: uncounted, off the list. */
  ghost predicate Lost(s: Vm, f: nat) { f < |s.refs| && f !in s.kernel && s.refs[f] == 0 && f !in s.free }

  lemma LostBreaks(s: Vm, f: nat)
    requires Lost(s, f)
    ensures !Kept(s)
  {
  }

  /** A new page for user memory loses its frame if and only if it was the last one and a table was missing. */
  lemma AddPageKept(s: Vm, r: Errno, s': Vm, e: nat, va: nat, perm: bv12)
    requires Inv(s) && Bounded(s) && Live(s, e) && va < UTOP && Kept(s) && (r, s') == AddPage(s, e, va, perm)
    ensures Kept(s') <==> !(|s.free| == 1 && TableOf(s, e, PDX(va)).None?)
    ensures |s.free| == 1 && TableOf(s, e, PDX(va)).None? ==> Lost(s', s.free[0])
  {
    hide Inv, Bounded, Translate, TableOf, PageInsert, AsidsKept, Insertable, PDX, PTX;
    AddPageKeeps(s, r, s', e, va, perm);
    AsidsSame(s, s');
    if s.free != [] {
      LayoutSlots(va);
      PtxInRange(va);
      var s1 := PageAlloc(s).1;
      PageAllocKeeps(s, s1);
      InvBounded(s1);
      assert FramesBut(s1, Some(s.free[0]));
      HeadNotKernel(s);
      InsertKept(s1, r == Success, s', e, s.free[0], PDX(va), PTX(va), perm);
    }
  }

  lemma HeadNotKernel(s: Vm)
    requires Inv(s) && s.free != []
    ensures s.free[0] < |s.refs| && s.free[0] !in s.kernel
  {
  }

  lemma ShareKept(s: Vm, r: Errno, s': Vm, src: nat, srcva: nat, dst: nat, dstva: nat, perm: bv12)
    requires Inv(s) && Bounded(s) && Live(s, src) && Live(s, dst) && srcva < UTOP && dstva < UTOP && Kept(s)
    requires Shareable(s, src, srcva, dst, dstva) && (r, s') == SharePage(s, src, srcva, dst, dstva, perm)
    ensures Kept(s')
  {
    LayoutSlots(srcva);
    LayoutSlots(dstva);
    PtxInRange(dstva);
    var w := Translate(s, src, PDX(srcva), PTX(srcva));
    ShareKeeps(s, r, s', src, srcva, dst, dstva, perm);
    if w.Some? {
      LeafFacts(s, src, PDX(srcva), PTX(srcva));
      MappedIsInsertable(s, src, PDX(srcva), PTX(srcva));
      hide Inv, Bounded, Translate, PageInsert, Insertable, AsidsKept;
      var f := w.value.ppn;
      Weaken(s, f);
      InsertKept(s, r == Success, s', dst, f, PDX(dstva), PTX(dstva), perm);
      AsidsSame(s, s');
    }
  }

  lemma RemoveKept(s: Vm, s': Vm, e: nat, pd: nat, pt: nat)
    requires Inv(s) && Bounded(s) && Live(s, e) && pd < PD_UTOP && pt < 1024 && Kept(s)
    requires s' == PageRemove(s, e, pd, pt)
    ensures Kept(s')
  {
    RemoveKeeps(s, s', e, pd, pt);
    RemoveFreed(s, s', e, pd, pt);
    hide Inv, PageRemove;
    FreedKept(s, s', None);
    AsidsSame(s, s');
  }

  lemma EnvAllocKept(s: Vm, s': Vm, e: nat)
    requires Inv(s) && Bounded(s) && e < |s.envs| && !Live(s, e) && s.base < |s.words| && Kept(s)
    requires s' == EnvAlloc(s, e).1 && FirstClear(s.asids, 0).Some?
    ensures Kept(s')
  {
    EnvAllocKeeps(s, EnvAlloc(s, e).0, s', e);
    forall i | 0 <= i < |s'.asids| && s'.asids[i]
      ensures Holds(s', i)
    {
      if i < |s.asids| && s.asids[i] {
        assert Holds(s, i);
        var o: nat :| Live(s, o) && s.envs[o].asid == i;
        assert Live(s', o) && s'.envs[o].asid == i;
      } else {
        assert Live(s', e) && s'.envs[e].asid == i;
      }
    }
    hide Inv, FirstClear, NewDirectory;
    assert FramesBut(s', None);
  }

  /** env_free gives back every frame that only the env used, its tables and directory, and its ASID. */
  lemma EnvFreeKept(s: Vm, s': Vm, e: nat)
    requires Inv(s) && Bounded(s) && Live(s, e) && s.envs[e].asid < |s.asids| && Kept(s) && s' == EnvFree(s, e)
    ensures Kept(s')
  {
    EnvFreeKeeps(s, s', e);
    KernelSame(s, e);
    FreedKept(s, s', None);
    forall i | 0 <= i < |s'.asids| && s'.asids[i]
      ensures Holds(s', i)
    {
      assert Holds(s, i);
      var o: nat :| Live(s, o) && s.envs[o].asid == i;
      OtherEnvs(s, e, o);
    }
  }

  lemma KernelSame(s: Vm, e: nat)
    requires Inv(s) && Bounded(s) && Live(s, e) && s.envs[e].asid < |s.asids|
    ensures EnvFree(s, e).kernel == s.kernel
  {
    ClearDirectoryKeeps(s, ClearDirectory(s, e, 0), e, 0);
    hide Inv, ClearDirectory;
  }

  lemma OtherEnvs(s: Vm, e: nat, o: nat)
    requires Inv(s) && Bounded(s) && Live(s, e) && s.envs[e].asid < |s.asids| && Live(s, o) && o != e
    ensures Live(EnvFree(s, e), o) && EnvFree(s, e).envs[o] == s.envs[o]
  {
    ClearDirectoryKeeps(s, ClearDirectory(s, e, 0), e, 0);
    hide Inv, ClearDirectory;
  }

  /** A first touch: as AddPage for user pages; a self-map page needs one frame only. */
  lemma PassiveKept(s: Vm, r: Errno, s': Vm, e: nat, va: nat)
    requires Inv(s) && Bounded(s) && Live(s, e) && va < ULIM && !PastSelfMap(va) && Kept(s)
    requires WalkWord(s, e, PDX(va), PTX(va)).None? && (r, s') == PassiveAlloc(s, e, va)
    ensures Kept(s') <==> !(Touchable(va) && va < UTOP && |s.free| == 1 && TableOf(s, e, PDX(va)).None?)
  {
    PassiveKeeps(s, r, s', e, va);
    LayoutSlots(va);
    if Touchable(va) && va < UTOP {
      AddPageKept(s, AddPage(s, e, va, PTE_D).0, AddPage(s, e, va, PTE_D).1, e, va, PTE_D);
      hide Inv, Bounded, Kept, PageInsert, PageAlloc;
      assert s' == AddPage(s, e, va, PTE_D).1;
    } else {
      AsidsSame(s, s');
      hide Inv, TableOf, WalkWord;
      assert FramesBut(s', None);
    }
  }

  lemma MissKept(s: Vm, e: nat, va: nat, victim: TlbKey)
    requires Inv(s) && Bounded(s) && Live(s, e) && va < ULIM && !PastSelfMap(va) && Kept(s)
    ensures Kept(Refill(s, e, va, victim).1) <==> !LosesFrame(s, Miss(e, va, victim))
  {
    var s0 := TlbInvalidate(s, s.envs[e].asid, PDX(va), PTX(va));
    InvalidateKeeps(s, s0, s.envs[e].asid, PDX(va), PTX(va));
    InvBounded(s0);
    AsidsSame(s, s0);
    assert FramesBut(s0, None);
    hide Inv, PassiveAlloc, PDX, PTX, Touchable, FramesBut, AsidsKept;
    if WalkWord(s0, e, PDX(va), PTX(va)).None? {
      var (r1, s1) := PassiveAlloc(s0, e, va);
      PassiveKept(s0, r1, s1, e, va);
      if r1 == Success && WalkWord(s1, e, PDX(va), PTX(va)).Some? && PTX(va) < 1024 {
        KeptSame(s1, TlbFill(s1, e, PDX(va), PTX(va), victim));
      }
    } else if PTX(va) < 1024 {
      KeptSame(s0, TlbFill(s0, e, PDX(va), PTX(va), victim));
    }
  }

  lemma KeptSame(s: Vm, s': Vm)
    requires s'.envs == s.envs && s'.asids == s.asids && s'.kernel == s.kernel
    requires s'.refs == s.refs && s'.free == s.free
    ensures Kept(s') <==> Kept(s)
  {
    if AsidsKept(s) { AsidsSame(s, s'); }
    if AsidsKept(s') { AsidsSame(s', s); }
  }

  // ---- steps and runs ----

  /** The last free frame is taken for a page whose table is missing, and cannot be had. */
  predicate LosesFrame(s: Vm, st: Step) {
    match st
    case MemAlloc(e, va, _) => UTEMP <= va < UTOP && |s.free| == 1 && TableOf(s, e, PDX(va)).None?
    case LoadPage(e, va, _) => |s.free| == 1 && TableOf(s, e, PDX(va)).None?
    case Miss(e, va, _) =>
      && WalkWord(s, e, PDX(va), PTX(va)).None? && Touchable(va) && va < UTOP
      && |s.free| == 1 && TableOf(s, e, PDX(va)).None?
    case _ => false
  }

  /** Every step gives back what it stops using, if and only if it does not fail half way on the last frame. */
  lemma ConserveExact(s: Vm, st: Step)
    requires Inv(s) && Bounded(s) && Enabled(s, st) && Kept(s)
    ensures Kept(Apply(s, st)) <==> !LosesFrame(s, st)
  {
    hide Inv, Bounded, Kept, PDX, PTX, TableOf, WalkWord, Touchable, EnvAlloc, EnvFree, Refill, PageRemove;
    hide SharePage, AddPage;
    var s' := Apply(s, st);
    match st
    case MemAlloc(e, va, perm) =>
      if !IllegalVa(va) { AddPageKept(s, AddPage(s, e, va, perm).0, s', e, va, perm); }
    case LoadPage(e, va, perm) => AddPageKept(s, AddPage(s, e, va, perm).0, s', e, va, perm);
    case MemMap(src, srcva, dst, dstva, perm) =>
      if !IllegalVa(srcva) && !IllegalVa(dstva) {
        ShareKept(s, SharePage(s, src, srcva, dst, dstva, perm).0, s', src, srcva, dst, dstva, perm);
      }
    case IpcShare(src, srcva, dst, dstva, perm) =>
      ShareKept(s, SharePage(s, src, srcva, dst, dstva, perm).0, s', src, srcva, dst, dstva, perm);
    case MemUnmap(e, va) =>
      if !IllegalVa(va) {
        LayoutSlots(va);
        PtxInRange(va);
        RemoveKept(s, s', e, PDX(va), PTX(va));
      }
    case NewEnv(e) => EnvAllocKept(s, s', e);
    case FreeEnv(e) => EnvFreeKept(s, s', e);
    case Miss(e, va, victim) => MissKept(s, e, va, victim);
    case UserStore(k, h, i, w) => KeptSame(s, s');
  }

  /**
   In every run in which no step fails half way on the last frame, a frame is free exactly when
   nothing names it and an ASID exactly when no live env has it, in every state.
   */
  lemma {:induction false} RunConserves(states: seq<Vm>, steps: seq<Step>, n: nat)
    requires IsRun(states, steps) && n <= |steps| && Booted(states[0]) && Kept(states[0])
    requires forall i :: 0 <= i < n ==> !LosesFrame(states[i], steps[i])
    ensures var s := states[n];
      && Kept(s)
      && (forall f :: 0 <= f < |s.refs| && f !in s.kernel ==>
            (f in s.free <==> forall r: Ref :: Target(s, r) != Some(f)))
      && (forall i :: 0 <= i < |s.asids| ==> (s.asids[i] <==> Holds(s, i)))
  {
    hide Inv, Bounded, Enabled, Apply, Kept, LosesFrame, Target, Booted;
    if n > 0 {
      RunConserves(states, steps, n - 1);
      RunKeeps(states, steps, n - 1);
      assert Next(states[n - 1], steps[n - 1], states[n]);
      ConserveExact(states[n - 1], steps[n - 1]);
    }
    RunKeeps(states, steps, n);
    KeptExact(states[n]);
  }

  /** A run from boot after which sys_mem_alloc fails and the last free frame is gone for good. */
  lemma LastFrameLost() returns (s: Vm, s': Vm)
    ensures Reached(s) && Bounded(s) && Live(s, 0) && Kept(s) && |s.free| == 1
    ensures (ENoMem, s') == SysMemAlloc(s, 0, UTEMP, 0) && Lost(s', s.free[0]) && s'.free == []
  {
    BootExists(2, 1);
    var s0: Vm :| Booted(s0) && |s0.free| == 2 && |s0.envs| == 1 && AllFree(s0);
    BootedReached(s0);
    ReachedKeeps(s0);
    assert Kept(s0) && s0.base < |s0.words| && FirstClear(s0.asids, 0) == Some(0) && !Live(s0, 0);
    s := OneEnv(s0);
    s' := SysMemAlloc(s, 0, UTEMP, 0).1;
    LastTaken(s, s');
  }

  lemma OneEnv(s0: Vm) returns (s: Vm)
    requires Reached(s0) && Inv(s0) && Bounded(s0) && Kept(s0) && s0.base < |s0.words| && |s0.envs| == 1
    requires FirstClear(s0.asids, 0) == Some(0) && |s0.free| == 2 && !Live(s0, 0)
    ensures Reached(s) && Inv(s) && Bounded(s) && Live(s, 0) && Kept(s) && |s.free| == 1 && TableOf(s, 0, 0).None?
  {
    hide Reached, Kept, FirstClear;
    ReachStep(s0, NewEnv(0));
    s := EnvAlloc(s0, 0).1;
    ReachedKeeps(s);
    EnvAllocKept(s0, s, 0);
    AllocTargets(s0, s, 0);
    assert Target(s, Link(0, 0)) == Target(s0, Link(0, 0));
  }

  lemma LastTaken(s: Vm, s': Vm)
    requires Inv(s) && Bounded(s) && Live(s, 0) && Kept(s) && |s.free| == 1 && TableOf(s, 0, 0).None?
    requires s' == SysMemAlloc(s, 0, UTEMP, 0).1
    ensures SysMemAlloc(s, 0, UTEMP, 0).0 == ENoMem && Lost(s', s.free[0]) && s'.free == []
  {
    hide Inv, Kept;
    assert PDX(UTEMP) == 0;
    AddPageKept(s, AddPage(s, 0, UTEMP, 0).0, s', 0, UTEMP, 0);
    MemAllocKeeps(s, SysMemAlloc(s, 0, UTEMP, 0).0, s', 0, UTEMP, 0);
  }
}
