/**
 Address spaces as a whole: env_setup_vm with asid_alloc and env_free of kern/env.c, and what
 each keeps of the invariant and of other address spaces.
 */
module VmEnv {
  import opened Wrappers
  import opened Mmu
  import opened VmState
  import opened VmOps

  // ---- env_alloc ----

  datatype AllocResult = Ok | NoMem | NoFreeEnv

  /** asid_alloc: the lowest clear bit of asid_bitmap. */
  function FirstClear(bits: seq<bool>, i: nat): (r: Option<nat>)
    requires i <= |bits|
    ensures r.Some? ==> i <= r.value < |bits| && !bits[r.value]
    ensures r.Some? ==> forall j :: i <= j < r.value ==> bits[j]
    ensures r.None? ==> forall j :: i <= j < |bits| ==> bits[j]
    decreases |bits| - i
  {
    if i == |bits| then None else if !bits[i] then Some(i) else FirstClear(bits, i + 1)
  }

  /** The directory env_setup_vm builds: template slots copied, self-map, nothing else. */
  function NewDirectory(base: Table, f: nat): Table {
    ZeroTable()[PD_UENVS := base[PD_UENVS]][PD_UPAGES := base[PD_UPAGES]][PD_UVPT := Word(f, PTE_V)]
  }

  /** env_setup_vm followed by asid_alloc, in that order: a missing ASID is found last. */
  function EnvAlloc(s: Vm, e: nat): (AllocResult, Vm)
    requires Bounded(s) && s.base < |s.words| && e < |s.envs|
  {
    var a := PageAlloc(s);
    if a.0.None? then (NoMem, s)
    else
      var f := a.0.value;
      var s1 := a.1.(refs := a.1.refs[f := (a.1.refs[f] + 1) % 65536],
                     words := a.1.words[f := NewDirectory(a.1.words[s.base], f)],
                     envs := a.1.envs[e := s.envs[e].(pgdir := f)]);
      var asid := FirstClear(s.asids, 0);
      if asid.None? then (NoFreeEnv, s1)
      else
        (Ok, s1.(asids := s1.asids[asid.value := true], envs := s1.envs[e := EnvVm(true, f, asid.value)]))
  }

  lemma AllocFacts(s: Vm)
    requires Inv(s) && s.free != []
    ensures forall e: nat :: Live(s, e) ==> s.envs[e].pgdir < |s.words| && s.envs[e].pgdir != s.free[0]
    ensures forall e: nat, pd: nat :: TableOf(s, e, pd).Some? ==> TableOf(s, e, pd).value != s.free[0]
    ensures forall e: nat, pd: nat :: TableOf(s, e, pd).Some? ==> TableOf(s, e, pd).value < |s.words|
  {
    var f0 := s.free[0];
    forall e: nat | Live(s, e)
      ensures s.envs[e].pgdir < |s.words| && s.envs[e].pgdir != f0
    {
      ZeroIsUnmapped(s, f0, Root(e));
      assert Target(s, Root(e)).Some?;
    }
    forall e: nat, pd: nat | TableOf(s, e, pd).Some?
      ensures TableOf(s, e, pd).value != f0 && TableOf(s, e, pd).value < |s.words|
    {
      ZeroIsUnmapped(s, f0, Link(e, pd));
      assert Target(s, Link(e, pd)).Some?;
    }
  }

  lemma AllocTargets(s: Vm, s': Vm, e: nat)
    requires Inv(s) && Bounded(s) && e < |s.envs| && !Live(s, e) && s.free != []
    requires s' == EnvAlloc(s, e).1
    ensures forall r: Ref :: r != Root(e) ==> Target(s', r) == Target(s, r)
    ensures NoPage(s, s')
    ensures Target(s', Root(e)) == if FirstClear(s.asids, 0).Some? then Some(s.free[0]) else None
  {
    AllocFacts(s);
    assert forall e': nat, pd: nat :: TableOf(s', e', pd) == TableOf(s, e', pd);
  }

  lemma AllocWalks(s: Vm, s': Vm, e: nat)
    requires Inv(s) && Bounded(s) && e < |s.envs| && !Live(s, e) && s.free != []
    requires s' == EnvAlloc(s, e).1
    ensures forall e': nat, pd: nat, pt: nat :: Live(s, e') ==>
              WalkWord(s', e', pd, pt) == WalkWord(s, e', pd, pt)
    ensures forall f :: f in s.kernel ==> s'.words[f] == s.words[f]
    ensures forall e': nat :: DirOk(s', e')
  {
    AllocFacts(s);
    forall e': nat
      ensures DirOk(s', e')
    {
      assert DirOk(s, e');
    }
    forall e': nat, pd: nat, pt: nat | Live(s, e')
      ensures WalkWord(s', e', pd, pt) == WalkWord(s, e', pd, pt)
    {
      assert DirOk(s, e');
      assert s'.words[s.envs[e'].pgdir] == s.words[s.envs[e'].pgdir];
      if pd < PD_UTOP { assert TableOf(s, e', pd) == TableOf(s', e', pd); }
    }
  }

  /**
   env_alloc keeps the invariant exactly when it does not run out of ASIDs: in that case
   the directory page is already counted but no env owns it.
   */
  lemma EnvAllocKeeps(s: Vm, r: AllocResult, s': Vm, e: nat)
    requires Inv(s) && Bounded(s) && e < |s.envs| && !Live(s, e)
    requires (r, s') == EnvAlloc(s, e)
    ensures Inv(s') <==> r != NoFreeEnv
    ensures r == NoMem ==> s' == s
    ensures NoPage(s, s')
    ensures r == Ok ==> Live(s', e) && forall e': nat :: Live(s, e') ==> s'.envs[e'] == s.envs[e']
    ensures r == Ok ==> var a := s'.envs[e].asid;
      && a < |s.asids| && !s.asids[a] && (forall i :: 0 <= i < a ==> s.asids[i]) && s'.asids == s.asids[a := true]
      && s.free != [] && s'.envs[e].pgdir == s.free[0]
    ensures r == Ok ==> forall pd: nat, pt: nat :: Translate(s', e, pd, pt).None?
    ensures r == NoFreeEnv <==> s.free != [] && forall i :: 0 <= i < NASID ==> s.asids[i]
  {
    hide Inv, Bounded, TableOf, WalkWord, FirstClear;
    if r == Ok {
      EnvAllocInv(s, s', e);
      AllocTargets(s, s', e);
      FreshSpaceEmpty(s, s', e);
    } else if r == NoFreeEnv {
      EnvAllocLeaks(s, s', e);
      AllocTargets(s, s', e);
    }
    EnvAllocResult(s, r, s', e);
  }

  /** The exact condition of each failure. */
  lemma EnvAllocResult(s: Vm, r: AllocResult, s': Vm, e: nat)
    requires Inv(s) && Bounded(s) && e < |s.envs| && !Live(s, e) && (r, s') == EnvAlloc(s, e)
    ensures r == NoMem <==> s.free == []
    ensures r == NoMem ==> s' == s
    ensures r == NoFreeEnv <==> s.free != [] && forall i :: 0 <= i < NASID ==> s.asids[i]
    ensures r == Ok ==> Live(s', e) && forall e': nat :: Live(s, e') ==> s'.envs[e'] == s.envs[e']
    ensures r == Ok ==> var a := s'.envs[e].asid;
      && a < |s.asids| && !s.asids[a] && (forall i :: 0 <= i < a ==> s.asids[i]) && s'.asids == s.asids[a := true]
      && s.free != [] && s'.envs[e].pgdir == s.free[0]
  {
    hide Counted, Exclusive, TlbOk, DirOk, BaseOk, InRange;
  }

  lemma FreshSpaceEmpty(s: Vm, s': Vm, e: nat)
    requires !Live(s, e) && NoPage(s, s')
    ensures forall pd: nat, pt: nat :: Translate(s', e, pd, pt).None?
  {
    forall pd: nat, pt: nat
      ensures Translate(s, e, pd, pt).None?
    {
    }
  }

  lemma EnvAllocLeaks(s: Vm, s': Vm, e: nat)
    requires Inv(s) && Bounded(s) && e < |s.envs| && !Live(s, e) && (NoFreeEnv, s') == EnvAlloc(s, e)
    ensures s.free != [] && !Inv(s')
  {
    hide TlbOk, DirOk, BaseOk, WalkWord, Exclusive;
    EnvAllocCounts(s, NoFreeEnv, s', e);
  }

  lemma EnvAllocInv(s: Vm, s': Vm, e: nat)
    requires Inv(s) && Bounded(s) && e < |s.envs| && !Live(s, e) && (Ok, s') == EnvAlloc(s, e)
    ensures s.free != [] && Inv(s')
  {
    hide TlbOk, Counted, Exclusive, DirOk, WalkWord;
    EnvAllocCounts(s, Ok, s', e);
    AllocTargets(s, s', e);
    AllocWalks(s, s', e);
    EnvAllocExclusive(s, s', e);
    EnvAllocTlb(s, s', e);
    assert Target(s', Root(e)) == Some(s.free[0]);
  }

  /** Counts stay exact, unless the directory has been taken for an env that gets no ASID. */
  lemma EnvAllocCounts(s: Vm, r: AllocResult, s': Vm, e: nat)
    requires Inv(s) && Bounded(s) && e < |s.envs| && !Live(s, e) && s.free != []
    requires (r, s') == EnvAlloc(s, e) && r != NoMem
    ensures r == Ok ==> Counted(s')
    ensures r == NoFreeEnv ==> s'.refs[s.free[0]] == 1 && Slots(s', s.free[0]) == {} && !Counted(s')
  {
    AllocTargets(s, s', e);
    hide TlbOk, DirOk, BaseOk, WalkWord, Exclusive;
    SlotsIff(s', s.free[0]);
    forall f | 0 <= f < |s.refs| && f !in s.kernel
      ensures |Slots(s', f)| == |Slots(s, f)| + if r == Ok && f == s.free[0] then 1 else 0
    {
      SlotsStep(s, s', Root(e), f);
      ZeroIsUnmapped(s, s.free[0], Root(e));
    }
    if r == NoFreeEnv {
      forall x: Ref
        ensures Target(s', x) != Some(s.free[0])
      {
        ZeroIsUnmapped(s, s.free[0], x);
      }
    }
  }

  lemma EnvAllocExclusive(s: Vm, s': Vm, e: nat)
    requires Inv(s) && Bounded(s) && e < |s.envs| && !Live(s, e) && s.free != []
    requires (Ok, s') == EnvAlloc(s, e)
    ensures Exclusive(s')
  {
    AllocTargets(s, s', e);
    forall r: Ref
      ensures Target(s, r) != Some(s.free[0])
    {
      ZeroIsUnmapped(s, s.free[0], r);
    }
  }

  /** A reused ASID exposes no page of its previous owner. */
  lemma EnvAllocTlb(s: Vm, s': Vm, e: nat)
    requires Inv(s) && Bounded(s) && e < |s.envs| && !Live(s, e) && s.free != []
    requires (Ok, s') == EnvAlloc(s, e)
    ensures TlbOk(s') && AsidsOk(s')
  {
    AllocWalks(s, s', e);
    forall k, h | k in s'.tlb && 0 <= h <= 1 && LoValid(s'.tlb[k].Half(h))
      ensures HalfOk(s', k, h)
    {
      assert HalfOk(s, k, h);
      if Private(k.pd, 2 * k.pair + h) {
        var o: nat :| Owned(s, k, h, s.tlb[k].Half(h), o);
        assert Owned(s', k, h, s'.tlb[k].Half(h), o);
      }
    }
  }

  /** No pair tagged with an ASID that no live env holds can translate a private page. */
  lemma FreedAsidIsClean(s: Vm, k: TlbKey, h: nat)
    requires Inv(s) && k in s.tlb && h <= 1 && LoValid(s.tlb[k].Half(h))
    requires forall e: nat :: Live(s, e) ==> s.envs[e].asid != k.asid
    ensures !Private(k.pd, 2 * k.pair + h)
  {
    assert HalfOk(s, k, h);
  }

  // ---- env_free ----

  /** The inner loop of env_free from slot `pt` on. */
  function ClearTable(s: Vm, e: nat, pd: nat, pt: nat): (s': Vm)
    requires Bounded(s) && Live(s, e) && pd < PD_UTOP && pt <= 1024
    ensures Bounded(s') && |s'.refs| == |s.refs| && s'.envs == s.envs
    decreases 1024 - pt
  {
    if pt == 1024 then s else ClearTable(PageRemove(s, e, pd, pt), e, pd, pt + 1)
  }

  /** Unlink an emptied table: clear the directory slot, drop the table, drop its UVPT pair. */
  function Unlink(s: Vm, e: nat, pd: nat): (s': Vm)
    requires Bounded(s) && Live(s, e) && pd < PD_UTOP
    ensures Bounded(s') && |s'.refs| == |s.refs| && s'.envs == s.envs
  {
    var t := TableOf(s, e, pd);
    if t.None? || t.value >= |s.refs| || s.refs[t.value] == 0 then s
    else
      var s1 := PageDecref(WriteWord(s, s.envs[e].pgdir, pd, ZERO), t.value);
      TlbInvalidate(s1, s.envs[e].asid, PD_UVPT, pd)
  }

  /** The outer loop of env_free from directory slot `pd` on. */
  function ClearDirectory(s: Vm, e: nat, pd: nat): (s': Vm)
    requires Bounded(s) && Live(s, e) && pd <= PD_UTOP
    ensures Bounded(s') && |s'.refs| == |s.refs| && s'.envs == s.envs
    decreases PD_UTOP - pd
  {
    if pd == PD_UTOP then s
    else if TableOf(s, e, pd).None? then ClearDirectory(s, e, pd + 1)
    else ClearDirectory(Unlink(ClearTable(s, e, pd, 0), e, pd), e, pd + 1)
  }

  function EnvFree(s: Vm, e: nat): Vm
    requires Bounded(s) && Live(s, e) && s.envs[e].asid < |s.asids|
  {
    var s1 := ClearDirectory(s, e, 0);
    var d := s.envs[e].pgdir;
    var s2 := if s1.refs[d] == 0 then s1 else PageDecref(s1, d);
    var s3 := TlbInvalidate(s2, s.envs[e].asid, PD_UVPT, PD_UVPT);
    s3.(asids := if s.envs[e].asid < |s3.asids| then s3.asids[s.envs[e].asid := false] else s3.asids,
        envs := s3.envs[e := s.envs[e].(live := false)])
  }

  /** What teardown may do to the free list: it only grows, and by every frame that drops to 0. */
  ghost predicate Freed(s: Vm, s': Vm) {
    && |s'.refs| == |s.refs|
    && (forall f :: f in s.free ==> f in s'.free)
    && (forall f :: 0 <= f < |s.refs| && s.refs[f] > 0 && s'.refs[f] == 0 ==> f in s'.free)
  }

  lemma FreedTrans(a: Vm, b: Vm, c: Vm)
    requires Freed(a, b) && Freed(b, c)
    ensures Freed(a, c)
  {
  }

  lemma RemoveFreed(s: Vm, s': Vm, e: nat, pd: nat, pt: nat)
    requires Bounded(s) && Live(s, e) && pd < PD_UTOP && pt < 1024
    requires s' == PageRemove(s, e, pd, pt)
    ensures Freed(s, s')
  {
    var w := Translate(s, e, pd, pt);
    if w.Some? && w.value.ppn < |s.refs| && s.refs[w.value.ppn] == 1 {
      assert s'.free == [w.value.ppn] + s.free;
    }
  }

  lemma NoSlotsPast(s: Vm, e: nat, pd: nat)
    ensures Freed(s, s) && forall j: nat :: 1024 <= j ==> Translate(s, e, pd, j).None?
  {
  }

  lemma {:induction false} ClearTableKeeps(s: Vm, s': Vm, e: nat, pd: nat, pt: nat)
    requires Inv(s) && Bounded(s) && Live(s, e) && pd < PD_UTOP && pt <= 1024
    requires s' == ClearTable(s, e, pd, pt)
    ensures Inv(s') && SameUser(s, s') && Freed(s, s')
    ensures TableOf(s', e, pd) == TableOf(s, e, pd)
    ensures forall j: nat :: pt <= j ==> Translate(s', e, pd, j).None?
    ensures forall e': nat, pd': nat, pt': nat :: !(e' == e && pd' == pd && pt <= pt') ==>
              Translate(s', e', pd', pt') == Translate(s, e', pd', pt')
    ensures forall r: Ref :: !(r.Leaf? && r.e == e && r.pd == pd) ==> Target(s', r) == Target(s, r)
    decreases 1024 - pt
  {
    hide Inv, Bounded, Translate, TableOf, PageRemove, Freed;
    NoSlotsPast(s, e, pd);
    if pt < 1024 {
      var s1 := PageRemove(s, e, pd, pt);
      RemoveKeeps(s, s1, e, pd, pt);
      RemoveFreed(s, s1, e, pd, pt);
      assert Target(s1, Link(e, pd)) == Target(s, Link(e, pd));
      ClearTableKeeps(s1, s', e, pd, pt + 1);
      FreedTrans(s, s1, s');
    }
  }

  /** The directory of a live env is no other env's directory and no page table. */
  lemma DirectoryIsOwn(s: Vm, e: nat)
    requires Inv(s) && Live(s, e)
    ensures s.envs[e].pgdir < |s.words|
    ensures forall e': nat :: Live(s, e') ==>
              s.envs[e'].pgdir < |s.words| && (s.envs[e'].pgdir == s.envs[e].pgdir ==> e' == e)
    ensures forall e': nat, pd: nat :: TableOf(s, e', pd).Some? ==> TableOf(s, e', pd).value != s.envs[e].pgdir
  {
    hide TlbOk, DirOk, BaseOk, WalkWord, Translate;
    var d := s.envs[e].pgdir;
    assert Target(s, Root(e)) == Some(d);
    forall e': nat | Live(s, e')
      ensures s.envs[e'].pgdir < |s.words| && (s.envs[e'].pgdir == d ==> e' == e)
    {
      assert Target(s, Root(e')) == Some(s.envs[e'].pgdir);
      if s.envs[e'].pgdir == d { SoleOwner(s, Root(e), Root(e')); }
    }
    forall e': nat, pd: nat | TableOf(s, e', pd).Some?
      ensures TableOf(s, e', pd).value != d
    {
      assert Target(s, Link(e', pd)) == TableOf(s, e', pd);
      if TableOf(s, e', pd).value == d { SoleOwner(s, Root(e), Link(e', pd)); }
    }
  }

  lemma UnlinkTargets(s: Vm, s': Vm, e: nat, pd: nat)
    requires Inv(s) && Live(s, e) && pd < PD_UTOP && TableOf(s, e, pd).Some?
    requires forall j: nat :: Translate(s, e, pd, j).None?
    requires s'.envs == s.envs && s.envs[e].pgdir < |s.words|
    requires s'.words == WriteWord(s, s.envs[e].pgdir, pd, ZERO).words
    ensures TableOf(s', e, pd).None?
    ensures NoPage(s, s')
    ensures forall e': nat, pd': nat :: TableOf(s', e', pd') ==
              if e' == e && pd' == pd then None else TableOf(s, e', pd')
    ensures forall r: Ref :: r != Link(e, pd) ==> Target(s', r) == Target(s, r)
  {
    hide TlbOk, DirOk, BaseOk, WalkWord, Counted, Exclusive;
    DirectoryIsOwn(s, e);
    assert forall e': nat, pd': nat :: TableOf(s', e', pd') ==
             if e' == e && pd' == pd then None else TableOf(s, e', pd');
  }

  /** Of what page_lookup finds, only the self-map's view of the unlinked slot changes. */
  lemma UnlinkWalks(s: Vm, s': Vm, e: nat, pd: nat)
    requires Inv(s) && Live(s, e) && pd < PD_UTOP && TableOf(s, e, pd).Some?
    requires forall j: nat :: Translate(s, e, pd, j).None?
    requires s'.envs == s.envs && s.envs[e].pgdir < |s.words|
    requires s'.words == WriteWord(s, s.envs[e].pgdir, pd, ZERO).words
    ensures forall e': nat, pd': nat, pt': nat ::
              !(e' == e && pd' == PD_UVPT && pt' == pd) && WalkWord(s, e', pd', pt').Some? ==>
              WalkWord(s', e', pd', pt') == WalkWord(s, e', pd', pt')
  {
    hide TlbOk, Counted, Exclusive;
    DirectoryIsOwn(s, e);
    assert Target(s, Root(e)) == Some(s.envs[e].pgdir);
    forall e': nat, pd': nat, pt': nat |
      !(e' == e && pd' == PD_UVPT && pt' == pd) && WalkWord(s, e', pd', pt').Some?
      ensures WalkWord(s', e', pd', pt') == WalkWord(s, e', pd', pt')
    {
      assert DirOk(s, e');
      if pd' < PD_UTOP {
        assert TableOf(s, e', pd').Some?;
        assert Translate(s, e', pd', pt').Some?;
      }
    }
  }

  lemma UnlinkKeeps(s: Vm, s': Vm, e: nat, pd: nat)
    requires Inv(s) && Bounded(s) && Live(s, e) && pd < PD_UTOP && TableOf(s, e, pd).Some?
    requires forall j: nat :: Translate(s, e, pd, j).None?
    requires s' == Unlink(s, e, pd)
    ensures Inv(s') && SameUser(s, s') && NoPage(s, s') && Freed(s, s')
    ensures TableOf(s', e, pd).None?
    ensures forall r: Ref :: r != Link(e, pd) ==> Target(s', r) == Target(s, r)
  {
    hide TlbOk, WalkWord, DirOk, Counted, Exclusive, BaseOk;
    assert Target(s, Link(e, pd)) == TableOf(s, e, pd);
    UnlinkCounts(s, s', e, pd);
    UnlinkTargets(s, s', e, pd);
    UnlinkTlb(s, s', e, pd);
  }

  /** Counts stay exact and directories and tables unaliased when a table is unlinked. */
  lemma UnlinkCounts(s: Vm, s': Vm, e: nat, pd: nat)
    requires Inv(s) && Bounded(s) && Live(s, e) && pd < PD_UTOP && TableOf(s, e, pd).Some?
    requires forall j: nat :: Translate(s, e, pd, j).None?
    requires s' == Unlink(s, e, pd)
    ensures TableOf(s, e, pd).value < |s.refs| && s.refs[TableOf(s, e, pd).value] == 1
    ensures s'.free == [TableOf(s, e, pd).value] + s.free
    ensures Sized(s') && Counted(s') && Exclusive(s')
  {
    hide TlbOk, WalkWord, DirOk;
    var t := TableOf(s, e, pd).value;
    var r0 := Link(e, pd);
    assert Target(s, r0) == Some(t);
    assert s.refs[t] == 1 && s'.free == [t] + s.free;
    UnlinkTargets(s, s', e, pd);
    forall f | 0 <= f < |s.refs| && f !in s.kernel
      ensures s'.refs[f] == |Slots(s', f)|
    {
      SlotsStep(s, s', r0, f);
    }
    forall r: Ref | !r.Leaf? && Target(s', r).Some? && Target(s', r).value < |s.refs|
      ensures s'.refs[Target(s', r).value] == 1
    {
      if Target(s, r) == Some(t) { SoleOwner(s, r0, r); }
    }
  }

  lemma UnlinkTlb(s: Vm, s': Vm, e: nat, pd: nat)
    requires Inv(s) && Bounded(s) && Live(s, e) && pd < PD_UTOP && TableOf(s, e, pd).Some?
    requires forall j: nat :: Translate(s, e, pd, j).None?
    requires s' == Unlink(s, e, pd) && Sized(s') && TableOf(s, e, pd).value < |s.refs|
    requires s.refs[TableOf(s, e, pd).value] == 1
    ensures TlbOk(s') && BaseOk(s')
    ensures forall e': nat :: DirOk(s', e')
  {
    hide Counted, Exclusive;
    UnlinkWalks(s, s', e, pd);
    UnlinkTargets(s, s', e, pd);
    LeafFacts(s, e, pd, 0);
    AsidFits(s, e);
    forall e': nat
      ensures DirOk(s', e')
    {
      assert DirOk(s, e');
    }
    TlbKeep(s, s');
  }

  /** One round of the outer loop: table `pd` of env `e` is emptied, unlinked and released. */
  lemma DropTableKeeps(s: Vm, s': Vm, e: nat, pd: nat)
    requires Inv(s) && Bounded(s) && Live(s, e) && pd < PD_UTOP && TableOf(s, e, pd).Some?
    requires s' == Unlink(ClearTable(s, e, pd, 0), e, pd)
    ensures Inv(s') && SameUser(s, s') && Freed(s, s')
    ensures forall i: nat :: TableOf(s', e, i) == if i == pd then None else TableOf(s, e, i)
    ensures forall r: Ref :: r.e != e || r.Root? ==> Target(s', r) == Target(s, r)
    ensures forall e': nat, i: nat, j: nat :: e' != e ==> Translate(s', e', i, j) == Translate(s, e', i, j)
  {
    hide Inv;
    hide Translate;
    hide ClearTable;
    hide Unlink;
    hide Freed;
    var s1 := ClearTable(s, e, pd, 0);
    ClearTableKeeps(s, s1, e, pd, 0);
    UnlinkKeeps(s1, s', e, pd);
    FreedTrans(s, s1, s');
    forall i: nat
      ensures TableOf(s', e, i) == if i == pd then None else TableOf(s, e, i)
    {
      assert i != pd ==> Target(s', Link(e, i)) == Target(s1, Link(e, i)) == Target(s, Link(e, i));
    }
  }

  lemma {:induction false} ClearDirectoryKeeps(s: Vm, s': Vm, e: nat, pd: nat)
    requires Inv(s) && Bounded(s) && Live(s, e) && pd <= PD_UTOP
    requires s' == ClearDirectory(s, e, pd)
    ensures Inv(s') && SameUser(s, s') && Freed(s, s')
    ensures forall i: nat :: pd <= i ==> TableOf(s', e, i).None?
    ensures forall i: nat :: i < pd ==> TableOf(s', e, i) == TableOf(s, e, i)
    ensures forall r: Ref :: r.e != e || r.Root? ==> Target(s', r) == Target(s, r)
    ensures forall e': nat, i: nat, j: nat :: e' != e ==> Translate(s', e', i, j) == Translate(s, e', i, j)
    decreases PD_UTOP - pd
  {
    hide Inv;
    hide Translate;
    hide Target;
    hide ClearTable;
    hide Unlink;
    if pd < PD_UTOP {
      if TableOf(s, e, pd).None? {
        ClearDirectoryKeeps(s, s', e, pd + 1);
      } else {
        var s2 := Unlink(ClearTable(s, e, pd, 0), e, pd);
        DropTableKeeps(s, s2, e, pd);
        ClearDirectoryKeeps(s2, s', e, pd + 1);
        FreedTrans(s, s2, s');
      }
    }
  }

  /**
   env_free: the invariant holds again, every reference of `e` and no other is gone, every
   frame whose count dropped to 0 is on the free list, and other envs see no change.
   */
  lemma EnvFreeKeeps(s: Vm, s': Vm, e: nat)
    requires Inv(s) && Bounded(s) && Live(s, e) && s' == EnvFree(s, e)
    ensures Inv(s') && Freed(s, s') && !Live(s', e)
    ensures forall e': nat :: e' != e ==> Live(s', e') == Live(s, e')
    ensures s.envs[e].asid < |s.asids| && s'.asids == s.asids[s.envs[e].asid := false]
    ensures forall r: Ref :: Target(s', r) == if r.e == e then None else Target(s, r)
    ensures forall e': nat, pd: nat, pt: nat :: e' != e ==>
              Translate(s', e', pd, pt) == Translate(s, e', pd, pt)
  {
    var s1 := ClearDirectory(s, e, 0);
    ClearDirectoryKeeps(s, s1, e, 0);
    var d := s.envs[e].pgdir;
    assert Target(s1, Root(e)) == Some(d);
    assert s1.refs[d] == 1 && s'.free == [d] + s1.free;
    DirectoryGone(s1, s', e);
    FreedTrans(s, s1, s');
  }

  lemma DirectoryGone(s: Vm, s': Vm, e: nat)
    requires Inv(s) && Bounded(s) && Live(s, e)
    requires forall pd: nat :: TableOf(s, e, pd).None?
    requires s.envs[e].pgdir < |s.refs| && s.refs[s.envs[e].pgdir] == 1
    requires s' == TlbInvalidate(PageDecref(s, s.envs[e].pgdir), s.envs[e].asid, PD_UVPT, PD_UVPT)
                     .(asids := s.asids[s.envs[e].asid := false],
                       envs := s.envs[e := s.envs[e].(live := false)])
    ensures Inv(s') && Freed(s, s') && !Live(s', e)
    ensures forall r: Ref :: Target(s', r) == if r.e == e then None else Target(s, r)
    ensures forall e': nat, pd: nat, pt: nat :: e' != e ==>
              Translate(s', e', pd, pt) == Translate(s, e', pd, pt)
  {
    hide TlbOk, WalkWord, DirOk, Counted, Exclusive, BaseOk;
    assert Target(s, Root(e)) == Some(s.envs[e].pgdir);
    assert forall r: Ref :: r != Root(e) ==> Target(s', r) == Target(s, r);
    assert s'.free == [s.envs[e].pgdir] + s.free;
    RootCounts(s, s', e);
    RootDirs(s, s', e);
    DirectoryGoneTlb(s, s', e);
  }

  /** Counts when a directory root goes: only the directory's own frame loses a reference. */
  lemma RootCounts(s: Vm, s': Vm, e: nat)
    requires Inv(s) && Live(s, e) && s.envs[e].pgdir < |s.refs| && s.refs[s.envs[e].pgdir] == 1
    requires s'.refs == s.refs[s.envs[e].pgdir := 0] && s'.kernel == s.kernel
    requires Target(s', Root(e)).None? && forall r: Ref :: r != Root(e) ==> Target(s', r) == Target(s, r)
    ensures Counted(s') && Exclusive(s')
  {
    hide TlbOk, WalkWord, DirOk, TableOf, Translate;
    var r0 := Root(e);
    assert Target(s, r0) == Some(s.envs[e].pgdir);
    forall f | 0 <= f < |s.refs| && f !in s.kernel
      ensures s'.refs[f] == |Slots(s', f)|
    {
      SlotsStep(s, s', r0, f);
    }
    forall r: Ref | !r.Leaf? && Target(s', r).Some? && Target(s', r).value < |s.refs|
      ensures s'.refs[Target(s', r).value] == 1
    {
      if Target(s, r) == Target(s, r0) { SoleOwner(s, r0, r); }
    }
  }

  lemma RootDirs(s: Vm, s': Vm, e: nat)
    requires Inv(s) && Live(s, e) && Sized(s') && s'.words == s.words && s'.base == s.base && s'.kernel == s.kernel
    requires s'.envs == s.envs[e := s.envs[e].(live := false)]
    ensures BaseOk(s') && forall e': nat :: DirOk(s', e')
  {
    hide TlbOk, Counted, Exclusive, InRange;
    forall e': nat
      ensures DirOk(s', e')
    {
      assert DirOk(s, e');
    }
  }

  lemma DirectoryGoneTlb(s: Vm, s': Vm, e: nat)
    requires Inv(s) && Live(s, e) && Sized(s')
    requires forall pd: nat :: TableOf(s, e, pd).None?
    requires s'.words == s.words && s'.base == s.base && s'.kernel == s.kernel
    requires s'.envs == s.envs[e := s.envs[e].(live := false)]
    requires s'.tlb == s.tlb - {TlbKey(PD_UVPT, PD_UVPT / 2, s.envs[e].asid % NASID)}
    ensures TlbOk(s')
  {
    AsidFits(s, e);
    LeafFacts(s, e, 0, 0);
    forall k, h | k in s'.tlb && 0 <= h <= 1 && LoValid(s'.tlb[k].Half(h))
      ensures HalfOk(s', k, h)
    {
      assert HalfOk(s, k, h);
      if Private(k.pd, 2 * k.pair + h) {
        var o: nat :| Owned(s, k, h, s.tlb[k].Half(h), o);
        assert DirOk(s, e);
        if k.pd < PD_UTOP { assert TableOf(s, e, k.pd).None?; }
        if 2 * k.pair + h < PD_UTOP { assert TableOf(s, e, 2 * k.pair + h).None?; }
        assert o != e;
        assert Owned(s', k, h, s'.tlb[k].Half(h), o);
      }
    }
  }
}
