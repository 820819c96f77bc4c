/**
 The limits of the invariant: what a touch past the self-map costs for good, and runs that use
 up the ASIDs and the 16-bit reference counts.
 */
module VmLimits {
  import opened Wrappers
  import opened Mmu
  import opened VmState
  import opened VmOps
  import opened VmEnv
  import opened VmRun

  // ---- the frame that env_free does not give back ----

  /** `a` with frame `f` counted once and linked from slot `i` of directory `d`. */
  function Leaked(a: Vm, d: nat, i: nat, w: Word, f: nat): Vm
    requires f < |a.refs| && d < |a.words| && i < 1024
  {
    a.(refs := a.refs[f := 1], words := a.words[d := a.words[d][i := w]])
  }

  /** A frame in limbo, and a slot that no user table uses. */
  ghost predicate Loose(a: Vm, e: nat, i: nat, f: nat) {
    && Inv(a) && Bounded(a) && Live(a, e) && PD_UVPT < i < 1024
    && f < |a.refs| && f !in a.kernel && f !in a.free && a.refs[f] == 0
  }

  /** The extra slot changes nothing that user tables show. */
  lemma LeakHidden(a: Vm, e: nat, i: nat, w: Word, f: nat)
    requires Loose(a, e, i, f)
    ensures a.envs[e].pgdir < |a.words| && a.envs[e].pgdir != f
    ensures var b := Leaked(a, a.envs[e].pgdir, i, w, f);
      && Bounded(b) && Live(b, e)
      && (forall e': nat, pd: nat :: TableOf(b, e', pd) == TableOf(a, e', pd))
      && (forall e': nat, pd: nat, pt: nat :: Translate(b, e', pd, pt) == Translate(a, e', pd, pt))
  {
    DirectoryIsOwn(a, e);
    ZeroIsUnmapped(a, f, Root(e));
    hide Inv;
    var b := Leaked(a, a.envs[e].pgdir, i, w, f);
    assert forall e': nat, pd: nat :: TableOf(b, e', pd) == TableOf(a, e', pd);
  }

  lemma LeakBounds(a: Vm, e: nat, i: nat, w: Word, f: nat)
    requires Loose(a, e, i, f)
    ensures Inv(a) && Bounded(a) && Live(a, e) && f < |a.refs| && i < 1024
    ensures a.envs[e].pgdir < |a.words| && a.envs[e].pgdir != f
    ensures var b := Leaked(a, a.envs[e].pgdir, i, w, f); Bounded(b) && Live(b, e)
  {
    LeakHidden(a, e, i, w, f);
  }

  lemma RemoveCommutes(a: Vm, e: nat, i: nat, w: Word, f: nat, pd: nat, pt: nat)
    requires Loose(a, e, i, f) && pd < PD_UTOP && pt < 1024 && a.envs[e].pgdir < |a.words|
    ensures var d := a.envs[e].pgdir;
      var b := Leaked(a, d, i, w, f);
      && Bounded(b) && Live(b, e) && Loose(PageRemove(a, e, pd, pt), e, i, f)
      && PageRemove(b, e, pd, pt) == Leaked(PageRemove(a, e, pd, pt), d, i, w, f)
  {
    LeakHidden(a, e, i, w, f);
    DirectoryIsOwn(a, e);
    LeafFacts(a, e, pd, pt);
    ZeroIsUnmapped(a, f, Leaf(e, pd, pt));
    RemoveLoose(a, e, i, f, pd, pt);
    hide Inv, Loose, Bounded;
    RemoveEqual(a, e, i, w, f, pd, pt);
  }

  lemma RemoveLoose(a: Vm, e: nat, i: nat, f: nat, pd: nat, pt: nat)
    requires Loose(a, e, i, f) && pd < PD_UTOP && pt < 1024
    ensures Loose(PageRemove(a, e, pd, pt), e, i, f)
  {
    RemoveKeeps(a, PageRemove(a, e, pd, pt), e, pd, pt);
    ZeroIsUnmapped(a, f, Leaf(e, pd, pt));
    hide Inv, PageRemove;
  }

  lemma RemoveEqual(a: Vm, e: nat, i: nat, w: Word, f: nat, pd: nat, pt: nat)
    requires Bounded(a) && Live(a, e) && pd < PD_UTOP && pt < 1024 && i < 1024 && f < |a.refs|
    requires a.envs[e].pgdir < |a.words| && Target(a, Leaf(e, pd, pt)) != Some(f)
    requires TableOf(a, e, pd) != Some(a.envs[e].pgdir)
    requires var b := Leaked(a, a.envs[e].pgdir, i, w, f);
      && Bounded(b) && Live(b, e) && TableOf(b, e, pd) == TableOf(a, e, pd)
      && Translate(b, e, pd, pt) == Translate(a, e, pd, pt)
    ensures var d := a.envs[e].pgdir;
      PageRemove(Leaked(a, d, i, w, f), e, pd, pt) == Leaked(PageRemove(a, e, pd, pt), d, i, w, f)
  {
    hide Bounded, TableOf;
    var d := a.envs[e].pgdir;
    var x := Translate(a, e, pd, pt);
    if x.Some? && x.value.ppn < |a.refs| && a.refs[x.value.ppn] > 0 {
      var t, p := TableOf(a, e, pd).value, x.value.ppn;
      var row := a.words[t][pt := ZERO];
      assert a.words[d := a.words[d][i := w]][t := row] == a.words[t := row][d := a.words[d][i := w]];
      assert a.refs[f := 1][p := a.refs[p] - 1] == a.refs[p := a.refs[p] - 1][f := 1];
    }
  }

  lemma {:induction false} ClearTableCommutes(a: Vm, e: nat, i: nat, w: Word, f: nat, pd: nat, pt: nat)
    requires Loose(a, e, i, f) && pd < PD_UTOP && pt <= 1024 && a.envs[e].pgdir < |a.words|
    ensures var d := a.envs[e].pgdir;
      var b := Leaked(a, d, i, w, f);
      && Bounded(b) && Live(b, e) && Loose(ClearTable(a, e, pd, pt), e, i, f)
      && ClearTable(b, e, pd, pt) == Leaked(ClearTable(a, e, pd, pt), d, i, w, f)
    decreases 1024 - pt
  {
    LeakHidden(a, e, i, w, f);
    if pt < 1024 {
      hide Loose, PageRemove;
      RemoveCommutes(a, e, i, w, f, pd, pt);
      ClearTableCommutes(PageRemove(a, e, pd, pt), e, i, w, f, pd, pt + 1);
    }
  }

  lemma UnlinkCommutes(a: Vm, e: nat, i: nat, w: Word, f: nat, pd: nat)
    requires Loose(a, e, i, f) && pd < PD_UTOP && TableOf(a, e, pd).Some? && a.envs[e].pgdir < |a.words|
    requires forall j: nat :: Translate(a, e, pd, j).None?
    ensures var d := a.envs[e].pgdir;
      var b := Leaked(a, d, i, w, f);
      && Bounded(b) && Live(b, e) && Loose(Unlink(a, e, pd), e, i, f)
      && Unlink(b, e, pd) == Leaked(Unlink(a, e, pd), d, i, w, f)
  {
    var d := a.envs[e].pgdir;
    var b := Leaked(a, d, i, w, f);
    LeakHidden(a, e, i, w, f);
    LeafFacts(a, e, pd, 0);
    ZeroIsUnmapped(a, f, Link(e, pd));
    UnlinkKeeps(a, Unlink(a, e, pd), e, pd);
    InvBounded(Unlink(a, e, pd));
    UnlinkCounts(a, Unlink(a, e, pd), e, pd);
    hide Inv;
    var t := TableOf(a, e, pd).value;
    assert a.words[d][i := w][pd := ZERO] == a.words[d][pd := ZERO][i := w];
    assert a.refs[f := 1][t := a.refs[t] - 1] == a.refs[t := a.refs[t] - 1][f := 1];
    assert Unlink(b, e, pd).words == Leaked(Unlink(a, e, pd), d, i, w, f).words;
  }

  /** One turn of the outer loop of env_free, on a slot that links a table. */
  lemma DropCommutes(a: Vm, e: nat, i: nat, w: Word, f: nat, pd: nat)
    requires Loose(a, e, i, f) && pd < PD_UTOP && a.envs[e].pgdir < |a.words| && Live(a, e) && Bounded(a)
    requires TableOf(a, e, pd).Some?
    ensures var d := a.envs[e].pgdir;
      var b := Leaked(a, d, i, w, f);
      var a' := Unlink(ClearTable(a, e, pd, 0), e, pd);
      && Bounded(b) && Live(b, e) && TableOf(b, e, pd) == TableOf(a, e, pd) && Loose(a', e, i, f)
      && Unlink(ClearTable(b, e, pd, 0), e, pd) == Leaked(a', d, i, w, f)
  {
    LeakHidden(a, e, i, w, f);
    var a1 := ClearTable(a, e, pd, 0);
    ClearTableKeeps(a, a1, e, pd, 0);
    hide Inv, ClearTable, Unlink, Translate, TableOf;
    ClearTableCommutes(a, e, i, w, f, pd, 0);
    UnlinkCommutes(a1, e, i, w, f, pd);
  }

  /** What the outer loop leaves to do after slot `pd`. */
  function AfterSlot(s: Vm, e: nat, pd: nat): (s': Vm)
    requires Bounded(s) && Live(s, e) && pd < PD_UTOP
    ensures Bounded(s') && s'.envs == s.envs
  {
    if TableOf(s, e, pd).None? then s else Unlink(ClearTable(s, e, pd, 0), e, pd)
  }

  lemma LoopStep(s: Vm, e: nat, pd: nat)
    requires Bounded(s) && Live(s, e) && pd < PD_UTOP
    ensures ClearDirectory(s, e, pd) == ClearDirectory(AfterSlot(s, e, pd), e, pd + 1)
  {
    hide Bounded, TableOf, ClearTable, Unlink;
  }

  lemma SlotCommutes(a: Vm, e: nat, i: nat, w: Word, f: nat, pd: nat)
    requires Loose(a, e, i, f) && pd < PD_UTOP && a.envs[e].pgdir < |a.words| && Bounded(a) && Live(a, e)
    ensures var d := a.envs[e].pgdir;
      var b := Leaked(a, d, i, w, f);
      && Bounded(b) && Live(b, e) && Loose(AfterSlot(a, e, pd), e, i, f)
      && AfterSlot(b, e, pd) == Leaked(AfterSlot(a, e, pd), d, i, w, f)
  {
    LeakBounds(a, e, i, w, f);
    SlotHidden(a, e, i, w, f, pd);
    if TableOf(a, e, pd).Some? { DropCommutes(a, e, i, w, f, pd); }
    hide Inv, Loose, Bounded, TableOf, ClearTable, Unlink;
  }

  lemma {:induction false} ClearDirectoryCommutes(a: Vm, e: nat, i: nat, w: Word, f: nat, pd: nat)
    requires Loose(a, e, i, f) && pd <= PD_UTOP && a.envs[e].pgdir < |a.words|
    ensures var d := a.envs[e].pgdir;
      var b := Leaked(a, d, i, w, f);
      && Bounded(b) && Live(b, e) && Loose(ClearDirectory(a, e, pd), e, i, f)
      && ClearDirectory(b, e, pd) == Leaked(ClearDirectory(a, e, pd), d, i, w, f)
    decreases PD_UTOP - pd
  {
    LeakBounds(a, e, i, w, f);
    if pd < PD_UTOP {
      hide Inv, Loose, Bounded, AfterSlot, ClearDirectory;
      LoopStep(a, e, pd);
      LoopStep(Leaked(a, a.envs[e].pgdir, i, w, f), e, pd);
      SlotCommutes(a, e, i, w, f, pd);
      ClearDirectoryCommutes(AfterSlot(a, e, pd), e, i, w, f, pd + 1);
    }
  }

  lemma SlotHidden(a: Vm, e: nat, i: nat, w: Word, f: nat, pd: nat)
    requires Loose(a, e, i, f) && a.envs[e].pgdir < |a.words|
    ensures TableOf(Leaked(a, a.envs[e].pgdir, i, w, f), e, pd) == TableOf(a, e, pd)
  {
    LeakHidden(a, e, i, w, f);
  }

  lemma EnvFreeCommutes(a: Vm, e: nat, i: nat, w: Word, f: nat)
    requires Loose(a, e, i, f) && a.envs[e].pgdir < |a.words| && a.envs[e].asid < |a.asids|
    ensures var d := a.envs[e].pgdir;
      var b := Leaked(a, d, i, w, f);
      && Bounded(b) && Live(b, e) && d < |EnvFree(a, e).words| && f < |EnvFree(a, e).refs|
      && EnvFree(b, e) == Leaked(EnvFree(a, e), d, i, w, f)
      && f !in EnvFree(a, e).free
  {
    hide Inv, Loose, ClearDirectory, Bounded;
    LeakBounds(a, e, i, w, f);
    ClearDirectoryCommutes(a, e, i, w, f, 0);
    LooseFacts(ClearDirectory(a, e, 0), e, i, f);
    DecrefCommutes(ClearDirectory(a, e, 0), a.envs[e].pgdir, i, w, f);
  }

  lemma LooseFacts(a: Vm, e: nat, i: nat, f: nat)
    requires Loose(a, e, i, f)
    ensures f < |a.refs| == |a.words| && f !in a.free && i < 1024
  {
    hide Inv;
  }

  lemma DecrefCommutes(a: Vm, d: nat, i: nat, w: Word, f: nat)
    requires f < |a.refs| == |a.words| && d < |a.words| && i < 1024 && d != f && f !in a.free
    ensures a.refs[d] > 0 ==>
              && PageDecref(Leaked(a, d, i, w, f), d) == Leaked(PageDecref(a, d), d, i, w, f)
              && f !in PageDecref(a, d).free
  {
    if a.refs[d] > 0 {
      assert a.refs[f := 1][d := a.refs[d] - 1] == a.refs[d := a.refs[d] - 1][f := 1];
    }
  }

  /** A passive allocation past the self-map is the loose frame it took, linked and counted. */
  lemma LeakIsLeaked(s: Vm, e: nat, va: nat) returns (a: Vm)
    requires Inv(s) && Bounded(s) && Live(s, e) && PastSelfMap(va) && va < ULIM && s.free != []
    ensures Loose(a, e, PTX(va), s.free[0]) && a.envs == s.envs && a.asids == s.asids
    ensures s.envs[e].pgdir < |a.words|
    ensures PassiveAlloc(s, e, va).1 == Leaked(a, s.envs[e].pgdir, PTX(va), Entry(s.free[0], 0), s.free[0])
  {
    var s1 := PageAlloc(s).1;
    PageAllocKeeps(s, s1);
    a := TlbInvalidate(s1, s.envs[e].asid, PD_UVPT, PTX(va));
    InvalidateKeeps(s1, a, s.envs[e].asid, PD_UVPT, PTX(va));
    InvBounded(a);
    LeafFacts(s, e, 0, 0);
  }

  /**
   The frame taken past the self-map is lost for good: after env_free has torn down the whole
   address space it still has count 1, is not free, and is named from nowhere.
   */
  lemma LeakOutlivesEnv(s: Vm, s': Vm, e: nat, va: nat)
    requires Inv(s) && Bounded(s) && Live(s, e) && PastSelfMap(va) && va < ULIM && s.free != []
    requires s' == PassiveAlloc(s, e, va).1
    ensures Bounded(s') && Live(s', e) && s'.envs[e].asid < |s'.asids|
    ensures var t := EnvFree(s', e);
      var f := s.free[0];
      f < |t.refs| && t.refs[f] == 1 && f !in t.free && !Live(t, e) && (forall r: Ref :: Target(t, r) != Some(f))
  {
    var f, i := s.free[0], PTX(va);
    var a := LeakIsLeaked(s, e, va);
    AsidInRange(a, e);
    EnvFreeCommutes(a, e, i, Entry(f, 0), f);
    var d := a.envs[e].pgdir;
    var a' := EnvFree(a, e);
    EnvFreeKeeps(a, a', e);
    forall r: Ref
      ensures Target(a', r) != Some(f)
    {
      ZeroIsUnmapped(a, f, r);
    }
    FreedDirectory(a, e);
    LeakHiddenAfter(a', d, i, Entry(f, 0), f);
  }

  lemma AsidInRange(a: Vm, e: nat)
    requires Inv(a) && Live(a, e)
    ensures a.envs[e].asid < |a.asids|
  {
  }

  /** The directory of a freed env is named by no one. */
  lemma FreedDirectory(a: Vm, e: nat)
    requires Inv(a) && Bounded(a) && Live(a, e) && a.envs[e].asid < |a.asids|
    ensures forall r: Ref :: Target(EnvFree(a, e), r) != Some(a.envs[e].pgdir)
  {
    EnvFreeKeeps(a, EnvFree(a, e), e);
    assert Target(a, Root(e)) == Some(a.envs[e].pgdir);
    forall r: Ref
      ensures Target(EnvFree(a, e), r) != Some(a.envs[e].pgdir)
    {
      if r.e != e && Target(a, r) == Some(a.envs[e].pgdir) { SoleOwner(a, Root(e), r); }
    }
  }

  /** Writing a frame that nothing names changes no reference. */
  lemma LeakHiddenAfter(a: Vm, d: nat, i: nat, w: Word, f: nat)
    requires f < |a.refs| && d < |a.words| && i < 1024 && forall r: Ref :: Target(a, r) != Some(d)
    ensures forall r: Ref :: Target(Leaked(a, d, i, w, f), r) == Target(a, r)
  {
    var b := Leaked(a, d, i, w, f);
    forall e: nat | Live(a, e)
      ensures a.envs[e].pgdir != d
    {
      assert Target(a, Root(e)) != Some(d);
    }
    forall e: nat, pd: nat
      ensures TableOf(b, e, pd) == TableOf(a, e, pd) && TableOf(a, e, pd) != Some(d)
    {
      assert Target(a, Link(e, pd)) != Some(d);
    }
  }

  // ---- runs that reach the limits ----

  ghost predicate Reached(s: Vm) {
    exists states, steps :: IsRun(states, steps) && Booted(states[0]) && states[|steps|] == s
  }

  lemma ReachedKeeps(s: Vm)
    requires Reached(s)
    ensures Inv(s) && Bounded(s)
  {
    var states, steps :| IsRun(states, steps) && Booted(states[0]) && states[|steps|] == s;
    RunKeeps(states, steps, |steps|);
  }

  lemma ReachStep(s: Vm, st: Step)
    requires Reached(s) && Bounded(s) && Enabled(s, st)
    ensures Reached(Apply(s, st))
  {
    hide Enabled, Apply, Bounded, Booted;
    var states, steps :| IsRun(states, steps) && Booted(states[0]) && states[|steps|] == s;
    var states', steps' := states + [Apply(s, st)], steps + [st];
    forall i | 0 <= i < |steps'|
      ensures Next(states'[i], steps'[i], states'[i + 1])
    {
      if i < |steps| { assert Next(states[i], steps[i], states[i + 1]); }
    }
    assert IsRun(states', steps') && states'[|steps'|] == Apply(s, st);
  }

  /** The envs below `k` live, with the ASIDs below `k` and nothing mapped. */
  ghost predicate Populated(s: Vm, k: nat, nfree: nat) {
    && Reached(s) && |s.envs| == 257 && |s.free| + k == nfree && |s.asids| == NASID
    && (forall e: nat :: Live(s, e) <==> e < k)
    && (forall i :: 0 <= i < NASID ==> (s.asids[i] <==> i < k))
    && (forall e: nat, pd: nat, pt: nat :: Translate(s, e, pd, pt).None?)
  }

  lemma FirstClearAt(bits: seq<bool>, i: nat, k: nat)
    requires i <= k <= |bits| && (forall j :: i <= j < k ==> bits[j]) && (k < |bits| ==> !bits[k])
    ensures FirstClear(bits, i) == if k < |bits| then Some(k) else None
    decreases k - i
  {
  }

  lemma BootedReached(s: Vm)
    requires Booted(s)
    ensures Reached(s)
  {
    var states, steps: seq<Step> := [s], [];
    assert IsRun(states, steps) && Booted(states[0]) && states[|steps|] == s;
  }

  lemma PopulateStep(s: Vm, k: nat, nfree: nat)
    requires Populated(s, k, nfree) && k < NASID && k < nfree && Inv(s) && Bounded(s)
    ensures Enabled(s, NewEnv(k)) && Populated(Apply(s, NewEnv(k)), k + 1, nfree)
  {
    FirstClearAt(s.asids, 0, k);
    InvSized(s);
    hide Inv, Reached, Bounded, Translate, FirstClear;
    ReachStep(s, NewEnv(k));
    var (r, s') := EnvAlloc(s, k);
    EnvAllocKeeps(s, r, s', k);
    NewEnvFacts(s, s', k);
  }

  lemma NewEnvFacts(s: Vm, s': Vm, k: nat)
    requires Bounded(s) && s.base < |s.words| && k < |s.envs| && s.free != [] && k < |s.asids|
    requires FirstClear(s.asids, 0) == Some(k) && s' == EnvAlloc(s, k).1
    ensures EnvAlloc(s, k).0 == VmEnv.Ok && |s'.envs| == |s.envs| && |s'.free| + 1 == |s.free|
    ensures s'.asids == s.asids[k := true] && forall e: nat :: Live(s', e) <==> Live(s, e) || e == k
  {
    hide FirstClear, NewDirectory;
  }

  lemma {:induction false} Populate(k: nat, nfree: nat) returns (s: Vm)
    requires k <= NASID && k < nfree
    ensures Populated(s, k, nfree)
  {
    if k == 0 {
      BootExists(nfree, 257);
      s :| Booted(s) && |s.free| == nfree && |s.envs| == 257 && AllFree(s);
      BootedReached(s);
    } else {
      var s0 := Populate(k - 1, nfree);
      ReachedKeeps(s0);
      PopulateStep(s0, k - 1, nfree);
      s := Apply(s0, NewEnv(k - 1));
    }
  }

  lemma InvSized(s: Vm)
    requires Inv(s)
    ensures Sized(s)
  {
  }

  /**
   A run from boot after which env_alloc takes a frame for the directory, finds no ASID, and
   leaves the frame counted but named from nowhere.
   */
  lemma AsidsRunOut() returns (s: Vm)
    ensures Reached(s) && Inv(s) && Bounded(s) && s.base < |s.words| && |s.envs| == 257 && !Live(s, 256)
    ensures var (r, s') := EnvAlloc(s, 256);
      && r == NoFreeEnv && !Inv(s') && s.free != []
      && s'.refs[s.free[0]] == 1 && s.free[0] !in s'.free && Slots(s', s.free[0]) == {}
  {
    s := Populate(NASID, 300);
    ReachedKeeps(s);
    var (r, s') := EnvAlloc(s, 256);
    EnvAllocKeeps(s, r, s', 256);
    EnvAllocCounts(s, r, s', 256);
  }

  // ---- 65535 references ----

  /** Page number `n` of the stretch that begins at UTEMP. */
  function PageVa(n: nat): nat { (1022 + n) * PAGE_SIZE }

  lemma PageSlots(n: nat)
    requires n <= 65536
    ensures !IllegalVa(PageVa(n)) && PDX(PageVa(n)) < PD_UTOP && PTX(PageVa(n)) < 1024
    ensures 1024 * PDX(PageVa(n)) + PTX(PageVa(n)) == 1022 + n
  {
    LayoutSlots(PageVa(n));
  }

  function SlotOf(s: Vm, n: nat): Option<Word> { Translate(s, 0, PDX(PageVa(n)), PTX(PageVa(n))) }

  /** The number of page tables under the first `k` pages of the stretch. */
  function TablesFor(k: nat): nat { (1021 + k) / 1024 + 1 }

  /** One frame mapped at the first `k` pages of the stretch and at none of the others. */
  ghost predicate MappedTimes(s: Vm, f: nat, k: nat) {
    && Reached(s) && Live(s, 0) && f < |s.refs| && s.refs[f] == k && k <= 65535 && |s.free| + TablesFor(k) >= 70
    && (forall n: nat :: n < k ==> SlotOf(s, n) == Some(Entry(f, 0)))
    && (forall n: nat :: k <= n <= 65536 ==> SlotOf(s, n).None?)
  }

  /** A page that was not mapped: one more reference, and at most one frame for its table. */
  lemma InsertCounts(s: Vm, s': Vm, e: nat, f: nat, pd: nat, pt: nat, perm: bv12)
    requires Inv(s) && Bounded(s) && Live(s, e) && pd < PD_UTOP && pt < 1024 && f < |s.refs| && f !in s.free
    requires Translate(s, e, pd, pt).None? && (true, s') == PageInsert(s, e, f, pd, pt, perm)
    ensures |s'.refs| == |s.refs| && s'.refs[f] == (s.refs[f] + 1) % 65536 && s'.envs == s.envs
    ensures |s'.free| == |s.free| - (if TableOf(s, e, pd).None? then 1 else 0)
  {
    LeafFacts(s, e, pd, pt);
    hide Inv;
  }

  lemma ReachMemAlloc(s: Vm, e: nat, va: nat, perm: bv12)
    requires Reached(s) && Bounded(s) && Live(s, e)
    ensures Reached(SysMemAlloc(s, e, va, perm).1)
  {
    hide Reached, Bounded, SysMemAlloc;
    ReachStep(s, MemAlloc(e, va, perm));
  }

  lemma PopulatedFacts(s: Vm, k: nat, nfree: nat)
    requires Populated(s, k, nfree) && k > 0
    ensures Reached(s) && Live(s, 0) && |s.free| + k == nfree
    ensures forall pd: nat, pt: nat :: Translate(s, 0, pd, pt).None?
  {
  }

  lemma FirstMapping() returns (s: Vm, f: nat)
    ensures MappedTimes(s, f, 1)
  {
    assert 1 <= NASID;
    hide *;
    var s0 := Populate(1, 80);
    s, f := FirstFrom(s0);
  }

  lemma FirstFrom(s0: Vm) returns (s: Vm, f: nat)
    requires Populated(s0, 1, 80)
    ensures MappedTimes(s, f, 1)
  {
    hide *;
    PopulatedFacts(s0, 1, 80);
    ReachedKeeps(s0);
    f := s0.free[0];
    s := SysMemAlloc(s0, 0, UTEMP, 0).1;
    ReachMemAlloc(s0, 0, UTEMP, 0);
    FirstIsMapped(s0, s);
    FirstTimes(s, f);
  }

  lemma FirstTimes(s: Vm, f: nat)
    requires Reached(s) && Live(s, 0) && f < |s.refs| && s.refs[f] == 1 && |s.free| + 1 >= 70
    requires SlotOf(s, 0) == Some(Entry(f, 0)) && forall n: nat :: 1 <= n <= 65536 ==> SlotOf(s, n).None?
    ensures MappedTimes(s, f, 1)
  {
    hide Reached, SlotOf;
  }

  lemma TimesFrom(s: Vm, f: nat, k: nat)
    requires Reached(s) && Live(s, 0) && f < |s.refs| && s.refs[f] == k && k <= 65535 && |s.free| + TablesFor(k) >= 70
    requires forall n: nat :: n < k ==> SlotOf(s, n) == Some(Entry(f, 0))
    requires forall n: nat :: k <= n <= 65536 ==> SlotOf(s, n).None?
    ensures MappedTimes(s, f, k)
  {
    hide Reached, SlotOf;
  }

  lemma FirstIsMapped(s0: Vm, s: Vm)
    requires Inv(s0) && Bounded(s0) && Live(s0, 0) && |s0.free| == 79 && s == SysMemAlloc(s0, 0, UTEMP, 0).1
    requires forall pd: nat, pt: nat :: Translate(s0, 0, pd, pt).None?
    ensures Live(s, 0) && s0.free[0] < |s.refs| && s.refs[s0.free[0]] == 1 && |s.free| + 1 >= 70
    ensures SlotOf(s, 0) == Some(Entry(s0.free[0], 0))
    ensures forall n: nat :: 1 <= n <= 65536 ==> SlotOf(s, n).None?
  {
    hide Inv, PageInsert, Translate, Bounded;
    var s1 := PageAlloc(s0).1;
    var f, pd, pt := s0.free[0], PDX(UTEMP), PTX(UTEMP);
    PageAllocKeeps(s0, s1);
    hide PageVa;
    PageSlots(0);
    assert PageVa(0) == UTEMP by { FirstPageVa(); }
    InvBounded(s1);
    var (ok, s2) := PageInsert(s1, 0, f, pd, pt, 0);
    InsertKeeps(s1, ok, s2, 0, f, pd, pt, 0);
    InsertCounts(s1, s2, 0, f, pd, pt, 0);
    OtherPages(s1, s2, pd, pt, f, 0, 0);
  }

  lemma FirstPageVa()
    ensures PageVa(0) == UTEMP
  {
  }

  /** Changing page `k` of the stretch leaves its other pages. */
  lemma OtherPages(s: Vm, s': Vm, pd: nat, pt: nat, f: nat, perm: bv12, k: nat)
    requires k <= 65536 && pd == PDX(PageVa(k)) && pt == PTX(PageVa(k))
    requires OnePage(s, s', 0, pd, pt, Some(Entry(f, perm)))
    ensures SlotOf(s', k) == Some(Entry(f, perm))
    ensures forall n: nat :: n <= 65536 && n != k ==> SlotOf(s', n) == SlotOf(s, n)
  {
    hide Translate, PageVa, PDX, PTX;
    PageSlots(k);
    forall n: nat | n <= 65536 && n != k
      ensures SlotOf(s', n) == SlotOf(s, n)
    {
      PageSlots(n);
    }
  }

  /** sys_mem_map of the first page of the stretch to page `k`. */
  function SysMemMapHere(s: Vm, k: nat): (Errno, Vm)
    requires Bounded(s) && Live(s, 0)
  {
    SysMemMap(s, 0, UTEMP, 0, PageVa(k), 0)
  }

  lemma TimesFacts(s: Vm, f: nat, k: nat)
    requires MappedTimes(s, f, k) && 1 <= k
    ensures Live(s, 0) && f < |s.refs| && s.refs[f] == k && |s.free| > 0
    ensures SlotOf(s, 0) == Some(Entry(f, 0)) && SlotOf(s, k).None?
  {
    hide Reached;
  }

  /** That system call is a page_insert of the shared frame. */
  lemma HereIsInsert(s: Vm, f: nat, k: nat)
    requires MappedTimes(s, f, k) && 1 <= k && Bounded(s) && Live(s, 0)
    ensures var pd, pt := PDX(PageVa(k)), PTX(PageVa(k));
      && f < |s.refs| && pd < PD_UTOP && pt < 1024
      && var (ok, s') := PageInsert(s, 0, f, pd, pt, 0);
         SysMemMapHere(s, k) == (if ok then Success else ENoMem, s')
  {
    TimesFacts(s, f, k);
    hide Reached, MappedTimes, PageInsert, Bounded, Translate;
    PageSlots(0);
    PageSlots(k);
    FirstPageVa();
    hide PageVa, PDX, PTX;
  }

  lemma MapOnce(s: Vm, s': Vm, f: nat, k: nat)
    requires Inv(s) && Bounded(s) && MappedTimes(s, f, k) && 1 <= k && s' == SysMemMapHere(s, k).1
    ensures SysMemMapHere(s, k).0 == Success
    ensures |s'.refs| == |s.refs| && s'.refs[f] == (k + 1) % 65536
    ensures |s'.free| == |s.free| - (if TableOf(s, 0, PDX(PageVa(k))).None? then 1 else 0)
    ensures Live(s', 0) && (Inv(s') <==> k < 65535)
    ensures k < 65535 ==> SlotOf(s', k) == Some(Entry(f, 0)) &&
                          forall n: nat :: n <= 65536 && n != k ==> SlotOf(s', n) == SlotOf(s, n)
  {
    HereIsInsert(s, f, k);
    TimesFacts(s, f, k);
    hide Inv, Bounded, PageInsert, MappedTimes, SysMemMapHere, PageVa, PDX, PTX, TableOf, Translate;
    PageSlots(0);
    PageSlots(k);
    InsertOnce(s, s', f, PDX(PageVa(k)), PTX(PageVa(k)));
    if k < 65535 { OtherPages(s, s', PDX(PageVa(k)), PTX(PageVa(k)), f, 0, k); }
  }

  /** page_insert of the frame of the first page at a page that is not mapped. */
  lemma InsertOnce(s: Vm, s': Vm, f: nat, pd: nat, pt: nat)
    requires Inv(s) && Bounded(s) && Live(s, 0) && pd < PD_UTOP && pt < 1024 && f < |s.refs| && |s.free| > 0
    requires SlotOf(s, 0) == Some(Entry(f, 0)) && Translate(s, 0, pd, pt).None? && 1 <= s.refs[f] <= 65535
    requires s' == PageInsert(s, 0, f, pd, pt, 0).1
    ensures PageInsert(s, 0, f, pd, pt, 0).0
    ensures |s'.refs| == |s.refs| && s'.refs[f] == (s.refs[f] + 1) % 65536 && Live(s', 0)
    ensures |s'.free| == |s.free| - (if TableOf(s, 0, pd).None? then 1 else 0)
    ensures Inv(s') <==> s.refs[f] < 65535
    ensures s.refs[f] < 65535 ==> OnePage(s, s', 0, pd, pt, Some(Entry(f, 0)))
  {
    hide Inv, Bounded, PageInsert, PageVa, PDX, PTX, TableOf, Translate;
    MappedIsInsertable(s, 0, PDX(PageVa(0)), PTX(PageVa(0)));
    InsertExact(s, PageInsert(s, 0, f, pd, pt, 0).0, s', 0, f, pd, pt, 0);
    InsertCounts(s, s', 0, f, pd, pt, 0);
  }

  lemma ReachMapHere(s: Vm, f: nat, k: nat)
    requires Reached(s) && Bounded(s) && MappedTimes(s, f, k) && 1 <= k < 65535
    ensures Live(s, 0) && Reached(SysMemMapHere(s, k).1)
  {
    TimesFacts(s, f, k);
    hide Reached, Bounded, MappedTimes, Translate;
    FirstPageVa();
    ReachStep(s, MemMap(0, UTEMP, 0, PageVa(k), 0));
  }

  lemma MapNext(s: Vm, f: nat, k: nat) returns (s': Vm)
    requires MappedTimes(s, f, k) && 1 <= k < 65535
    ensures MappedTimes(s', f, k + 1)
  {
    hide *;
    TimesFacts(s, f, k);
    TimesReached(s, f, k);
    ReachedKeeps(s);
    s' := SysMemMapHere(s, k).1;
    ReachMapHere(s, f, k);
    MapOnceTimes(s, s', f, k);
  }

  lemma MapOnceTimes(s: Vm, s': Vm, f: nat, k: nat)
    requires Inv(s) && Bounded(s) && MappedTimes(s, f, k) && 1 <= k < 65535 && s' == SysMemMapHere(s, k).1
    requires Reached(s')
    ensures MappedTimes(s', f, k + 1)
  {
    hide *;
    TimesFacts(s, f, k);
    TimesReached(s, f, k);
    MapOnce(s, s', f, k);
    TableIsShared(s, f, k);
    SlotsAfter(s, s', f, k);
    TimesFrom(s', f, k + 1);
  }

  /** Page `k` needs a new table only where a table's stretch begins. */
  lemma TableIsShared(s: Vm, f: nat, k: nat)
    requires MappedTimes(s, f, k) && 1 <= k < 65535
    ensures |s.free| - (if TableOf(s, 0, PDX(PageVa(k))).None? then 1 else 0) + TablesFor(k + 1) >= 70
  {
    hide Reached, PageVa, PDX, PTX, TableOf;
    PageSlots(k - 1);
    PageSlots(k);
    assert SlotOf(s, k - 1).Some?;
  }

  lemma SlotsAfter(s: Vm, s': Vm, f: nat, k: nat)
    requires MappedTimes(s, f, k) && SlotOf(s', k) == Some(Entry(f, 0))
    requires forall n: nat :: n <= 65536 && n != k ==> SlotOf(s', n) == SlotOf(s, n)
    ensures forall n: nat :: n < k + 1 ==> SlotOf(s', n) == Some(Entry(f, 0))
    ensures forall n: nat :: k + 1 <= n <= 65536 ==> SlotOf(s', n).None?
  {
    hide Reached, SlotOf;
  }

  lemma TimesReached(s: Vm, f: nat, k: nat)
    requires MappedTimes(s, f, k)
    ensures Reached(s) && |s.free| + TablesFor(k) >= 70
  {
    hide Reached, SlotOf;
  }

  lemma {:induction false} MapMany(k: nat) returns (s: Vm, f: nat)
    requires 1 <= k <= 65535
    ensures MappedTimes(s, f, k)
  {
    hide *;
    if k == 1 {
      s, f := FirstMapping();
    } else {
      var s0;
      s0, f := MapMany(k - 1);
      s := MapNext(s0, f, k - 1);
    }
  }

  /**
   A run from boot that maps one frame 65535 times, after which one more sys_mem_map succeeds
   and leaves the frame mapped everywhere with a count of 0.
   */
  lemma CountsRunOver() returns (s: Vm, f: nat)
    ensures Reached(s) && Inv(s) && Bounded(s) && Live(s, 0) && f < |s.refs| && s.refs[f] == 65535
    ensures var (r, s') := SysMemMapHere(s, 65535);
      r == Success && !Inv(s') && |s'.refs| == |s.refs| && s'.refs[f] == 0
  {
    hide *;
    s, f := MapMany(65535);
    TimesFacts(s, f, 65535);
    TimesReached(s, f, 65535);
    ReachedKeeps(s);
    MapOnce(s, SysMemMapHere(s, 65535).1, f, 65535);
  }
}
