/**
 The page-table operations of kern/pmap.c on the value of VmState, with the lemmas that
 each keeps the invariant and changes the flat view of memory as promised.
 */
module VmOps {
  import opened Wrappers
  import opened Mmu
  import opened VmState

  function ZeroTable(): (t: Table)
    ensures forall i :: 0 <= i < 1024 ==> t[i] == ZERO
  {
    seq(1024, _ => ZERO)
  }

  /** The array bounds the C code relies on; part of Sized, InRange and FreeOk. */
  ghost predicate Bounded(s: Vm) {
    && |s.words| == |s.refs|
    && (forall i :: 0 <= i < |s.free| ==> s.free[i] < |s.words|)
    && (forall e: nat :: Live(s, e) ==> s.envs[e].pgdir < |s.words|)
  }

  /** page_alloc: take the head of the free list and clear it; its pp_ref stays 0. */
  function PageAlloc(s: Vm): (r: (Option<nat>, Vm))
    requires Bounded(s)
    ensures Bounded(r.1)
  {
    if s.free == [] then (None, s)
    else (Some(s.free[0]), s.(free := s.free[1..], words := s.words[s.free[0] := ZeroTable()]))
  }

  /** page_decref, with page_free when the count reaches 0. */
  function PageDecref(s: Vm, f: nat): Vm
    requires f < |s.refs| && s.refs[f] > 0
  {
    s.(refs := s.refs[f := s.refs[f] - 1],
       free := if s.refs[f] == 1 then [f] + s.free else s.free)
  }

  /** tlb_invalidate: drop the pair that holds page (pd, pt) under this ASID. */
  function TlbInvalidate(s: Vm, asid: nat, pd: nat, pt: nat): Vm {
    s.(tlb := s.tlb - {TlbKey(pd, pt / 2, asid % NASID)})
  }

  function WriteWord(s: Vm, f: nat, i: nat, w: Word): Vm
    requires f < |s.words| && i < 1024
  {
    s.(words := s.words[f := s.words[f][i := w]])
  }

  /** The creating branch of pgdir_walk for a directory slot that is not valid. */
  function CreateTable(s: Vm, e: nat, pd: nat): (r: (Option<nat>, Vm))
    requires Bounded(s) && Live(s, e) && pd < PD_UTOP
    ensures Bounded(r.1) && |r.1.refs| == |s.refs| && (r.0.Some? ==> r.0.value < |s.refs|)
  {
    var a := PageAlloc(s);
    if a.0.None? then a
    else
      var s1 := a.1.(refs := a.1.refs[a.0.value := 1]);
      (a.0, WriteWord(s1, s1.envs[e].pgdir, pd, Word(a.0.value, LINK_FLAGS)))
  }

  /** page_remove; the inner test stands for the panics of pa2page and page_decref. */
  function PageRemove(s: Vm, e: nat, pd: nat, pt: nat): (s': Vm)
    requires Bounded(s) && Live(s, e) && pd < PD_UTOP && pt < 1024
    ensures Bounded(s') && |s'.refs| == |s.refs| && s'.envs == s.envs
  {
    var w := Translate(s, e, pd, pt);
    if w.None? then s
    else if w.value.ppn >= |s.refs| || s.refs[w.value.ppn] == 0 then s
    else
      var s1 := WriteWord(PageDecref(s, w.value.ppn), TableOf(s, e, pd).value, pt, ZERO);
      TlbInvalidate(s1, s.envs[e].asid, pd, pt)
  }

  /** The last step of page_insert: count the frame, in 16 bits, and write the entry. */
  function MapLeaf(s: Vm, f: nat, t: nat, pt: nat, perm: bv12): Vm
    requires f < |s.refs| && t < |s.words| && pt < 1024
  {
    WriteWord(s.(refs := s.refs[f := (s.refs[f] + 1) % 65536]), t, pt, Entry(f, perm))
  }

  function PageInsert(s: Vm, e: nat, f: nat, pd: nat, pt: nat, perm: bv12): (bool, Vm)
    requires Bounded(s) && Live(s, e) && pd < PD_UTOP && pt < 1024 && f < |s.refs|
  {
    var asid := s.envs[e].asid;
    var w := Translate(s, e, pd, pt);
    if w.Some? && w.value.ppn == f then
      (true, WriteWord(TlbInvalidate(s, asid, pd, pt), TableOf(s, e, pd).value, pt, Entry(f, perm)))
    else
      var s1 := TlbInvalidate(PageRemove(s, e, pd, pt), asid, pd, pt);
      var t := TableOf(s1, e, pd);
      if t.Some? then (true, if t.value < |s1.words| then MapLeaf(s1, f, t.value, pt, perm) else s1)
      else
        var c := CreateTable(s1, e, pd);
        if c.0.None? then (false, c.1) else (true, MapLeaf(c.1, f, c.0.value, pt, perm))
  }

  /** What callers of page_insert hand in: a frame just allocated, or one mapped as a user page. */
  ghost predicate Insertable(s: Vm, f: nat) {
    && f < |s.refs| && f !in s.kernel && f !in s.free
    && (forall r: Ref :: Target(s, r) == Some(f) ==> r.Leaf?)
  }

  /** Mapping `f` at that page does not overflow its 16-bit count. */
  predicate Countable(s: Vm, e: nat, f: nat, pd: nat, pt: nat)
    requires f < |s.refs|
  {
    s.refs[f] < 65535 || Target(s, Leaf(e, pd, pt)) == Some(f)
  }

  lemma InvBounded(s: Vm)
    requires Inv(s)
    ensures Bounded(s)
  {
    forall e: nat | Live(s, e)
      ensures s.envs[e].pgdir < |s.words|
    {
      assert Target(s, Root(e)).Some?;
    }
  }

  // ---- frames of the proofs: which words a write can be seen through ----

  /** Live user tables and their entries are in range and dynamic. */
  lemma LeafFacts(s: Vm, e: nat, pd: nat, pt: nat)
    requires Inv(s) && Live(s, e)
    ensures s.envs[e].pgdir < |s.words| && s.envs[e].pgdir !in s.kernel
    ensures var t := TableOf(s, e, pd); t.Some? ==> t.value < |s.words| && t.value !in s.kernel
    ensures var w := Translate(s, e, pd, pt); w.Some? ==>
              w.value.ppn < |s.refs| && w.value.ppn !in s.kernel && s.refs[w.value.ppn] > 0
  {
    assert Target(s, Root(e)).Some?;
    if TableOf(s, e, pd).Some? { assert Target(s, Link(e, pd)).Some?; }
    if Translate(s, e, pd, pt).Some? {
      assert Target(s, Leaf(e, pd, pt)).Some?;
      var f := Translate(s, e, pd, pt).value.ppn;
      SlotsIff(s, f);
      assert Leaf(e, pd, pt) in Slots(s, f);
    }
  }

  /** Writing one slot of a user table changes that translation and nothing else. */
  /** Of what page_lookup finds, a write to one table slot changes that page only. */
  lemma LeafWalks(s: Vm, s': Vm, e: nat, pd: nat, pt: nat, w: Word)
    requires Inv(s) && TableOf(s, e, pd).Some? && pt < 1024 && TableOf(s, e, pd).value < |s.words|
    requires s' == WriteWord(s, TableOf(s, e, pd).value, pt, w)
    requires forall e': nat :: Live(s, e') ==> s.envs[e'].pgdir != TableOf(s, e, pd).value
    requires forall e': nat, pd': nat :: TableOf(s, e', pd') == TableOf(s, e, pd) ==> e' == e && pd' == pd
    ensures forall e': nat, pd': nat, pt': nat :: !(e' == e && pd' == pd && pt' == pt) ==>
              WalkWord(s', e', pd', pt') == WalkWord(s, e', pd', pt')
  {
    hide Counted, Exclusive, TlbOk, FreeOk, Translate;
    assert Target(s, Link(e, pd)) == TableOf(s, e, pd);
    forall e': nat, pd': nat, pt': nat | !(e' == e && pd' == pd && pt' == pt)
      ensures WalkWord(s', e', pd', pt') == WalkWord(s, e', pd', pt')
    {
      if Live(s, e') && pd' < 1024 {
        assert Target(s, Root(e')).Some? && DirOk(s, e');
        if pd' < PD_UTOP { assert Target(s, Link(e', pd')) == TableOf(s, e', pd'); }
      }
    }
  }

  lemma LeafWrite(s: Vm, e: nat, pd: nat, pt: nat, w: Word)
    requires Inv(s) && TableOf(s, e, pd).Some? && pt < 1024
    requires TableOf(s, e, pd).value < |s.words|
    ensures
      var s' := WriteWord(s, TableOf(s, e, pd).value, pt, w);
      && (forall e': nat, pd': nat :: TableOf(s', e', pd') == TableOf(s, e', pd'))
      && (forall e': nat, pd': nat, pt': nat ::
            Translate(s', e', pd', pt') ==
            if e' == e && pd' == pd && pt' == pt then (if Valid(w) then Some(w) else None)
            else Translate(s, e', pd', pt'))
      && (forall e': nat, pd': nat, pt': nat :: !(e' == e && pd' == pd && pt' == pt) ==>
            WalkWord(s', e', pd', pt') == WalkWord(s, e', pd', pt'))
      && (forall e': nat :: DirOk(s', e'))
      && (forall f :: f in s.kernel ==> s'.words[f] == s.words[f])
  {
    var t := TableOf(s, e, pd).value;
    assert Target(s, Link(e, pd)) == Some(t);
    forall r: Ref | Target(s, r) == Some(t)
      ensures r == Link(e, pd)
    {
      SoleOwner(s, Link(e, pd), r);
    }
    var s' := WriteWord(s, t, pt, w);
    forall e': nat | Live(s, e')
      ensures s.envs[e'].pgdir != t
    {
      assert Target(s, Root(e')).Some?;
    }
    forall e': nat, pd': nat | TableOf(s, e', pd') == Some(t)
      ensures e' == e && pd' == pd
    {
      assert Target(s, Link(e', pd')) == Some(t);
    }
    hide Counted, Exclusive, TlbOk, FreeOk;
    LeafWalks(s, s', e, pd, pt, w);
    hide WalkWord;
    forall e': nat
      ensures DirOk(s', e')
    {
      assert DirOk(s, e');
    }
  }

  ghost predicate SameWords(s: Vm, s': Vm, e: nat, k: TlbKey) {
    && (WalkWord(s, e, k.pd, 2 * k.pair).Some? ==>
          WalkWord(s', e, k.pd, 2 * k.pair) == WalkWord(s, e, k.pd, 2 * k.pair))
    && (WalkWord(s, e, k.pd, 2 * k.pair + 1).Some? ==>
          WalkWord(s', e, k.pd, 2 * k.pair + 1) == WalkWord(s, e, k.pd, 2 * k.pair + 1))
  }

  /** Coherence survives when each remaining pair still sees the same words. */
  lemma TlbKeep(s: Vm, s': Vm)
    requires Sized(s) && TlbOk(s) && Sized(s')
    requires s'.envs == s.envs && s'.base == s.base && s'.kernel == s.kernel && BaseOk(s)
    requires forall f :: f in s.kernel ==> s'.words[f] == s.words[f]
    requires forall k :: k in s'.tlb ==> k in s.tlb && s'.tlb[k] == s.tlb[k]
    requires forall k, e: nat :: k in s'.tlb && Live(s, e) && s.envs[e].asid == k.asid ==>
               SameWords(s, s', e, k)
    ensures TlbOk(s')
  {
    forall k, h | k in s'.tlb && 0 <= h <= 1 && LoValid(s'.tlb[k].Half(h))
      ensures HalfOk(s', k, h)
    {
      assert HalfOk(s, k, h);
      if Private(k.pd, 2 * k.pair + h) {
        var e: nat :| Owned(s, k, h, s.tlb[k].Half(h), e);
        assert SameWords(s, s', e, k);
        assert Owned(s', k, h, s'.tlb[k].Half(h), e);
      }
    }
  }

  ghost predicate SameUser(s: Vm, s': Vm) {
    s'.envs == s.envs && s'.asids == s.asids && s'.kernel == s.kernel && |s'.refs| == |s.refs|
  }

  /** The flat view after one page changed to `w`, and no other. */
  ghost predicate OnePage(s: Vm, s': Vm, e: nat, pd: nat, pt: nat, w: Option<Word>) {
    forall e': nat, pd': nat, pt': nat ::
      Translate(s', e', pd', pt') ==
      if e' == e && pd' == pd && pt' == pt then w else Translate(s, e', pd', pt')
  }

  /** The word maps frame `f`: valid, cacheable, and otherwise with exactly the bits of `perm`. */
  predicate MapsTo(w: Option<Word>, f: nat, perm: bv12) {
    w.Some? && w.value.ppn == f && w.value.flags & 0x680 == 0x680 && w.value.flags & 0x97f == perm & 0x97f
  }

  ghost predicate NoPage(s: Vm, s': Vm) {
    forall e: nat, pd: nat, pt: nat :: Translate(s', e, pd, pt) == Translate(s, e, pd, pt)
  }

  function RefDelta(old_: Option<nat>, new_: Option<nat>, f: nat): int {
    (if new_ == Some(f) then 1 else 0) - (if old_ == Some(f) then 1 else 0)
  }

  /** s' is s after slot (e, pd, pt) was written with `w` and its TLB pair dropped. */
  ghost predicate LeafWritten(s: Vm, s': Vm, e: nat, pd: nat, pt: nat, w: Word) {
    && TableOf(s, e, pd).Some? && pt < 1024 && TableOf(s, e, pd).value < |s.words|
    && s'.words == WriteWord(s, TableOf(s, e, pd).value, pt, w).words
    && s'.envs == s.envs && s'.asids == s.asids && s'.kernel == s.kernel && s'.base == s.base
    && s'.tlb == s.tlb - {TlbKey(pd, pt / 2, s.envs[e].asid)}
  }

  lemma LeafTargets(s: Vm, s': Vm, e: nat, pd: nat, pt: nat, w: Word)
    requires Inv(s) && LeafWritten(s, s', e, pd, pt, w)
    ensures OnePage(s, s', e, pd, pt, if Valid(w) then Some(w) else None)
    ensures forall r: Ref :: r != Leaf(e, pd, pt) ==> Target(s', r) == Target(s, r)
    ensures Target(s', Leaf(e, pd, pt)) == if Valid(w) then Some(w.ppn) else None
  {
    LeafWrite(s, e, pd, pt, w);
  }

  lemma LeafTlb(s: Vm, s': Vm, e: nat, pd: nat, pt: nat, w: Word)
    requires Inv(s) && LeafWritten(s, s', e, pd, pt, w) && Sized(s')
    ensures TlbOk(s') && BaseOk(s')
    ensures forall e': nat :: DirOk(s', e')
  {
    LeafWrite(s, e, pd, pt, w);
    forall e': nat
      ensures DirOk(s', e')
    {
      assert DirOk(WriteWord(s, TableOf(s, e, pd).value, pt, w), e');
    }
    TlbKeep(s, s');
  }

  lemma LeafCounts(s: Vm, s': Vm, r0: Ref)
    requires Inv(s) && |s'.refs| == |s.refs| && s'.kernel == s.kernel
    requires r0.Leaf?
    requires forall r: Ref :: r != r0 ==> Target(s', r) == Target(s, r)
    requires Target(s', r0).Some? ==> Insertable(s, Target(s', r0).value)
    requires forall f :: 0 <= f < |s.refs| && f !in s.kernel ==>
               s'.refs[f] == s.refs[f] + RefDelta(Target(s, r0), Target(s', r0), f)
    ensures InRange(s') && Counted(s') && Exclusive(s')
  {
    forall f | 0 <= f < |s.refs| && f !in s.kernel
      ensures s'.refs[f] == |Slots(s', f)|
    {
      SlotsStep(s, s', r0, f);
    }
    forall r: Ref | !r.Leaf? && Target(s', r).Some? && Target(s', r).value < |s.refs|
      ensures s'.refs[Target(s', r).value] == 1
    {
      if Target(s, r0) == Target(s, r) { SoleOwner(s, r, r0); }
    }
  }

  /** The common part of page_remove and page_insert: one leaf slot changes. */
  lemma LeafStep(s: Vm, s': Vm, e: nat, pd: nat, pt: nat, w: Word)
    requires Inv(s) && LeafWritten(s, s', e, pd, pt, w)
    requires |s'.refs| == |s.refs| && FreeOk(s')
    requires forall f :: 0 <= f < |s.refs| && f !in s.kernel ==>
               s'.refs[f] == s.refs[f] + RefDelta(Target(s, Leaf(e, pd, pt)),
                                                  if Valid(w) then Some(w.ppn) else None, f)
    requires Valid(w) ==> Insertable(s, w.ppn)
    ensures Inv(s')
    ensures OnePage(s, s', e, pd, pt, if Valid(w) then Some(w) else None)
    ensures forall r: Ref :: r != Leaf(e, pd, pt) ==> Target(s', r) == Target(s, r)
  {
    LeafTargets(s, s', e, pd, pt, w);
    LeafTlb(s, s', e, pd, pt, w);
    LeafCounts(s, s', Leaf(e, pd, pt));
  }

  // ---- each operation keeps the invariant ----

  lemma InvalidateKeeps(s: Vm, s': Vm, asid: nat, pd: nat, pt: nat)
    requires Inv(s) && s' == TlbInvalidate(s, asid, pd, pt)
    ensures Inv(s') && SameUser(s, s') && NoPage(s, s')
    ensures forall r: Ref :: Target(s', r) == Target(s, r)
  {
    assert forall r: Ref :: Target(s', r) == Target(s, r);
    forall f | 0 <= f < |s.refs| && f !in s.kernel
      ensures s'.refs[f] == |Slots(s', f)|
    {
      SlotsStep(s, s', Root(0), f);
    }
    assert forall e: nat :: DirOk(s, e) ==> DirOk(s', e);
    TlbKeep(s, s');
  }

  /** page_remove deletes exactly one translation and keeps the invariant. */
  lemma RemoveKeeps(s: Vm, s': Vm, e: nat, pd: nat, pt: nat)
    requires Inv(s) && Bounded(s) && Live(s, e) && pd < PD_UTOP && pt < 1024
    requires s' == PageRemove(s, e, pd, pt)
    ensures Inv(s') && SameUser(s, s') && OnePage(s, s', e, pd, pt, None)
    ensures forall r: Ref :: r != Leaf(e, pd, pt) ==> Target(s', r) == Target(s, r)
    ensures forall f :: f in s'.free ==> f in s.free || Some(f) == Target(s, Leaf(e, pd, pt))
    ensures forall f :: 0 <= f < |s.refs| && Target(s, Leaf(e, pd, pt)) != Some(f) ==>
              s'.refs[f] == s.refs[f]
  {
    LeafFacts(s, e, pd, pt);
    if Translate(s, e, pd, pt).Some? {
      AsidFits(s, e);
      RemoveFree(s, Translate(s, e, pd, pt).value.ppn, PageDecref(s, Translate(s, e, pd, pt).value.ppn));
      LeafStep(s, s', e, pd, pt, ZERO);
    }
  }

  lemma AsidFits(s: Vm, e: nat)
    requires Inv(s) && Live(s, e)
    ensures s.envs[e].asid % NASID == s.envs[e].asid
  {
  }

  lemma RemoveFree(s: Vm, f: nat, s': Vm)
    requires FreeOk(s) && f < |s.refs| && f !in s.kernel && s.refs[f] > 0
    requires s' == PageDecref(s, f)
    ensures FreeOk(s')
  {
  }

  /** The fresh frame and the directory being written are no one's table. */
  lemma CreateFacts(s: Vm, e: nat)
    requires Inv(s) && Live(s, e) && s.free != []
    ensures forall e': nat :: Live(s, e') ==>
              && s.envs[e'].pgdir < |s.words| && s.envs[e'].pgdir !in s.kernel
              && s.envs[e'].pgdir != s.free[0]
              && (s.envs[e'].pgdir == s.envs[e].pgdir ==> e' == e)
    ensures forall e': nat, pd': nat :: TableOf(s, e', pd').Some? ==>
              && TableOf(s, e', pd').value < |s.words| && TableOf(s, e', pd').value !in s.kernel
              && TableOf(s, e', pd').value != s.free[0]
              && TableOf(s, e', pd').value != s.envs[e].pgdir
  {
    var f0 := s.free[0];
    var d := s.envs[e].pgdir;
    assert Target(s, Root(e)) == Some(d);
    forall e': nat | Live(s, e')
      ensures s.envs[e'].pgdir < |s.words| && s.envs[e'].pgdir != f0
      ensures s.envs[e'].pgdir !in s.kernel && (s.envs[e'].pgdir == d ==> e' == e)
    {
      assert Target(s, Root(e')) == Some(s.envs[e'].pgdir);
      ZeroIsUnmapped(s, f0, Root(e'));
      if s.envs[e'].pgdir == d { SoleOwner(s, Root(e), Root(e')); }
    }
    forall e': nat, pd': nat | TableOf(s, e', pd').Some?
      ensures TableOf(s, e', pd').value < |s.words| && TableOf(s, e', pd').value != f0
      ensures TableOf(s, e', pd').value != d && TableOf(s, e', pd').value !in s.kernel
    {
      assert Target(s, Link(e', pd')) == TableOf(s, e', pd');
      ZeroIsUnmapped(s, f0, Link(e', pd'));
      if TableOf(s, e', pd').value == d { SoleOwner(s, Root(e), Link(e', pd')); }
    }
  }

  /** What CreateTable leaves alone; this is where aliasing is ruled out. */
  lemma CreateTargets(s: Vm, s': Vm, e: nat, pd: nat)
    requires Inv(s) && Bounded(s) && Live(s, e) && pd < PD_UTOP && TableOf(s, e, pd).None?
    requires s.free != [] && s' == CreateTable(s, e, pd).1
    ensures TableOf(s', e, pd) == Some(s.free[0]) && NoPage(s, s')
    ensures forall e': nat, pd': nat :: !(e' == e && pd' == pd) ==>
              TableOf(s', e', pd') == TableOf(s, e', pd')
  {
    CreateFacts(s, e);
    assert forall e': nat, pd': nat :: !(e' == e && pd' == pd) ==>
             TableOf(s', e', pd') == TableOf(s, e', pd');
  }

  lemma CreateWalks(s: Vm, s': Vm, e: nat, pd: nat)
    requires Inv(s) && Bounded(s) && Live(s, e) && pd < PD_UTOP && TableOf(s, e, pd).None?
    requires s.free != [] && s' == CreateTable(s, e, pd).1
    ensures forall e': nat, pd': nat, pt': nat :: WalkWord(s, e', pd', pt').Some? ==>
              WalkWord(s', e', pd', pt') == WalkWord(s, e', pd', pt')
    ensures forall f :: f in s.kernel ==> s'.words[f] == s.words[f]
    ensures forall e': nat :: DirOk(s', e')
  {
    CreateFacts(s, e);
    forall e': nat
      ensures DirOk(s', e')
    {
      assert DirOk(s, e');
    }
    forall e': nat, pd': nat, pt': nat | WalkWord(s, e', pd', pt').Some?
      ensures WalkWord(s', e', pd', pt') == WalkWord(s, e', pd', pt')
    {
      assert DirOk(s, e');
      if pd' < PD_UTOP { assert TableOf(s, e', pd').Some?; }
    }
  }

  /** Linking a fresh table is invisible in the flat view and keeps the invariant. */
  lemma CreateKeeps(s: Vm, t: Option<nat>, s': Vm, e: nat, pd: nat)
    requires Inv(s) && Bounded(s) && Live(s, e) && pd < PD_UTOP && TableOf(s, e, pd).None?
    requires (t, s') == CreateTable(s, e, pd)
    ensures Inv(s') && SameUser(s, s') && NoPage(s, s') && s'.tlb == s.tlb
    ensures t.None? <==> s.free == []
    ensures t.None? ==> s' == s
    ensures TableOf(s', e, pd) == t
    ensures t.Some? ==> t.value in s.free && t.value !in s'.free && s'.refs[t.value] == 1
    ensures forall f :: 0 <= f < |s.refs| && Some(f) != t ==> s'.refs[f] == s.refs[f]
    ensures forall f :: f in s'.free ==> f in s.free
    ensures forall r: Ref :: r != Link(e, pd) ==> Target(s', r) == Target(s, r)
  {
    if t.Some? {
      CreateTargets(s, s', e, pd);
      CreateWalks(s, s', e, pd);
      assert forall r: Ref :: r != Link(e, pd) ==> Target(s', r) == Target(s, r);
      forall f | 0 <= f < |s.refs| && f !in s.kernel
        ensures s'.refs[f] == |Slots(s', f)|
      {
        SlotsStep(s, s', Link(e, pd), f);
      }
      forall r: Ref
        ensures Target(s, r) != t
      {
        ZeroIsUnmapped(s, t.value, r);
      }
      TlbKeep(s, s');
    }
  }

  /** Mapping an insertable frame into an empty slot of an existing table. */
  lemma InsertFresh(s: Vm, s': Vm, e: nat, f: nat, pd: nat, pt: nat, perm: bv12)
    requires Inv(s) && Live(s, e) && Insertable(s, f) && s.refs[f] < 65535 && pt < 1024
    requires TableOf(s, e, pd).Some? && TableOf(s, e, pd).value < |s.words|
    requires Translate(s, e, pd, pt).None?
    requires TlbKey(pd, pt / 2, s.envs[e].asid) !in s.tlb
    requires s' == MapLeaf(s, f, TableOf(s, e, pd).value, pt, perm)
    ensures Inv(s') && SameUser(s, s') && OnePage(s, s', e, pd, pt, Some(Entry(f, perm)))
  {
    assert s'.tlb == s.tlb - {TlbKey(pd, pt / 2, s.envs[e].asid)};
    LeafStep(s, s', e, pd, pt, Entry(f, perm));
  }

  lemma InsertSame(s: Vm, s': Vm, e: nat, f: nat, pd: nat, pt: nat, perm: bv12)
    requires Inv(s) && Bounded(s) && Live(s, e) && pd < PD_UTOP && pt < 1024 && Insertable(s, f)
    requires Translate(s, e, pd, pt).Some? && Translate(s, e, pd, pt).value.ppn == f
    requires s' == PageInsert(s, e, f, pd, pt, perm).1
    ensures Inv(s') && SameUser(s, s') && OnePage(s, s', e, pd, pt, Some(Entry(f, perm)))
  {
    AsidFits(s, e);
    LeafStep(s, s', e, pd, pt, Entry(f, perm));
  }

  /** Removing one page and dropping its TLB pair does not touch the frame to be inserted. */
  lemma InsertClears(s: Vm, s1: Vm, e: nat, f: nat, pd: nat, pt: nat)
    requires Inv(s) && Bounded(s) && Live(s, e) && pd < PD_UTOP && pt < 1024 && Insertable(s, f)
    requires Target(s, Leaf(e, pd, pt)) != Some(f)
    requires s1 == TlbInvalidate(PageRemove(s, e, pd, pt), s.envs[e].asid, pd, pt)
    ensures Inv(s1) && Bounded(s1) && SameUser(s, s1) && OnePage(s, s1, e, pd, pt, None)
    ensures Insertable(s1, f) && s1.refs[f] == s.refs[f]
    ensures TlbKey(pd, pt / 2, s.envs[e].asid) !in s1.tlb
    ensures TableOf(s1, e, pd) == TableOf(s, e, pd)
    ensures TableOf(s, e, pd).None? ==> s1.free == s.free
  {
    var s0 := PageRemove(s, e, pd, pt);
    RemoveKeeps(s, s0, e, pd, pt);
    InvalidateKeeps(s0, s1, s.envs[e].asid, pd, pt);
    AsidFits(s, e);
    InvBounded(s1);
    assert Target(s1, Link(e, pd)) == Target(s, Link(e, pd));
  }

  /**
   page_insert. On success exactly one page of the flat view changes, to (f, perm | C | V);
   on -E_NO_MEM, which needs a missing table and an empty free list, no translation changes.
   The invariant holds either way while the 16-bit pp_ref of the inserted frame has room.
   */
  lemma InsertKeeps(s: Vm, ok: bool, s': Vm, e: nat, f: nat, pd: nat, pt: nat, perm: bv12)
    requires Inv(s) && Bounded(s) && Live(s, e) && pd < PD_UTOP && pt < 1024
    requires Insertable(s, f) && Countable(s, e, f, pd, pt)
    requires (ok, s') == PageInsert(s, e, f, pd, pt, perm)
    ensures Inv(s') && SameUser(s, s')
    ensures if ok then OnePage(s, s', e, pd, pt, Some(Entry(f, perm))) else NoPage(s, s')
    ensures ok ==> MapsTo(Translate(s', e, pd, pt), f, perm)
    ensures !ok <==> TableOf(s, e, pd).None? && s.free == []
  {
    hide Inv, Bounded, Insertable, Countable, SameUser, Translate, TableOf, PageInsert;
    InsertCases(s, ok, s', e, f, pd, pt, perm);
  }

  /** The cases of page_insert: the same frame, an existing table, a new table. */
  lemma InsertCases(s: Vm, ok: bool, s': Vm, e: nat, f: nat, pd: nat, pt: nat, perm: bv12)
    requires Inv(s) && Bounded(s) && Live(s, e) && pd < PD_UTOP && pt < 1024
    requires Insertable(s, f) && Countable(s, e, f, pd, pt)
    requires (ok, s') == PageInsert(s, e, f, pd, pt, perm)
    ensures Inv(s') && SameUser(s, s')
    ensures if ok then OnePage(s, s', e, pd, pt, Some(Entry(f, perm))) else NoPage(s, s')
    ensures !ok <==> TableOf(s, e, pd).None? && s.free == []
  {
    hide Inv;
    hide TlbInvalidate;
    hide PageRemove;
    hide CreateTable;
    hide MapLeaf;
    var w := Translate(s, e, pd, pt);
    if w.Some? && w.value.ppn == f {
      InsertSame(s, s', e, f, pd, pt, perm);
    } else {
      var s1 := TlbInvalidate(PageRemove(s, e, pd, pt), s.envs[e].asid, pd, pt);
      InsertClears(s, s1, e, f, pd, pt);
      if TableOf(s, e, pd).Some? {
        LeafFacts(s1, e, pd, pt);
        InsertFresh(s1, s', e, f, pd, pt, perm);
      } else {
        var (t, s2) := CreateTable(s1, e, pd);
        CreateKeeps(s1, t, s2, e, pd);
        if t.Some? {
          InsertFresh(s2, s', e, f, pd, pt, perm);
        }
      }
    }
  }
}
