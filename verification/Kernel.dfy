/**
 The kernel's memory manager as it is written: one object whose fields the functions of
 kern/pmap.c, kern/env.c and kern/tlbex.c update in place. Every method is tied to the
 function of VmOps, VmEnv or VmRun about which the properties are proved.
 */
module Kernel {
  import opened Wrappers
  import opened Mmu
  import opened VmState
  import opened VmOps
  import opened VmEnv
  import opened VmRun

  class Memory {
    var refs: seq<nat>
    var free: seq<nat>
    var words: seq<Table>
    var envs: seq<EnvVm>
    var asids: seq<bool>
    var tlb: map<TlbKey, TlbPair>
    var base: nat

    /** The frames in use since boot, the template directory and its tables included. */
    ghost var kernel: set<nat>

    ghost function Abs(): Vm
      reads this
    {
      Vm(refs, free, words, envs, asids, tlb, kernel, base)
    }

    /** page_init: frames below `used` are taken, the others go to the list head in turn. */
    constructor (npage: nat, used: nat, nenv: nat)
      requires used <= npage
      ensures |refs| == npage && |words| == npage
      ensures forall f :: 0 <= f < npage ==> refs[f] == if f < used then 1 else 0
      ensures |free| == npage - used
      ensures forall i :: 0 <= i < |free| ==> free[i] == npage - 1 - i
      ensures PageInited(Abs()) && AllFree(Abs()) && forall f :: f in kernel <==> 0 <= f < used
    {
      ghost var taken: set<nat> := {};
      var counts: seq<nat> := seq(npage, _ => 0);
      var i := 0;
      while i < used
        invariant i <= used && |counts| == npage
        invariant forall f :: 0 <= f < i ==> counts[f] == 1
        invariant forall f :: f in taken <==> 0 <= f < i
      {
        counts := counts[i := 1];
        taken := taken + {i};
        i := i + 1;
      }
      kernel := taken;
      base := 0;
      envs := seq(nenv, _ => EnvVm(false, 0, 0));
      asids := seq(NASID, _ => false);
      tlb := map[];
      words := seq(npage, _ => ZeroTable());
      refs := counts;
      free := [];
      new;
      while i < npage
        invariant used <= i <= npage && |refs| == npage && |free| == i - used && |words| == npage
        invariant forall f :: 0 <= f < i ==> refs[f] == if f < used then 1 else 0
        invariant forall j :: 0 <= j < |free| ==> free[j] == i - 1 - j
        invariant (forall f :: f in kernel <==> 0 <= f < used) && tlb == map[] && |asids| == NASID
        invariant forall e :: 0 <= e < |envs| ==> !envs[e].live
        invariant asids == seq(NASID, _ => false)
      {
        refs := refs[i := 0];
        free := [i] + free;
        i := i + 1;
      }
      forall f | 0 <= f < |refs| && f !in kernel
        ensures f in free
      {
        assert free[npage - 1 - f] == f;
      }
    }

    /**
     The end of env_init: the template directory, with the page array mapped at UPAGES and the
     env array at UENVS. The result is false where page_alloc panics; map_segment ignores the
     errors of page_insert, so a machine short of frames boots without its template.
     */
    method EnvInit(pagesAt: nat, npages: nat, envsAt: nat, nenvs: nat) returns (ok: bool)
      requires PageInited(Abs()) && 0 < npages <= 1024 && 0 < nenvs <= 1024
      requires (forall i :: pagesAt <= i < pagesAt + npages ==> i in kernel)
      requires (forall i :: envsAt <= i < envsAt + nenvs ==> i in kernel)
      modifies this
      ensures ok <==> old(free) != []
      ensures ok ==> (Booted(Abs()) <==> |old(free)| >= 3)
      ensures ok && AllFree(old(Abs())) ==> AllFree(Abs())
      ensures ok && |old(free)| >= 3 ==>
                Shows(words, base, PD_UPAGES, pagesAt, npages) && Shows(words, base, PD_UENVS, envsAt, nenvs)
    {
      ghost var s0 := Abs();
      InitedDistinct(s0);
      var p := Alloc();
      if p.None? {
        return false;
      }
      refs := refs[p.value := refs[p.value] + 1];
      base := p.value;
      KernelApart(s0, pagesAt, npages, free, base);
      MapSegment(pagesAt, PD_UPAGES, npages, PTE_G | PTE_V);
      KernelApart(s0, envsAt, nenvs, free, base);
      MapSegment(envsAt, PD_UENVS, nenvs, PTE_G | PTE_V);
      kernel := kernel + {base} + (if |s0.free| > 1 then {s0.free[1]} else {})
                + if |s0.free| > 2 then {s0.free[2]} else {};
      hide Booted, AllFree, Shows;
      TakenFree(s0, Abs());
      if |s0.free| >= 3 {
        SegmentShows(words, base, PD_UPAGES, s0.free[1], pagesAt, npages);
        SegmentShows(words, base, PD_UENVS, s0.free[2], envsAt, nenvs);
        TemplateBuilt(s0, Abs());
      } else {
        assert !Valid(words[base][PD_UENVS]);
        NotBooted(Abs());
      }
      return true;
    }

    /** map_segment over one directory slot of the template, which is empty. */
    method MapSegment(at: nat, pd: nat, n: nat, perm: bv12)
      requires |words| == |refs| && base < |words| && pd < 1024 && n <= 1024 && !Valid(words[base][pd])
      requires Apart(at, n, |refs|, free, base)
      requires forall i :: 0 <= i < |free| ==> free[i] < |refs| && free[i] != base
      modifies this`refs, this`free, this`words
      ensures |words| == |refs| == |old(words)|
      ensures n == 0 || old(free) == [] ==> words == old(words) && refs == old(refs) && free == old(free)
      ensures n > 0 && old(free) != [] ==>
                var t := old(free)[0];
                && free == old(free)[1..]
                && words[base] == old(words)[base][pd := Word(t, LINK_FLAGS)]
                && (forall i :: 0 <= i < 1024 ==> words[t][i] == if i < n then Entry(at + i, perm) else ZERO)
                && (forall f :: 0 <= f < |words| && f != t && f != base ==> words[f] == old(words)[f])
                && (forall f :: 0 <= f < |refs| && f != t && !(at <= f < at + n) ==> refs[f] == old(refs)[f])
    {
      var i := 0;
      while i < n
        invariant i <= n && |words| == |refs| == |old(words)|
        invariant i == 0 || old(free) == [] ==> words == old(words) && refs == old(refs) && free == old(free)
        invariant i > 0 && old(free) != [] ==>
                    var t := old(free)[0];
                    && free == old(free)[1..]
                    && words[base] == old(words)[base][pd := Word(t, LINK_FLAGS)]
                    && (forall j :: 0 <= j < 1024 ==> words[t][j] == if j < i then Entry(at + j, perm) else ZERO)
                    && (forall f :: 0 <= f < |words| && f != t && f != base ==> words[f] == old(words)[f])
                    && (forall f :: 0 <= f < |refs| && f != t && !(at <= f < at + n) ==> refs[f] == old(refs)[f])
      {
        assert ApartAt(at + i, |refs|, old(free), base);
        var _ := InsertNew(base, at + i, pd, i, perm);
        i := i + 1;
      }
    }

    /** page_insert in the directory `d` at a page that is not mapped. */
    method InsertNew(d: nat, f: nat, pd: nat, pt: nat, perm: bv12) returns (ok: bool)
      requires |words| == |refs| && d < |words| && f < |refs| && pd < 1024 && pt < 1024
      requires forall i :: 0 <= i < |free| ==> free[i] < |refs|
      requires Valid(words[d][pd]) ==> words[d][pd].ppn < |words|
      modifies this`refs, this`free, this`words
      ensures ok <==> Valid(old(words)[d][pd]) || old(free) != []
      ensures !ok ==> words == old(words) && refs == old(refs) && free == old(free)
      ensures ok ==>
                var made := !Valid(old(words)[d][pd]);
                var t := if made then old(free)[0] else old(words)[d][pd].ppn;
                var w := if made then old(words)[t := ZeroTable()] else old(words);
                var w1 := if made then w[d := w[d][pd := Word(t, LINK_FLAGS)]] else w;
                var c := if made then old(refs)[t := 1] else old(refs);
                && free == (if made then old(free)[1..] else old(free))
                && words == w1[t := w1[t][pt := Entry(f, perm)]] && refs == c[f := (c[f] + 1) % 65536]
    {
      var t;
      if Valid(words[d][pd]) {
        t := words[d][pd].ppn;
      } else {
        if free == [] {
          return false;
        }
        t := free[0];
        free := free[1..];
        words := words[t := ZeroTable()];
        refs := refs[t := 1];
        words := words[d := words[d][pd := Word(t, PTE_V | PTE_C_CACHEABLE)]];
      }
      refs := refs[f := (refs[f] + 1) % 65536];
      words := words[t := words[t][pt := Entry(f, perm)]];
      return true;
    }

    method Alloc() returns (f: Option<nat>)
      requires Bounded(Abs())
      modifies this
      ensures (f, Abs()) == PageAlloc(old(Abs()))
    {
      if free == [] {
        return None;
      }
      var pp := free[0];
      free := free[1..];
      words := words[pp := ZeroTable()];
      return Some(pp);
    }

    method Decref(f: nat)
      requires f < |refs| && refs[f] > 0
      modifies this
      ensures Abs() == PageDecref(old(Abs()), f)
    {
      refs := refs[f := refs[f] - 1];
      if refs[f] == 0 {
        free := [f] + free;
      }
    }

    method Invalidate(asid: nat, pd: nat, pt: nat)
      modifies this`tlb
      ensures Abs() == TlbInvalidate(old(Abs()), asid, pd, pt)
    {
      tlb := tlb - {TlbKey(pd, pt / 2, asid % NASID)};
    }

    /** pgdir_walk: the table behind directory slot `pd`, made on demand when `create` is set. */
    method PgdirWalk(e: nat, pd: nat, create: bool) returns (ok: bool, t: Option<nat>)
      requires Bounded(Abs()) && Live(Abs(), e) && pd < PD_UTOP
      modifies this
      ensures var s := old(Abs());
        if TableOf(s, e, pd).Some? then ok && t == TableOf(s, e, pd) && Abs() == s
        else if !create then ok && t.None? && Abs() == s
        else (t, Abs()) == CreateTable(s, e, pd) && ok == t.Some?
    {
      var d := envs[e].pgdir;
      if !Valid(words[d][pd]) {
        if !create {
          return true, None;
        }
        var pp := Alloc();
        if pp.None? {
          return false, None;
        }
        refs := refs[pp.value := 1];
        words := words[d := words[d][pd := Word(pp.value, PTE_V | PTE_C_CACHEABLE)]];
        return true, pp;
      }
      return true, Some(words[d][pd].ppn);
    }

    /** page_lookup on a user page: the table that maps it, and the word. */
    method Lookup(e: nat, pd: nat, pt: nat) returns (t: nat, w: Option<Word>)
      requires Inv(Abs()) && Live(Abs(), e) && pd < PD_UTOP && pt < 1024
      modifies this
      ensures Abs() == old(Abs()) && w == Translate(Abs(), e, pd, pt)
      ensures w.Some? ==> Some(t) == TableOf(Abs(), e, pd) && t < |words| && w.value == words[t][pt]
      ensures w.Some? ==> w.value.ppn < |refs| && refs[w.value.ppn] > 0
    {
      InvBounded(Abs());
      LeafFacts(Abs(), e, pd, pt);
      var _, table := PgdirWalk(e, pd, false);
      if table.None? || !Valid(words[table.value][pt]) {
        return 0, None;
      }
      return table.value, Some(words[table.value][pt]);
    }

    method Remove(e: nat, pd: nat, pt: nat)
      requires Inv(Abs()) && Bounded(Abs()) && Live(Abs(), e) && pd < PD_UTOP && pt < 1024
      modifies this
      ensures Abs() == PageRemove(old(Abs()), e, pd, pt)
      ensures Inv(Abs()) && OnePage(old(Abs()), Abs(), e, pd, pt, None)
    {
      RemoveKeeps(Abs(), PageRemove(Abs(), e, pd, pt), e, pd, pt);
      var t, w := Lookup(e, pd, pt);
      if w.None? {
        return;
      }
      Decref(w.value.ppn);
      words := words[t := words[t][pt := ZERO]];
      Invalidate(envs[e].asid, pd, pt);
    }

    method Insert(e: nat, f: nat, pd: nat, pt: nat, perm: bv12) returns (ok: bool)
      requires Inv(Abs()) && Bounded(Abs()) && Live(Abs(), e) && pd < PD_UTOP && pt < 1024
      requires Insertable(Abs(), f)
      modifies this
      ensures (ok, Abs()) == PageInsert(old(Abs()), e, f, pd, pt, perm)
      ensures Inv(Abs()) <==> (ok ==> Countable(old(Abs()), e, f, pd, pt))
      ensures ok && Inv(Abs()) ==> OnePage(old(Abs()), Abs(), e, pd, pt, Some(Entry(f, perm)))
      ensures ok && Inv(Abs()) ==> MapsTo(Translate(Abs(), e, pd, pt), f, perm)
      ensures !ok ==> NoPage(old(Abs()), Abs())
    {
      ghost var s := Abs();
      ok := InsertSteps(e, f, pd, pt, perm);
      InsertExact(s, ok, Abs(), e, f, pd, pt, perm);
    }

    method InsertSteps(e: nat, f: nat, pd: nat, pt: nat, perm: bv12) returns (ok: bool)
      requires Inv(Abs()) && Bounded(Abs()) && Live(Abs(), e) && pd < PD_UTOP && pt < 1024
      requires Insertable(Abs(), f)
      modifies this
      ensures (ok, Abs()) == PageInsert(old(Abs()), e, f, pd, pt, perm)
    {
      hide Inv;
      ghost var s := Abs();
      var t, w := Lookup(e, pd, pt);
      if w.Some? {
        if w.value.ppn != f {
          Remove(e, pd, pt);
        } else {
          Invalidate(envs[e].asid, pd, pt);
          words := words[t := words[t][pt := Entry(f, perm)]];
          return true;
        }
      }
      Invalidate(envs[e].asid, pd, pt);
      InsertClears(s, Abs(), e, f, pd, pt);
      ok := MapSlot(e, f, pd, pt, perm);
    }

    /** The end of page_insert: walk again, creating the table if needed, and write the entry. */
    method MapSlot(e: nat, f: nat, pd: nat, pt: nat, perm: bv12) returns (ok: bool)
      requires Inv(Abs()) && Bounded(Abs()) && Live(Abs(), e) && pd < PD_UTOP && pt < 1024 && f < |refs|
      modifies this
      ensures TableOf(old(Abs()), e, pd).Some? ==>
                TableOf(old(Abs()), e, pd).value < |old(words)| && ok &&
                Abs() == MapLeaf(old(Abs()), f, TableOf(old(Abs()), e, pd).value, pt, perm)
      ensures TableOf(old(Abs()), e, pd).None? ==>
                var c := CreateTable(old(Abs()), e, pd);
                ok == c.0.Some? && Abs() == if ok then MapLeaf(c.1, f, c.0.value, pt, perm) else c.1
    {
      LeafFacts(Abs(), e, pd, pt);
      var made, table := PgdirWalk(e, pd, true);
      if !made {
        return false;
      }
      refs := refs[f := (refs[f] + 1) % 65536];
      words := words[table.value := words[table.value][pt := Entry(f, perm)]];
      return true;
    }

    method MemAlloc(e: nat, va: nat, perm: bv12) returns (r: Errno)
      requires Inv(Abs()) && Bounded(Abs()) && Live(Abs(), e)
      modifies this
      ensures (r, Abs()) == SysMemAlloc(old(Abs()), e, va, perm)
    {
      hide Inv;
      if IllegalVa(va) {
        return EInval;
      }
      ghost var s := Abs();
      LayoutSlots(va);
      var pp := Alloc();
      if pp.None? {
        return ENoMem;
      }
      PageAllocKeeps(s, Abs());
      var ok := Insert(e, pp.value, PDX(va), PTX(va), perm);
      return if ok then Success else ENoMem;
    }

    method MemMap(src: nat, srcva: nat, dst: nat, dstva: nat, perm: bv12) returns (r: Errno)
      requires Inv(Abs()) && Bounded(Abs()) && Live(Abs(), src) && Live(Abs(), dst)
      modifies this
      ensures (r, Abs()) == SysMemMap(old(Abs()), src, srcva, dst, dstva, perm)
    {
      hide Inv;
      if IllegalVa(srcva) || IllegalVa(dstva) {
        return EInval;
      }
      LayoutSlots(srcva);
      LayoutSlots(dstva);
      var _, w := Lookup(src, PDX(srcva), PTX(srcva));
      if w.None? {
        return EInval;
      }
      MappedIsInsertable(Abs(), src, PDX(srcva), PTX(srcva));
      var ok := Insert(dst, w.value.ppn, PDX(dstva), PTX(dstva), perm);
      return if ok then Success else ENoMem;
    }

    method MemUnmap(e: nat, va: nat) returns (r: Errno)
      requires Inv(Abs()) && Bounded(Abs()) && Live(Abs(), e)
      modifies this
      ensures (r, Abs()) == SysMemUnmap(old(Abs()), e, va)
    {
      if IllegalVa(va) {
        return EInval;
      }
      LayoutSlots(va);
      Remove(e, PDX(va), PTX(va));
      return Success;
    }

    /** passive_alloc, called for an address that has no valid translation. */
    method PassiveMap(e: nat, va: nat) returns (r: Errno)
      requires Inv(Abs()) && Bounded(Abs()) && Live(Abs(), e)
      requires va < ULIM && WalkWord(Abs(), e, PDX(va), PTX(va)).None?
      modifies this
      ensures (r, Abs()) == PassiveAlloc(old(Abs()), e, va)
    {
      hide Inv;
      if va < UTEMP || (USTACKTOP <= va < USTACKTOP + PAGE_SIZE) || (UENVS <= va < UPAGES) ||
         (UPAGES <= va < UVPT) || va >= ULIM {
        return Panic;
      }
      ghost var s := Abs();
      LayoutSlots(va);
      var p := Alloc();
      if p.None? {
        return Panic;
      }
      PageAllocKeeps(s, Abs());
      if va < UVPT {
        var ok := Insert(e, p.value, PDX(va), PTX(va), PTE_D);
        return if ok then Success else Panic;
      }
      // page_insert through the self-map: the word for va is slot PTX(va) of the directory.
      var d := envs[e].pgdir;
      Invalidate(envs[e].asid, PD_UVPT, PTX(va));
      refs := refs[p.value := (refs[p.value] + 1) % 65536];
      words := words[d := words[d][PTX(va) := Entry(p.value, 0)]];
      return Success;
    }

    /** A TLB miss: afterwards both halves around the page are what the page table says. */
    method TlbRefill(e: nat, va: nat, victim: TlbKey) returns (r: Errno)
      requires Inv(Abs()) && Bounded(Abs()) && Live(Abs(), e)
      requires va < ULIM
      modifies this
      ensures (r, Abs()) == Refill(old(Abs()), e, va, victim)
      ensures Inv(Abs()) <==> !(PastSelfMap(va) && old(free) != [])
      ensures r == Success ==> Live(Abs(), e) && LoadsHalf(Abs(), e, va, 0) && LoadsHalf(Abs(), e, va, 1)
    {
      hide Inv, LoadsHalf, Refill;
      ghost var s := Abs();
      r := RefillSteps(e, va, victim);
      RefillKeeps(s, r, Abs(), e, va, victim);
    }

    /** _do_tlb_refill, then tlbwr over a random `victim`. */
    method RefillSteps(e: nat, va: nat, victim: TlbKey) returns (r: Errno)
      requires Inv(Abs()) && Bounded(Abs()) && Live(Abs(), e)
      requires va < ULIM
      modifies this
      ensures (r, Abs()) == Refill(old(Abs()), e, va, victim)
    {
      hide Inv;
      hide PassiveAlloc;
      LayoutSlots(va);
      var pd, pt := PDX(va), PTX(va);
      ghost var s := Abs();
      Invalidate(envs[e].asid, pd, pt);
      ghost var s0 := Abs();
      InvalidateKeeps(s, s0, envs[e].asid, pd, pt);
      var w := FindWord(e, pd, pt);
      while w.None?
        invariant w == WalkWord(Abs(), e, pd, pt)
        invariant w.None? ==> Abs() == s0
        invariant w.Some? ==> (Abs() == s0 && WalkWord(s0, e, pd, pt).Some?) ||
                              (WalkWord(s0, e, pd, pt).None? && (Success, Abs()) == PassiveAlloc(s0, e, va))
        invariant envs == s.envs
        decreases w.None?
      {
        r := PassiveMap(e, va);
        PassiveKeeps(s0, r, Abs(), e, va);
        if r != Success {
          return Panic;
        }
        w := FindWord(e, pd, pt);
      }
      var t := words[words[envs[e].pgdir][pd].ppn];
      tlb := (tlb - {victim})[TlbKey(pd, pt / 2, envs[e].asid) :=
                              TlbPair(Shift6(t[pt / 2 * 2]), Shift6(t[pt / 2 * 2 + 1]))];
      return Success;
    }

    /** page_lookup on any address, template and self-map included. */
    method FindWord(e: nat, pd: nat, pt: nat) returns (w: Option<Word>)
      requires Live(Abs(), e) && pd < 1024 && pt < 1024
      ensures w == WalkWord(Abs(), e, pd, pt)
    {
      var d := envs[e].pgdir;
      if d >= |words| || !Valid(words[d][pd]) || words[d][pd].ppn >= |words| {
        return None;
      }
      var pte := words[words[d][pd].ppn][pt];
      return if Valid(pte) then Some(pte) else None;
    }

    /** asid_alloc. */
    method AsidAlloc() returns (a: Option<nat>)
      requires |asids| == NASID
      modifies this`asids
      ensures a == FirstClear(old(asids), 0)
      ensures asids == if a.Some? then old(asids)[a.value := true] else old(asids)
    {
      var i := 0;
      while i < NASID
        invariant i <= NASID && asids == old(asids)
        invariant FirstClear(asids, 0) == FirstClear(asids, i)
      {
        if !asids[i] {
          asids := asids[i := true];
          return Some(i);
        }
        i := i + 1;
      }
      return None;
    }

    /** env_setup_vm and the memory part of env_alloc. */
    method Setup(e: nat) returns (r: AllocResult)
      requires Inv(Abs()) && Bounded(Abs()) && e < |envs| && !Live(Abs(), e)
      modifies this
      ensures (r, Abs()) == EnvAlloc(old(Abs()), e)
      ensures Inv(Abs()) <==> r != NoFreeEnv
    {
      hide TlbOk;
      hide Counted;
      hide Exclusive;
      EnvAllocKeeps(Abs(), EnvAlloc(Abs(), e).0, EnvAlloc(Abs(), e).1, e);
      var p := Alloc();
      if p.None? {
        return NoMem;
      }
      var f := p.value;
      refs := refs[f := (refs[f] + 1) % 65536];
      envs := envs[e := envs[e].(pgdir := f)];
      words := words[f := words[f][PD_UENVS := words[base][PD_UENVS]]];
      words := words[f := words[f][PD_UPAGES := words[base][PD_UPAGES]]];
      words := words[f := words[f][PD_UVPT := Word(f, PTE_V)]];
      assert words == old(words)[f := ZeroTable()][f := NewDirectory(old(words)[f := ZeroTable()][base], f)];
      var a := AsidAlloc();
      if a.None? {
        return NoFreeEnv;
      }
      envs := envs[e := EnvVm(true, f, a.value)];
      return VmEnv.Ok;
    }

    /** env_free: empty and release every table, then the directory, the ASID and the env. */
    method Free(e: nat)
      requires Inv(Abs()) && Bounded(Abs()) && Live(Abs(), e)
      modifies this
      ensures Abs() == EnvFree(old(Abs()), e)
      ensures Inv(Abs()) && Freed(old(Abs()), Abs())
    {
      ghost var s := Abs();
      RootCounted(s, e);
      EmptyDirectory(e);
      Decref(envs[e].pgdir);
      asids := asids[envs[e].asid := false];
      Invalidate(envs[e].asid, PD_UVPT, PD_UVPT);
      envs := envs[e := envs[e].(live := false)];
      EnvFreeKeeps(s, EnvFree(s, e), e);
    }

    /** The outer loop of env_free. */
    method EmptyDirectory(e: nat)
      requires Inv(Abs()) && Bounded(Abs()) && Live(Abs(), e)
      modifies this
      ensures Abs() == ClearDirectory(old(Abs()), e, 0)
    {
      hide *;
      ghost var s := Abs();
      var pdeno := 0;
      while pdeno < PD_UTOP
        invariant pdeno <= PD_UTOP && Inv(Abs()) && Bounded(Abs()) && Live(Abs(), e)
        invariant ClearDirectory(s, e, 0) == ClearDirectory(Abs(), e, pdeno)
      {
        DropSlot(e, pdeno);
        pdeno := pdeno + 1;
      }
      ClearDirectoryDone(Abs(), e);
    }

    /** The body of that loop: slots that are not valid are skipped. */
    method DropSlot(e: nat, pdeno: nat)
      requires Inv(Abs()) && Bounded(Abs()) && Live(Abs(), e) && pdeno < PD_UTOP
      modifies this
      ensures Inv(Abs()) && Bounded(Abs()) && Live(Abs(), e)
      ensures ClearDirectory(old(Abs()), e, pdeno) == ClearDirectory(Abs(), e, pdeno + 1)
    {
      hide Inv;
      if Valid(words[envs[e].pgdir][pdeno]) {
        DropTable(e, pdeno);
      }
    }

    /** One round of the outer loop of env_free, on a slot that links a table. */
    method DropTable(e: nat, pdeno: nat)
      requires Inv(Abs()) && Bounded(Abs()) && Live(Abs(), e) && pdeno < PD_UTOP
      requires TableOf(Abs(), e, pdeno).Some?
      modifies this
      ensures Abs() == Unlink(ClearTable(old(Abs()), e, pdeno, 0), e, pdeno)
      ensures Inv(Abs()) && Bounded(Abs()) && envs == old(envs)
    {
      hide Inv;
      ghost var s := Abs();
      DropTableKeeps(s, Unlink(ClearTable(s, e, pdeno, 0), e, pdeno), e, pdeno);
      LeafFacts(Abs(), e, pdeno, 0);
      var d := envs[e].pgdir;
      var t := words[d][pdeno].ppn;
      EmptyTable(e, pdeno, t);
      LinkCounted(Abs(), e, pdeno);
      words := words[d := words[d][pdeno := ZERO]];
      Decref(t);
      Invalidate(envs[e].asid, PD_UVPT, pdeno);
    }

    /** The inner loop of env_free over table `t` of directory slot `pd`. */
    method EmptyTable(e: nat, pd: nat, t: nat)
      requires Inv(Abs()) && Bounded(Abs()) && Live(Abs(), e) && pd < PD_UTOP
      requires TableOf(Abs(), e, pd) == Some(t)
      modifies this
      ensures Abs() == ClearTable(old(Abs()), e, pd, 0)
      ensures Inv(Abs()) && Bounded(Abs()) && TableOf(Abs(), e, pd) == Some(t)
    {
      ghost var s := Abs();
      var pteno := 0;
      while pteno < 1024
        invariant pteno <= 1024 && Inv(Abs()) && Bounded(Abs()) && envs == s.envs
        invariant TableOf(Abs(), e, pd) == Some(t)
        invariant ClearTable(s, e, pd, 0) == ClearTable(Abs(), e, pd, pteno)
      {
        ClearSlot(e, pd, pteno, t);
        pteno := pteno + 1;
      }
    }

    /** The body of that loop: page_remove, but only for a valid word. */
    method ClearSlot(e: nat, pd: nat, pteno: nat, t: nat)
      requires Inv(Abs()) && Bounded(Abs()) && Live(Abs(), e) && pd < PD_UTOP && pteno < 1024
      requires TableOf(Abs(), e, pd) == Some(t)
      modifies this
      ensures Abs() == PageRemove(old(Abs()), e, pd, pteno)
      ensures Inv(Abs()) && Bounded(Abs()) && TableOf(Abs(), e, pd) == Some(t)
    {
      ghost var s := Abs();
      LeafFacts(s, e, pd, pteno);
      if Valid(words[t][pteno]) {
        Remove(e, pd, pteno);
        RemoveKeeps(s, Abs(), e, pd, pteno);
        assert Target(Abs(), Link(e, pd)) == Target(s, Link(e, pd));
      }
    }
  }

  /** page_init, then env_init: with three frames to spare the invariant of every run holds. */
  method Boot(npage: nat, used: nat, nenv: nat, pagesAt: nat, npages: nat, envsAt: nat, nenvs: nat)
    returns (m: Memory)
    requires used + 3 <= npage && 0 < npages <= 1024 && 0 < nenvs <= 1024
    requires pagesAt + npages <= used && envsAt + nenvs <= used
    ensures fresh(m) && Booted(m.Abs()) && Inv(m.Abs()) && AllFree(m.Abs())
    ensures Shows(m.words, m.base, PD_UPAGES, pagesAt, npages) && Shows(m.words, m.base, PD_UENVS, envsAt, nenvs)
  {
    m := new Memory(npage, used, nenv);
    var _ := m.EnvInit(pagesAt, npages, envsAt, nenvs);
    BootedInv(m.Abs());
  }

  lemma InitedDistinct(s: Vm)
    requires PageInited(s)
    ensures forall i, j :: 0 <= i < |s.free| && 0 <= j < |s.free| && i != j ==> s.free[i] != s.free[j]
    ensures forall f :: f in s.free ==> f < |s.refs| && f !in s.kernel
    ensures Bounded(s)
  {
    forall i, j | 0 <= i < |s.free| && 0 <= j < |s.free| && i != j
      ensures s.free[i] != s.free[j]
    {
      if i < j { assert s.free[i] != s.free[j]; } else { assert s.free[j] != s.free[i]; }
    }
  }

  /** Frames below the bound that are neither the template directory nor on the free list. */
  ghost predicate Apart(at: nat, n: nat, frames: nat, free: seq<nat>, base: nat) {
    forall f: nat :: at <= f < at + n ==> ApartAt(f, frames, free, base)
  }

  /** The template's slot `pd` shows the `n` frames from `at` on, read-only, and nothing else. */
  predicate Shows(words: seq<Table>, base: nat, pd: nat, at: nat, n: nat) {
    base < |words| && pd < 1024 && Valid(words[base][pd]) && words[base][pd].ppn < |words| &&
    forall i :: 0 <= i < 1024 ==>
      var w := words[words[base][pd].ppn][i];
      if i < n then w.ppn == at + i && Valid(w) && !Writable(w) else !Valid(w)
  }

  /** The table that map_segment leaves shows its stretch of frames. */
  lemma SegmentShows(words: seq<Table>, base: nat, pd: nat, t: nat, at: nat, n: nat)
    requires base < |words| && pd < 1024 && t < |words| && words[base][pd] == Word(t, LINK_FLAGS)
    requires forall i :: 0 <= i < 1024 ==> words[t][i] == if i < n then Entry(at + i, PTE_G | PTE_V) else ZERO
    ensures Shows(words, base, pd, at, n)
  {
    assert LINK_FLAGS & PTE_V != 0;
    assert (PTE_G | PTE_V) & PTE_D == 0;
  }

  /** Frames taken from the head of the list for the template leave every other frame free. */
  lemma TakenFree(s0: Vm, s: Vm)
    requires |s.refs| == |s0.refs| && s.asids == s0.asids && |s0.free| > 0
    requires s.free == s0.free[if |s0.free| < 3 then |s0.free| else 3..]
    requires s.kernel == s0.kernel + {s0.free[0]} + (if |s0.free| > 1 then {s0.free[1]} else {})
                         + if |s0.free| > 2 then {s0.free[2]} else {}
    ensures AllFree(s0) ==> AllFree(s)
  {
    if AllFree(s0) {
      forall f | 0 <= f < |s.refs| && f !in s.kernel
        ensures f in s.free
      {
        var i :| 0 <= i < |s0.free| && s0.free[i] == f;
        assert s.free[i - 3] == f;
      }
    }
  }

  lemma NotBooted(s: Vm)
    requires |s.words| == |s.refs| && s.base < |s.words| && !Valid(s.words[s.base][PD_UENVS])
    ensures !Booted(s)
  {
  }

  predicate ApartAt(f: nat, frames: nat, free: seq<nat>, base: nat) { f < frames && f !in free && f != base }

  lemma KernelApart(s: Vm, at: nat, n: nat, free: seq<nat>, base: nat)
    requires PageInited(s) && (forall i :: at <= i < at + n ==> i in s.kernel)
    requires base in s.free && forall f :: f in free ==> f in s.free
    ensures Apart(at, n, |s.refs|, free, base)
  {
    InitedDistinct(s);
    forall f: nat | at <= f < at + n
      ensures ApartAt(f, |s.refs|, free, base)
    {
      assert f in s.kernel;
    }
  }

  /** The template after env_init, when frames for it and its two tables were free. */
  lemma TemplateBuilt(s0: Vm, s: Vm)
    requires PageInited(s0) && |s0.free| >= 3 && s.base == s0.free[0] && s.free == s0.free[3..]
    requires s.kernel == s0.kernel + {s0.free[0], s0.free[1], s0.free[2]}
    requires |s.words| == |s.refs| == |s0.refs| && s.asids == s0.asids && s.tlb == s0.tlb && s.envs == s0.envs
    requires forall f :: 0 <= f < |s.refs| && f !in s.kernel ==> s.refs[f] == s0.refs[f]
    requires s.base < |s.words|
    requires s.words[s.base][PD_UPAGES] == Word(s0.free[1], LINK_FLAGS)
    requires s.words[s.base][PD_UENVS] == Word(s0.free[2], LINK_FLAGS)
    requires s0.free[1] < |s.words| && s0.free[2] < |s.words|
    requires forall i :: 0 <= i < 1024 ==> !Writable(s.words[s0.free[1]][i]) && !Writable(s.words[s0.free[2]][i])
    ensures Booted(s)
  {
    InitedDistinct(s0);
    assert LINK_FLAGS & PTE_V != 0 && LINK_FLAGS & PTE_D == 0;
    forall i | 0 <= i < |s.free|
      ensures s.free[i] < |s.refs| && s.free[i] !in s.kernel && s.refs[s.free[i]] == 0
    {
      assert s.free[i] == s0.free[i + 3];
    }
  }

  lemma ClearDirectoryDone(s: Vm, e: nat)
    requires Bounded(s) && Live(s, e)
    ensures ClearDirectory(s, e, PD_UTOP) == s
  {
  }

  lemma LinkCounted(s: Vm, e: nat, pd: nat)
    requires Inv(s) && TableOf(s, e, pd).Some?
    ensures TableOf(s, e, pd).value < |s.refs| && s.refs[TableOf(s, e, pd).value] == 1
  {
    assert Target(s, Link(e, pd)).Some?;
  }

  lemma RootCounted(s: Vm, e: nat)
    requires Inv(s) && Bounded(s) && Live(s, e)
    ensures ClearDirectory(s, e, 0).refs[s.envs[e].pgdir] == 1
    ensures ClearDirectory(s, e, 0).asids == s.asids && s.envs[e].asid < |s.asids|
  {
    ClearDirectoryKeeps(s, ClearDirectory(s, e, 0), e, 0);
    assert Target(ClearDirectory(s, e, 0), Root(e)).Some?;
  }
}
