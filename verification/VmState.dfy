/**
 Physical frames, two-level page tables, environments and the TLB as one value, with the
 invariant that every operation of kern/pmap.c, kern/env.c and kern/tlbex.c keeps.
 */
module VmState {
  import opened Wrappers
  import opened Mmu

  datatype EnvVm = EnvVm(live: bool, pgdir: nat, asid: nat)

  /** A TLB pair is tagged by (VPN2, ASID); VPN2 is a directory slot and half a table slot. */
  datatype TlbKey = TlbKey(pd: nat, pair: nat, asid: nat)

  datatype TlbPair = TlbPair(even: EntryLo, odd: EntryLo) {
    function Half(h: nat): EntryLo { if h == 0 then even else odd }
  }

  /**
   `kernel` holds the frames laid out at boot: the kernel image, the page and environment
   arrays, the template directory `base` and the two tables it links.
   */
  datatype Vm = Vm(
    refs: seq<nat>,
    free: seq<nat>,
    words: seq<Table>,
    envs: seq<EnvVm>,
    asids: seq<bool>,
    tlb: map<TlbKey, TlbPair>,
    kernel: set<nat>,
    base: nat)

  /** The places that can name a frame and be counted in its pp_ref. */
  datatype Ref = Root(e: nat) | Link(e: nat, pd: nat) | Leaf(e: nat, pd: nat, pt: nat)

  predicate Live(s: Vm, e: nat) { e < |s.envs| && s.envs[e].live }

  /** The second-level table behind directory slot `pd` of env `e`, for user slots only. */
  function TableOf(s: Vm, e: nat, pd: nat): Option<nat> {
    if Live(s, e) && s.envs[e].pgdir < |s.words| && pd < PD_UTOP && Valid(s.words[s.envs[e].pgdir][pd])
    then Some(s.words[s.envs[e].pgdir][pd].ppn)
    else None
  }

  /** The flat view of user memory: the page-table word that maps page (pd, pt) of env `e`. */
  function Translate(s: Vm, e: nat, pd: nat, pt: nat): Option<Word> {
    var t := TableOf(s, e, pd);
    if t.Some? && t.value < |s.words| && pt < 1024 && Valid(s.words[t.value][pt])
    then Some(s.words[t.value][pt])
    else None
  }

  function Target(s: Vm, r: Ref): Option<nat> {
    match r
    case Root(e) => if Live(s, e) then Some(s.envs[e].pgdir) else None
    case Link(e, pd) => TableOf(s, e, pd)
    case Leaf(e, pd, pt) =>
      var w := Translate(s, e, pd, pt);
      if w.Some? then Some(w.value.ppn) else None
  }

  ghost function Universe(n: nat): set<Ref> {
    (set e: nat | e < n :: Root(e)) +
    (set e: nat, pd: nat | e < n && pd < PD_UTOP :: Link(e, pd)) +
    (set e: nat, pd: nat, pt: nat | e < n && pd < PD_UTOP && pt < 1024 :: Leaf(e, pd, pt))
  }

  /** The places that name frame `f`; pp_ref has to be their number. */
  ghost function Slots(s: Vm, f: nat): set<Ref> {
    set r | r in Universe(|s.envs|) && Target(s, r) == Some(f)
  }

  // ---- the invariant ----

  ghost predicate Sized(s: Vm) {
    && |s.words| == |s.refs|
    && |s.asids| == NASID
    && s.base in s.kernel
    && (forall f :: f in s.kernel ==> f < |s.refs|)
  }

  /** Every counted reference names a dynamically allocated frame. */
  ghost predicate InRange(s: Vm) {
    forall r: Ref :: Target(s, r).Some? ==>
      Target(s, r).value < |s.refs| && Target(s, r).value !in s.kernel
  }

  ghost predicate Counted(s: Vm) {
    forall f :: 0 <= f < |s.refs| && f !in s.kernel ==> s.refs[f] == |Slots(s, f)|
  }

  /** Directories and tables are named once, so none of them is aliased. */
  ghost predicate Exclusive(s: Vm) {
    forall r: Ref :: !r.Leaf? && Target(s, r).Some? && Target(s, r).value < |s.refs| ==>
      s.refs[Target(s, r).value] == 1
  }

  ghost predicate FreeOk(s: Vm) {
    && (forall i :: 0 <= i < |s.free| ==>
          s.free[i] < |s.refs| && s.free[i] !in s.kernel && s.refs[s.free[i]] == 0)
    && (forall i, j :: 0 <= i < j < |s.free| ==> s.free[i] != s.free[j])
  }

  /** Flags of a directory link: never writable, so page tables are read-only to users. */
  const LINK_FLAGS: bv12 := PTE_V | PTE_C_CACHEABLE

  /** The shape of a live env's directory outside its user links. */
  ghost predicate DirOk(s: Vm, e: nat)
    requires Sized(s)
  {
    Live(s, e) && s.envs[e].pgdir < |s.words| ==>
      var d := s.words[s.envs[e].pgdir];
      var b := s.words[s.base];
      && d[PD_UENVS] == b[PD_UENVS]
      && d[PD_UPAGES] == b[PD_UPAGES]
      && d[PD_UVPT] == Word(s.envs[e].pgdir, PTE_V)
      && (forall i :: PD_UVPT < i < 1024 ==> !Valid(d[i]))
      && (forall i :: 0 <= i < PD_UTOP && Valid(d[i]) ==> d[i].flags == LINK_FLAGS)
  }

  /** The template links kernel tables that map kernel frames read-only. */
  ghost predicate BaseOk(s: Vm)
    requires Sized(s)
  {
    forall pd :: pd == PD_UENVS || pd == PD_UPAGES ==>
      var l := s.words[s.base][pd];
      && Valid(l) && !Writable(l) && l.ppn in s.kernel
      && (forall pt :: 0 <= pt < 1024 ==> !Writable(s.words[l.ppn][pt]))
  }

  ghost predicate AsidsOk(s: Vm) {
    && (forall e: nat :: Live(s, e) ==> s.envs[e].asid < |s.asids| && s.asids[s.envs[e].asid])
    && (forall e: nat, e': nat :: Live(s, e) && Live(s, e') && s.envs[e].asid == s.envs[e'].asid ==> e == e')
  }

  // ---- TLB coherence ----

  /** What pgdir_walk and page_lookup find at (pd, pt), template and self-map included. */
  function WalkWord(s: Vm, e: nat, pd: nat, pt: nat): Option<Word> {
    if Live(s, e) && s.envs[e].pgdir < |s.words| && pd < 1024 && pt < 1024 &&
       Valid(s.words[s.envs[e].pgdir][pd]) && s.words[s.envs[e].pgdir][pd].ppn < |s.words|
    then
      var w := s.words[s.words[s.envs[e].pgdir][pd].ppn][pt];
      if Valid(w) then Some(w) else None
    else None
  }

  /** Pages whose mapping belongs to one env; the others come from the shared template. */
  predicate Private(pd: nat, pt: nat) {
    pd < PD_UTOP || (pd == PD_UVPT && pt != PD_UENVS && pt != PD_UPAGES)
  }

  function TemplateWord(s: Vm, pd: nat, pt: nat): Word
    requires s.base < |s.words| && pt < 1024
    requires pd == PD_UENVS || pd == PD_UPAGES || pd == PD_UVPT
  {
    var b := s.words[s.base];
    if pd == PD_UVPT then b[pt]
    else if b[pd].ppn < |s.words| then s.words[b[pd].ppn][pt]
    else ZERO
  }

  ghost predicate Owned(s: Vm, k: TlbKey, h: nat, lo: EntryLo, e: nat) {
    && Live(s, e) && s.envs[e].asid == k.asid
    && WalkWord(s, e, k.pd, 2 * k.pair + h).Some?
    && lo == Shift6(WalkWord(s, e, k.pd, 2 * k.pair + h).value)
  }

  /** A valid half is the current word of the live env with that ASID, or a template word. */
  ghost predicate HalfOk(s: Vm, k: TlbKey, h: nat)
    requires Sized(s) && k in s.tlb
  {
    && k.pd <= PD_UVPT && 2 * k.pair + h < 1024
    && if Private(k.pd, 2 * k.pair + h)
       then exists e: nat :: Owned(s, k, h, s.tlb[k].Half(h), e)
       else s.tlb[k].Half(h) == Shift6(TemplateWord(s, k.pd, 2 * k.pair + h))
  }

  ghost predicate TlbOk(s: Vm)
    requires Sized(s)
  {
    forall k, h :: k in s.tlb && 0 <= h <= 1 && LoValid(s.tlb[k].Half(h)) ==> HalfOk(s, k, h)
  }

  ghost predicate Inv(s: Vm) {
    && Sized(s) && InRange(s) && Counted(s) && Exclusive(s) && FreeOk(s)
    && BaseOk(s) && (forall e: nat :: DirOk(s, e))
    && AsidsOk(s) && TlbOk(s)
  }

  // ---- what the invariant says about aliasing ----

  lemma SlotsIff(s: Vm, f: nat)
    ensures forall r: Ref :: r in Slots(s, f) <==> Target(s, r) == Some(f)
  {
    forall r: Ref | Target(s, r) == Some(f)
      ensures r in Universe(|s.envs|)
    {
    }
  }

  /** A directory or table frame is named by exactly one place. */
  lemma SoleOwner(s: Vm, r: Ref, r': Ref)
    requires Inv(s)
    requires !r.Leaf? && Target(s, r).Some? && Target(s, r') == Target(s, r)
    ensures r == r'
  {
    var f := Target(s, r).value;
    SlotsIff(s, f);
    assert |Slots(s, f)| == 1;
    SingletonSet(Slots(s, f), r, r');
  }

  lemma SingletonSet<T>(a: set<T>, x: T, y: T)
    requires x in a && y in a && |a| == 1
    ensures x == y
  {
    assert |a - {x}| == 0;
  }

  /** A frame whose count is zero, as every frame on the free list, is named from nowhere. */
  lemma ZeroIsUnmapped(s: Vm, f: nat, r: Ref)
    requires Inv(s)
    requires f < |s.refs| && f !in s.kernel && s.refs[f] == 0
    ensures Target(s, r) != Some(f)
  {
    SlotsIff(s, f);
    assert Slots(s, f) == {};
  }

  lemma SetStep<T>(a: set<T>, b: set<T>, x: T)
    requires forall y :: y != x ==> (y in a <==> y in b)
    ensures |b| == |a| - (if x in a then 1 else 0) + (if x in b then 1 else 0)
  {
    assert b == a - {x} + (if x in b then {x} else {});
  }

  /** If only place `r0` changed what it names, only the slot sets of its two targets change. */
  lemma SlotsStep(s: Vm, s': Vm, r0: Ref, f: nat)
    requires forall r: Ref :: r != r0 ==> Target(s', r) == Target(s, r)
    ensures |Slots(s', f)| == |Slots(s, f)|
                              - (if Target(s, r0) == Some(f) then 1 else 0)
                              + (if Target(s', r0) == Some(f) then 1 else 0)
  {
    SlotsIff(s, f);
    SlotsIff(s', f);
    SetStep(Slots(s, f), Slots(s', f), r0);
  }
}
