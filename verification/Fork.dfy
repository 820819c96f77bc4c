/**
 Copy-on-write fork (user/lib/fork.c) as a transition system whose steps are the single
 system calls, page-table reads, byte copies and stores of any number of environments in
 any interleaving, and the proof that it refines a machine that copies pages eagerly.

 Frames come from an inexhaustible supply; running out of memory is not part of this model.
 */
module Fork {
  import opened Wrappers
  import opened Mmu

  /** A virtual page of an environment. */
  datatype Loc = Loc(e: nat, v: nat)

  /** The permission bits fork looks at; page_insert adds V and C to whatever is given. */
  datatype Perm = Perm(d: bool, cow: bool, lib: bool)

  datatype Mapping = Mapping(frame: nat, perm: Perm)

  type Page = seq<int>

  /** Where an env stands inside fork(): at page `next`, before, between or after its calls. */
  datatype DupStage = Scan | PermRead(perm: Perm) | ChildMapped

  datatype ForkState = ForkState(child: nat, next: nat, stage: DupStage)

  /** Where an env stands inside cow_entry, for the page `v`. */
  datatype CowStage = Alloc | Copy(done: nat) | Unmap

  datatype Handler = Handler(v: nat, stage: CowStage)

  datatype Env = Env(running: bool, parent: nat, fork: Option<ForkState>, handler: Option<Handler>)

  datatype Cow = Cow(envs: map<nat, Env>, maps: map<Loc, Mapping>, mem: map<nat, Page>)

  const UCOW_VPN: nat := UCOW / PAGE_SIZE
  const LAST_VPN: nat := USTACKTOP / PAGE_SIZE

  /** The pages that sys_mem_alloc, sys_mem_map and sys_mem_unmap accept. */
  predicate Legal(v: nat) { UTEMP <= v * PAGE_SIZE < UTOP }

  predicate D(m: Mapping) { m.perm.d }

  predicate IsCow(m: Mapping) { m.perm.cow }

  predicate Lib(m: Mapping) { m.perm.lib }

  const DUP_PERM := Perm(false, true, false)
  const FAULT_PERM := Perm(true, false, false)

  function Bits(w: bv12): Perm {
    Perm(w & PTE_D != 0, w & PTE_COW != 0, w & PTE_LIBRARY != 0)
  }

  /** C's logical negation, which the code applies where a bitwise one was meant. */
  function LogicalNot(x: bv12): bv12 { if x == 0 then 1 else 0 }

  /** The words duppage, cow_entry and page_insert compute keep no other permission bit. */
  lemma ComputedPerms(perm: bv12)
    ensures Bits(((perm & LogicalNot(PTE_D)) | PTE_COW) | PTE_C_CACHEABLE | PTE_V) == DUP_PERM
    ensures Bits(((perm & LogicalNot(PTE_COW)) | PTE_D) | PTE_C_CACHEABLE | PTE_V) == FAULT_PERM
    ensures Bits(perm | PTE_C_CACHEABLE | PTE_V) == Bits(perm)
  {
  }

  // ---- the concrete machine ----

  datatype Step =
    | Store(e: nat, v: nat, i: nat, b: int)
    | Fault(e: nat, v: nat)
    | CowAlloc(e: nat, f: nat)
    | CowCopy(e: nat)
    | CowMap(e: nat)
    | CowRefused(e: nat)
    | CowUnmap(e: nat)
    | Exofork(e: nat, c: nat)
    | DupSkip(e: nat)
    | DupRead(e: nat)
    | DupRefused(e: nat)
    | DupChild(e: nat)
    | DupParent(e: nat)
    | ForkDone(e: nat)
    | UserAlloc(e: nat, v: nat, f: nat, perm: Perm)
    | UserUnmap(e: nat, v: nat)
    | Exit(e: nat)

  predicate Mapped(s: Cow, l: Loc) { l in s.maps }

  /** The env executes ordinary code: it runs and is not inside the fault handler. */
  predicate Active(s: Cow, e: nat) {
    e in s.envs && s.envs[e].running && s.envs[e].handler.None?
  }

  predicate InFork(s: Cow, e: nat) { Active(s, e) && s.envs[e].fork.Some? }

  predicate InHandler(s: Cow, e: nat) {
    e in s.envs && s.envs[e].running && s.envs[e].handler.Some?
  }

  function Next(s: Cow, e: nat): Loc
    requires e in s.envs && s.envs[e].fork.Some?
  {
    Loc(e, s.envs[e].fork.value.next)
  }

  ghost predicate FreshFrame(s: Cow, f: nat) { forall l :: l in s.maps ==> s.maps[l].frame != f }

  /**
   When a step can be taken. A page may be allocated, by a system call or on a first touch, and
   unmapped by any env; an env inside fork() does neither to pages its loop has passed. Below
   UTEMP sys_mem_map refuses every call: cow_entry then unmaps its copy and changes nothing, and
   duppage gives the child no page (CowRefused, DupRefused).
   */
  ghost predicate CanStep(s: Cow, st: Step) {
    match st
    case Store(e, v, i, b) =>
      Active(s, e) && v != UCOW_VPN && i < PAGE_SIZE && Loc(e, v) in s.maps && D(s.maps[Loc(e, v)])
    case Fault(e, v) =>
      && Active(s, e) && v != UCOW_VPN && Loc(e, v) in s.maps
      && !D(s.maps[Loc(e, v)]) && IsCow(s.maps[Loc(e, v)])
    case CowAlloc(e, f) => InHandler(s, e) && s.envs[e].handler.value.stage == Alloc && FreshFrame(s, f)
    case CowCopy(e) =>
      && InHandler(s, e) && s.envs[e].handler.value.stage.Copy?
      && s.envs[e].handler.value.stage.done < PAGE_SIZE
    case CowMap(e) =>
      && InHandler(s, e) && s.envs[e].handler.value.stage == Copy(PAGE_SIZE)
      && Legal(s.envs[e].handler.value.v)
    case CowRefused(e) =>
      && InHandler(s, e) && s.envs[e].handler.value.stage == Copy(PAGE_SIZE)
      && !Legal(s.envs[e].handler.value.v)
    case CowUnmap(e) => InHandler(s, e) && s.envs[e].handler.value.stage == Unmap
    case Exofork(e, c) => Active(s, e) && s.envs[e].fork.None? && c !in s.envs
    case DupSkip(e) =>
      && InFork(s, e) && s.envs[e].fork.value.stage == Scan
      && s.envs[e].fork.value.next < LAST_VPN && Next(s, e) !in s.maps
    case DupRead(e) =>
      && InFork(s, e) && s.envs[e].fork.value.stage == Scan
      && s.envs[e].fork.value.next < LAST_VPN && Next(s, e) in s.maps
    case DupRefused(e) =>
      InFork(s, e) && s.envs[e].fork.value.stage.PermRead? && !Legal(s.envs[e].fork.value.next)
    case DupChild(e) =>
      && InFork(s, e) && s.envs[e].fork.value.stage.PermRead? && Next(s, e) in s.maps
      && Legal(s.envs[e].fork.value.next)
    case DupParent(e) => InFork(s, e) && s.envs[e].fork.value.stage.ChildMapped? && Next(s, e) in s.maps
    case ForkDone(e) =>
      && InFork(s, e) && s.envs[e].fork.value.stage == Scan && s.envs[e].fork.value.next == LAST_VPN
      && s.envs[e].fork.value.child in s.envs
    case UserAlloc(e, v, f, perm) =>
      && Active(s, e) && v != UCOW_VPN && Legal(v) && FreshFrame(s, f) && !(perm.lib && perm.cow)
      && (s.envs[e].fork.Some? ==> v > s.envs[e].fork.value.next)
    case UserUnmap(e, v) => Active(s, e) && v != UCOW_VPN && Legal(v) && s.envs[e].fork.None?
    case Exit(e) => Active(s, e) && s.envs[e].fork.None?
  }

  /** duppage reads the permission of a page and this step faults on that page. */
  predicate FaultsOnRead(s: Cow, st: Step) {
    && st.Fault? && st.e in s.envs && s.envs[st.e].fork.Some?
    && s.envs[st.e].fork.value.stage.PermRead? && s.envs[st.e].fork.value.next == st.v
  }

  /** Steps as fork() takes them: duppage does not write to the page whose permission it has just read. */
  ghost predicate Enabled(s: Cow, st: Step) { CanStep(s, st) && !FaultsOnRead(s, st) }

  /** The first branch of duppage: read-only, shared, or already copy-on-write. */
  predicate PlainDup(perm: Perm) { !perm.d || perm.lib }

  function SetFork(s: Cow, e: nat, k: Option<ForkState>): Cow
    requires e in s.envs
  {
    s.(envs := s.envs[e := s.envs[e].(fork := k)])
  }

  function SetHandler(s: Cow, e: nat, h: Option<Handler>): Cow
    requires e in s.envs
  {
    s.(envs := s.envs[e := s.envs[e].(handler := h)])
  }

  ghost predicate Sane(s: Cow) {
    && (forall l :: l in s.maps ==> s.maps[l].frame in s.mem && |s.mem[s.maps[l].frame]| == PAGE_SIZE)
    && (forall e :: e in s.envs && s.envs[e].handler.Some? ==>
          && Loc(e, s.envs[e].handler.value.v) in s.maps
          && (Loc(e, UCOW_VPN) in s.maps <==> s.envs[e].handler.value.stage != Alloc))
  }

  function Apply(s: Cow, st: Step): Cow
    requires Sane(s) && CanStep(s, st)
  {
    match st
    case Store(e, v, i, b) =>
      var f := s.maps[Loc(e, v)].frame;
      s.(mem := s.mem[f := s.mem[f][i := b]])
    case Fault(e, v) => SetHandler(s, e, Some(Handler(v, Alloc)))
    case CowAlloc(e, f) =>
      SetHandler(s, e, Some(s.envs[e].handler.value.(stage := Copy(0))))
        .(maps := s.maps[Loc(e, UCOW_VPN) := Mapping(f, FAULT_PERM)],
          mem := s.mem[f := seq(PAGE_SIZE, _ => 0)])
    case CowCopy(e) =>
      var h := s.envs[e].handler.value;
      var src := s.maps[Loc(e, h.v)].frame;
      var dst := s.maps[Loc(e, UCOW_VPN)].frame;
      SetHandler(s, e, Some(h.(stage := Copy(h.stage.done + 1))))
        .(mem := s.mem[dst := s.mem[dst][h.stage.done := s.mem[src][h.stage.done]]])
    case CowMap(e) =>
      var h := s.envs[e].handler.value;
      var dst := s.maps[Loc(e, UCOW_VPN)].frame;
      SetHandler(s, e, Some(h.(stage := Unmap)))
        .(maps := s.maps[Loc(e, h.v) := Mapping(dst, FAULT_PERM)])
    case CowRefused(e) => SetHandler(s, e, None).(maps := s.maps - {Loc(e, UCOW_VPN)})
    case CowUnmap(e) => SetHandler(s, e, None).(maps := s.maps - {Loc(e, UCOW_VPN)})
    case Exofork(e, c) =>
      SetFork(s.(envs := s.envs[c := Env(false, e, None, None)]), e, Some(ForkState(c, 0, Scan)))
    case DupSkip(e) =>
      var k := s.envs[e].fork.value;
      SetFork(s, e, Some(k.(next := k.next + 1)))
    case DupRead(e) =>
      var k := s.envs[e].fork.value;
      SetFork(s, e, Some(k.(stage := PermRead(s.maps[Next(s, e)].perm))))
    case DupRefused(e) =>
      var k := s.envs[e].fork.value;
      SetFork(s, e, Some(k.(next := k.next + 1, stage := Scan)))
    case DupChild(e) =>
      var k := s.envs[e].fork.value;
      var perm := k.stage.perm;
      var f := s.maps[Next(s, e)].frame;
      if PlainDup(perm)
      then SetFork(s, e, Some(k.(next := k.next + 1, stage := Scan)))
             .(maps := s.maps[Loc(k.child, k.next) := Mapping(f, perm)])
      else SetFork(s, e, Some(k.(stage := ChildMapped)))
             .(maps := s.maps[Loc(k.child, k.next) := Mapping(f, DUP_PERM)])
    case DupParent(e) =>
      var k := s.envs[e].fork.value;
      SetFork(s, e, Some(k.(next := k.next + 1, stage := Scan)))
        .(maps := s.maps[Next(s, e) := Mapping(s.maps[Next(s, e)].frame, DUP_PERM)])
    case ForkDone(e) =>
      var k := s.envs[e].fork.value;
      var s1 := SetFork(s, e, None);
      s1.(envs := s1.envs[k.child := s1.envs[k.child].(running := true)])
    case UserAlloc(e, v, f, perm) =>
      s.(maps := s.maps[Loc(e, v) := Mapping(f, perm)], mem := s.mem[f := ZeroPage()])
    case UserUnmap(e, v) => s.(maps := s.maps - {Loc(e, v)})
    case Exit(e) => s.(envs := s.envs - {e}, maps := map l | l in s.maps && l.e != e :: s.maps[l])
  }

  function ZeroPage(): (p: Page)
    ensures |p| == PAGE_SIZE
  {
    seq(PAGE_SIZE, _ => 0)
  }

  // ---- the eager machine: no frames, no permissions ----

  /** What a page holds: bytes of its own, or a shared object that several pages name. */
  datatype Content = Own(page: Page) | Shared(id: nat)

  datatype Eager = Eager(pages: map<Loc, Content>, objects: map<nat, Page>)

  function Read(a: Eager, l: Loc): Page {
    if l !in a.pages then []
    else match a.pages[l]
      case Own(p) => p
      case Shared(id) => if id in a.objects then a.objects[id] else []
  }

  function EagerStore(a: Eager, l: Loc, i: nat, b: int): Eager {
    if l !in a.pages then a
    else match a.pages[l]
      case Own(p) => if i < |p| then a.(pages := a.pages[l := Own(p[i := b])]) else a
      case Shared(id) =>
        if id in a.objects && i < |a.objects[id]|
        then a.(objects := a.objects[id := a.objects[id][i := b]]) else a
  }

  /** fork copies one page: its bytes if it is private, its identity if it is shared. */
  function EagerCopy(a: Eager, from: Loc, to: Loc): Eager {
    if from in a.pages then a.(pages := a.pages[to := a.pages[from]]) else a
  }

  /** A new page: zeros of its own, or a new shared object of zeros. */
  function EagerAlloc(a: Eager, l: Loc, id: nat, shared: bool): Eager {
    if shared then a.(pages := a.pages[l := Shared(id)], objects := a.objects[id := ZeroPage()])
    else a.(pages := a.pages[l := Own(ZeroPage())])
  }

  /**
   What each concrete step means eagerly. Besides allocation, unmapping and exit, only stores and
   the call that completes a page's duplication mean anything; the whole fault handler is
   invisible.
   */
  function Meaning(s: Cow, a: Eager, st: Step): Eager {
    match st
    case Store(e, v, i, b) => EagerStore(a, Loc(e, v), i, b)
    case DupChild(e) =>
      if e in s.envs && s.envs[e].fork.Some? && s.envs[e].fork.value.stage.PermRead? &&
         PlainDup(s.envs[e].fork.value.stage.perm)
      then EagerCopy(a, Next(s, e), Loc(s.envs[e].fork.value.child, s.envs[e].fork.value.next))
      else a
    case DupParent(e) =>
      if e in s.envs && s.envs[e].fork.Some?
      then EagerCopy(a, Next(s, e), Loc(s.envs[e].fork.value.child, s.envs[e].fork.value.next))
      else a
    case UserAlloc(e, v, f, perm) => EagerAlloc(a, Loc(e, v), f, perm.lib)
    case UserUnmap(e, v) => a.(pages := a.pages - {Loc(e, v)})
    case Exit(e) => a.(pages := map l | l in a.pages && l.e != e :: a.pages[l])
    case _ => a
  }

  // ---- invariant and refinement relation ----

  /** The child's copy of a page between the two mapping calls of duppage in its parent. */
  predicate Pending(s: Cow, l: Loc) {
    && l.e in s.envs && s.envs[l.e].parent in s.envs
    && var k := s.envs[s.envs[l.e].parent].fork;
       k.Some? && k.value.stage.ChildMapped? && l == Loc(k.value.child, k.value.next)
  }

  /** The page being replaced and the staging page of a handler about to finish. */
  predicate StagingPair(s: Cow, l: Loc, l': Loc) {
    && l.e == l'.e && l.e in s.envs && s.envs[l.e].handler.Some?
    && s.envs[l.e].handler.value.stage == Unmap
    && ((l.v == UCOW_VPN && l'.v == s.envs[l.e].handler.value.v) ||
        (l'.v == UCOW_VPN && l.v == s.envs[l.e].handler.value.v))
  }

  /** A frame writable through a private page is reachable through no other page. */
  ghost predicate Isolated(s: Cow) {
    forall l, l' | l in s.maps && l' in s.maps && l != l' && s.maps[l].frame == s.maps[l'].frame &&
                   D(s.maps[l]) && !Lib(s.maps[l]) ::
      (Pending(s, l') && l == Loc(s.envs[l'.e].parent, l'.v)) || StagingPair(s, l, l')
  }

  /** Shared pages are shared by all their mappings and never copy-on-write. */
  ghost predicate LibOk(s: Cow) {
    && (forall l, l' | l in s.maps && l' in s.maps && s.maps[l].frame == s.maps[l'].frame ::
          Lib(s.maps[l]) ==> Lib(s.maps[l']))
    && (forall l :: l in s.maps && Lib(s.maps[l]) ==> !IsCow(s.maps[l]))
  }

  ghost predicate StagingOk(s: Cow) {
    forall e :: Loc(e, UCOW_VPN) in s.maps ==>
      && e in s.envs && s.envs[e].handler.Some?
      && D(s.maps[Loc(e, UCOW_VPN)]) && !Lib(s.maps[Loc(e, UCOW_VPN)])
  }

  ghost predicate HandlerOk(s: Cow, e: nat)
    requires Sane(s)
  {
    e in s.envs && s.envs[e].handler.Some? ==>
      var h := s.envs[e].handler.value;
      var m := s.maps[Loc(e, h.v)];
      && s.envs[e].running && h.v != UCOW_VPN && !Lib(m)
      && (h.stage == Unmap ==> D(m) && m.frame == s.maps[Loc(e, UCOW_VPN)].frame)
      && (h.stage != Unmap ==> !D(m) && IsCow(m))
      && (h.stage.Copy? ==>
            var u := s.maps[Loc(e, UCOW_VPN)];
            && h.stage.done <= PAGE_SIZE && u.frame != m.frame
            && s.mem[u.frame][..h.stage.done] == s.mem[m.frame][..h.stage.done])
  }

  /** The child has the legal ones of the pages that the loop has passed, and no others. */
  ghost predicate ChildPages(s: Cow, e: nat, k: ForkState) {
    && (forall v: nat :: v < k.next && v != UCOW_VPN && Legal(v) ==>
          (Loc(k.child, v) in s.maps <==> Loc(e, v) in s.maps))
    && (forall v: nat :: Loc(k.child, v) in s.maps ==>
          Legal(v) && (v < k.next || (v == k.next && k.stage.ChildMapped?)))
  }

  ghost predicate ForkOk(s: Cow, e: nat) {
    e in s.envs && s.envs[e].fork.Some? ==>
      var k := s.envs[e].fork.value;
      && s.envs[e].running && k.child != e && k.child in s.envs
      && s.envs[k.child] == Env(false, e, None, None)
      && k.next <= LAST_VPN
      && ChildPages(s, e, k) && (k.stage.ChildMapped? ==> Legal(k.next))
      && (k.stage != Scan ==>
            && k.next < LAST_VPN && k.next != UCOW_VPN && Next(s, e) in s.maps
            && (s.envs[e].handler.Some? ==> s.envs[e].handler.value.v != k.next))
      && (k.stage.PermRead? ==> s.maps[Next(s, e)].perm == k.stage.perm)
      && (k.stage.ChildMapped? ==>
            && Loc(k.child, k.next) in s.maps
            && D(s.maps[Next(s, e)]) && !Lib(s.maps[Next(s, e)])
            && s.maps[Loc(k.child, k.next)] == Mapping(s.maps[Next(s, e)].frame, DUP_PERM))
  }

  ghost predicate Inv(s: Cow) {
    && Sane(s) && Isolated(s) && LibOk(s) && StagingOk(s)
    && (forall l :: l in s.maps ==> l.e in s.envs)
    && (forall e :: HandlerOk(s, e)) && (forall e :: ForkOk(s, e))
  }

  /** Every page reads alike in both machines, except staging pages and half-made copies. */
  ghost predicate PageAgrees(s: Cow, a: Eager, l: Loc)
    requires Sane(s) && l in s.maps
  {
    && l in a.pages
    && (if Lib(s.maps[l]) then a.pages[l] == Shared(s.maps[l].frame)
        else a.pages[l] == Own(s.mem[s.maps[l].frame]))
    && (Lib(s.maps[l]) ==> s.maps[l].frame in a.objects && a.objects[s.maps[l].frame] == s.mem[s.maps[l].frame])
  }

  ghost predicate Agree(s: Cow, a: Eager)
    requires Sane(s)
  {
    forall l :: l in s.maps && l.v != UCOW_VPN && !Pending(s, l) ==> PageAgrees(s, a, l)
  }

  // ---- every step keeps both ----

  ghost predicate Stepped(s: Cow, s': Cow, st: Step) {
    Inv(s) && Enabled(s, st) && s' == Apply(s, st)
  }

  lemma PendingChild(s: Cow, l: Loc)
    requires Inv(s) && Pending(s, l)
    ensures !s.envs[l.e].running && s.envs[l.e].handler.None? && s.envs[l.e].fork.None?
    ensures Loc(s.envs[l.e].parent, l.v) in s.maps && l in s.maps && l.v != UCOW_VPN
    ensures s.envs[l.e].parent != l.e
  {
    hide ChildPages;
    assert ForkOk(s, s.envs[l.e].parent);
  }

  // Store

  /** A store through a private page can be seen through no page of a running env. */
  lemma StoreSeen(s: Cow, l0: Loc, l: Loc)
    requires Inv(s) && l0 in s.maps && l in s.maps && D(s.maps[l0]) && Active(s, l0.e)
    requires l != l0 && s.maps[l].frame == s.maps[l0].frame
    ensures (Lib(s.maps[l0]) && Lib(s.maps[l])) || (Pending(s, l) && !s.envs[l.e].running)
  {
    if !Lib(s.maps[l0]) {
      assert Pending(s, l);
      PendingChild(s, l);
    }
  }

  lemma StoreAgrees(s: Cow, s': Cow, a: Eager, st: Step)
    requires Stepped(s, s', st) && st.Store? && Agree(s, a) && Sane(s')
    ensures Agree(s', Meaning(s, a, st))
  {
    hide ChildPages;
    var l0 := Loc(st.e, st.v);
    if Pending(s, l0) { PendingChild(s, l0); }
    assert PageAgrees(s, a, l0);
    forall l | l in s'.maps && l.v != UCOW_VPN && !Pending(s', l)
      ensures PageAgrees(s', Meaning(s, a, st), l)
    {
      assert PageAgrees(s, a, l);
      if l != l0 && s.maps[l].frame == s.maps[l0].frame { StoreSeen(s, l0, l); }
    }
  }

  lemma StoreHandler(s: Cow, s': Cow, st: Step, e: nat)
    requires Stepped(s, s', st) && st.Store? && Sane(s')
    ensures HandlerOk(s', e)
  {
    hide ChildPages;
    hide Isolated;
    hide LibOk;
    hide StagingOk;
    hide ForkOk;
    var l0 := Loc(st.e, st.v);
    assert HandlerOk(s, e);
    if e in s.envs && s.envs[e].handler.Some? {
      var l := Loc(e, s.envs[e].handler.value.v);
      if s.maps[l].frame == s.maps[l0].frame { StoreSeen(s, l0, l); }
      var u := Loc(e, UCOW_VPN);
      if u in s.maps && s.maps[u].frame == s.maps[l0].frame { StagingPrivate(s, e); StoreSeen(s, l0, u); }
    }
  }

  lemma StagingPrivate(s: Cow, e: nat)
    requires Inv(s) && Loc(e, UCOW_VPN) in s.maps
    ensures e in s.envs && s.envs[e].running && s.envs[e].handler.Some? && !Lib(s.maps[Loc(e, UCOW_VPN)])
    ensures D(s.maps[Loc(e, UCOW_VPN)])
  {
    assert HandlerOk(s, e);
  }

  predicate CowStep(st: Step) { st.Fault? || st.CowAlloc? || st.CowCopy? || st.CowMap? || CowEnds(st) }

  /** The handler unmaps its staging page, having remapped the faulting page or been refused. */
  predicate CowEnds(st: Step) { st.CowUnmap? || st.CowRefused? }

  predicate ScanStep(st: Step) { st.Exofork? || st.DupSkip? || st.DupRead? || st.DupRefused? || st.ForkDone? }

  predicate DupStep(st: Step) { st.DupChild? || st.DupParent? }

  predicate UserStep(st: Step) { st.UserAlloc? || st.UserUnmap? || st.Exit? }

  /** While the handler copies, its staging frame is mapped nowhere else. */
  lemma StagingAlone(s: Cow, e: nat, l: Loc)
    requires Inv(s) && InHandler(s, e) && s.envs[e].handler.value.stage.Copy?
    requires Loc(e, UCOW_VPN) in s.maps && l in s.maps && l != Loc(e, UCOW_VPN)
    ensures s.maps[l].frame != s.maps[Loc(e, UCOW_VPN)].frame
  {
    StagingPrivate(s, e);
    if Pending(s, l) { PendingChild(s, l); }
  }

  lemma CopyHandler(s: Cow, s': Cow, st: Step, e: nat)
    requires Stepped(s, s', st) && st.CowCopy? && Sane(s')
    ensures HandlerOk(s', e)
  {
    hide ChildPages;
    hide Isolated;
    hide LibOk;
    hide StagingOk;
    hide ForkOk;
    assert HandlerOk(s, e);
    assert HandlerOk(s, st.e);
    var dst := s.maps[Loc(st.e, UCOW_VPN)].frame;
    if e in s.envs && s.envs[e].handler.Some? {
      var v := s.envs[e].handler.value.v;
      StagingAlone(s, st.e, Loc(e, v));
      if e != st.e && Loc(e, UCOW_VPN) in s.maps { StagingAlone(s, st.e, Loc(e, UCOW_VPN)); }
      if e == st.e {
        var n := s.envs[e].handler.value.stage.done;
        assert s'.mem[dst][..n + 1] == s.mem[dst][..n] + [s.mem[s.maps[Loc(e, v)].frame][n]];
      }
    }
  }

  lemma CowHandler(s: Cow, s': Cow, st: Step, e: nat)
    requires Stepped(s, s', st) && CowStep(st) && !st.CowCopy? && Sane(s')
    ensures HandlerOk(s', e)
  {
    hide ChildPages;
    hide Isolated;
    hide ForkOk;
    hide Pending;
    assert HandlerOk(s, e);
    assert HandlerOk(s, st.e);
  }

  lemma ScanHandler(s: Cow, s': Cow, st: Step, e: nat)
    requires Stepped(s, s', st) && ScanStep(st) && Sane(s')
    ensures HandlerOk(s', e)
  {
    hide ChildPages;
    hide Isolated;
    hide LibOk;
    hide StagingOk;
    assert HandlerOk(s, e);
    assert ForkOk(s, st.e);
  }

  lemma DupHandler(s: Cow, s': Cow, st: Step, e: nat)
    requires Stepped(s, s', st) && DupStep(st) && Sane(s')
    ensures HandlerOk(s', e)
  {
    hide ChildPages;
    hide Isolated;
    hide LibOk;
    hide StagingOk;
    assert HandlerOk(s, e);
    assert ForkOk(s, st.e);
  }

  lemma StoreFork(s: Cow, s': Cow, st: Step, e: nat)
    requires Stepped(s, s', st) && (st.Store? || st.CowCopy? || st.Fault?)
    ensures ForkOk(s', e)
  {
    hide Isolated;
    hide LibOk;
    hide StagingOk;
    assert ForkOk(s, e);
    assert HandlerOk(s, e);
  }

  lemma CowFork(s: Cow, s': Cow, st: Step, e: nat)
    requires Stepped(s, s', st) && (st.CowAlloc? || st.CowMap? || CowEnds(st))
    ensures ForkOk(s', e)
  {
    hide Stepped, ForkOk;
    if st.CowMap? { CowMapFork(s, s', st, e); } else { StagingFork(s, s', st, e); }
  }

  lemma CowMapFork(s: Cow, s': Cow, st: Step, e: nat)
    requires Stepped(s, s', st) && st.CowMap?
    ensures ForkOk(s', e)
  {
    hide Isolated, LibOk, StagingOk;
    assert ForkOk(s, e);
    assert HandlerOk(s, st.e);
  }

  lemma StagingFork(s: Cow, s': Cow, st: Step, e: nat)
    requires Stepped(s, s', st) && (st.CowAlloc? || CowEnds(st))
    ensures ForkOk(s', e)
  {
    hide Stepped, ForkOk;
    if st.CowAlloc? { CowAllocFork(s, s', st, e); } else { CowEndFork(s, s', st, e); }
  }

  lemma CowAllocFork(s: Cow, s': Cow, st: Step, e: nat)
    requires Stepped(s, s', st) && st.CowAlloc?
    ensures ForkOk(s', e)
  {
    hide Isolated, LibOk, StagingOk;
    assert ForkOk(s, e);
    assert HandlerOk(s, st.e);
  }

  lemma CowEndFork(s: Cow, s': Cow, st: Step, e: nat)
    requires Stepped(s, s', st) && CowEnds(st)
    ensures ForkOk(s', e)
  {
    hide Isolated, LibOk, StagingOk;
    assert ForkOk(s, e);
    assert HandlerOk(s, st.e);
  }

  lemma ScanFork(s: Cow, s': Cow, st: Step, e: nat)
    requires Stepped(s, s', st) && ScanStep(st)
    ensures ForkOk(s', e)
  {
    hide Stepped, ForkOk;
    if st.Exofork? || st.ForkDone? { EndsFork(s, s', st, e); } else { LoopFork(s, s', st, e); }
  }

  /** The loop moves on, or has read a permission. */
  lemma LoopFork(s: Cow, s': Cow, st: Step, e: nat)
    requires Stepped(s, s', st) && (st.DupSkip? || st.DupRead? || st.DupRefused?)
    ensures ForkOk(s', e)
  {
    hide Stepped, ForkOk;
    if st.DupRead? { ReadFork(s, s', st, e); } else { PassFork(s, s', st, e); }
  }

  lemma ReadFork(s: Cow, s': Cow, st: Step, e: nat)
    requires Stepped(s, s', st) && st.DupRead?
    ensures ForkOk(s', e)
  {
    hide Isolated, LibOk;
    assert ForkOk(s, e);
    assert ForkOk(s, st.e);
  }

  lemma PassFork(s: Cow, s': Cow, st: Step, e: nat)
    requires Stepped(s, s', st) && (st.DupSkip? || st.DupRefused?)
    ensures ForkOk(s', e)
  {
    hide Isolated, LibOk;
    assert ForkOk(s, e);
    assert ForkOk(s, st.e);
  }

  lemma EndsFork(s: Cow, s': Cow, st: Step, e: nat)
    requires Stepped(s, s', st) && (st.Exofork? || st.ForkDone?)
    ensures ForkOk(s', e)
  {
    hide Isolated, LibOk;
    assert ForkOk(s, e);
    assert ForkOk(s, st.e);
  }

  lemma DupFork(s: Cow, s': Cow, st: Step, e: nat)
    requires Stepped(s, s', st) && DupStep(st)
    ensures ForkOk(s', e)
  {
    hide Stepped, ForkOk;
    if st.DupChild? { DupChildFork(s, s', st, e); } else { DupParentFork(s, s', st, e); }
  }

  lemma DupChildFork(s: Cow, s': Cow, st: Step, e: nat)
    requires Stepped(s, s', st) && st.DupChild?
    ensures ForkOk(s', e)
  {
    hide Isolated, LibOk, StagingOk;
    assert ForkOk(s, e);
    assert ForkOk(s, st.e);
  }

  lemma DupParentFork(s: Cow, s': Cow, st: Step, e: nat)
    requires Stepped(s, s', st) && st.DupParent?
    ensures ForkOk(s', e)
  {
    hide Isolated, LibOk, StagingOk;
    assert ForkOk(s, e);
    assert ForkOk(s, st.e);
  }

  lemma UserHandler(s: Cow, s': Cow, st: Step, e: nat)
    requires Stepped(s, s', st) && UserStep(st) && Sane(s')
    ensures HandlerOk(s', e)
  {
    hide ChildPages;
    hide Isolated, LibOk, StagingOk, ForkOk;
    assert HandlerOk(s, e);
  }

  lemma UserFork(s: Cow, s': Cow, st: Step, e: nat)
    requires Stepped(s, s', st) && UserStep(st)
    ensures ForkOk(s', e)
  {
    hide Stepped, ForkOk;
    if st.Exit? { ExitFork(s, s', st, e); } else { MapFork(s, s', st, e); }
  }

  lemma ExitFork(s: Cow, s': Cow, st: Step, e: nat)
    requires Stepped(s, s', st) && st.Exit?
    ensures ForkOk(s', e)
  {
    hide Isolated, LibOk, StagingOk, HandlerOk;
    assert ForkOk(s, e);
  }

  lemma MapFork(s: Cow, s': Cow, st: Step, e: nat)
    requires Stepped(s, s', st) && (st.UserAlloc? || st.UserUnmap?)
    ensures ForkOk(s', e)
  {
    hide Stepped, ForkOk;
    if st.UserAlloc? { UserAllocFork(s, s', st, e); } else { UserUnmapFork(s, s', st, e); }
  }

  lemma UserAllocFork(s: Cow, s': Cow, st: Step, e: nat)
    requires Stepped(s, s', st) && st.UserAlloc?
    ensures ForkOk(s', e)
  {
    hide Isolated, LibOk, StagingOk, HandlerOk;
    assert ForkOk(s, e);
  }

  lemma UserUnmapFork(s: Cow, s': Cow, st: Step, e: nat)
    requires Stepped(s, s', st) && st.UserUnmap?
    ensures ForkOk(s', e)
  {
    hide Isolated, LibOk, StagingOk, HandlerOk;
    assert ForkOk(s, e);
  }

  // Sane, StagingOk, LibOk

  ghost predicate LocOk(s: Cow, l: Loc) {
    l in s.maps ==>
      && l.e in s.envs && s.maps[l].frame in s.mem && |s.mem[s.maps[l].frame]| == PAGE_SIZE
      && !(Lib(s.maps[l]) && IsCow(s.maps[l]))
  }

  ghost predicate LibPairOk(s: Cow, l: Loc, l': Loc) {
    l in s.maps && l' in s.maps && s.maps[l].frame == s.maps[l'].frame && Lib(s.maps[l]) ==> Lib(s.maps[l'])
  }

  ghost predicate EnvOk(s: Cow, e: nat) {
    && (e in s.envs && s.envs[e].handler.Some? ==>
          && Loc(e, s.envs[e].handler.value.v) in s.maps
          && (Loc(e, UCOW_VPN) in s.maps <==> s.envs[e].handler.value.stage != Alloc))
    && (Loc(e, UCOW_VPN) in s.maps ==>
          && e in s.envs && s.envs[e].handler.Some?
          && D(s.maps[Loc(e, UCOW_VPN)]) && !Lib(s.maps[Loc(e, UCOW_VPN)]))
  }

  lemma BasicFrom(s: Cow)
    requires forall l :: LocOk(s, l)
    requires forall l, l' :: LibPairOk(s, l, l')
    requires forall e :: EnvOk(s, e)
    ensures Sane(s) && LibOk(s) && StagingOk(s) && forall l :: l in s.maps ==> l.e in s.envs
  {
    assert forall l :: l in s.maps ==> LocOk(s, l);
    assert forall e :: e in s.envs ==> EnvOk(s, e);
    assert forall e :: Loc(e, UCOW_VPN) in s.maps ==> EnvOk(s, e);
    assert forall l, l' :: l in s.maps && l' in s.maps ==> LibPairOk(s, l, l');
  }

  lemma StepLoc(s: Cow, s': Cow, st: Step, l: Loc)
    requires Stepped(s, s', st)
    ensures LocOk(s', l)
  {
    hide Stepped, LocOk;
    if CowStep(st) || st.Store? {
      CowLoc(s, s', st, l);
    } else if UserStep(st) {
      UserLoc(s, s', st, l);
    } else {
      ForkLoc(s, s', st, l);
    }
  }

  lemma CowLoc(s: Cow, s': Cow, st: Step, l: Loc)
    requires Stepped(s, s', st) && (CowStep(st) || st.Store?)
    ensures LocOk(s', l)
  {
    hide Isolated, Pending, ForkOk;
    if st.CowMap? { StagingPrivate(s, st.e); }
    assert LocOk(s, l);
  }

  lemma UserLoc(s: Cow, s': Cow, st: Step, l: Loc)
    requires Stepped(s, s', st) && UserStep(st)
    ensures LocOk(s', l)
  {
    hide Isolated, Pending, ForkOk, HandlerOk;
    assert LocOk(s, l);
  }

  lemma ForkLoc(s: Cow, s': Cow, st: Step, l: Loc)
    requires Stepped(s, s', st) && (DupStep(st) || ScanStep(st))
    ensures LocOk(s', l)
  {
    hide Isolated, Pending, HandlerOk, ChildPages;
    if st.DupChild? || st.DupParent? || st.ForkDone? { assert ForkOk(s, st.e); }
    assert LocOk(s, l);
  }

  lemma StepLibPair(s: Cow, s': Cow, st: Step, l: Loc, l': Loc)
    requires Stepped(s, s', st)
    ensures LibPairOk(s', l, l')
  {
    hide Stepped, LibPairOk;
    if DupStep(st) {
      DupLibPair(s, s', st, l, l');
    } else if st.CowMap? {
      RemapLibPair(s, s', st, l, l');
    } else {
      OtherLibPair(s, s', st, l, l');
    }
  }

  lemma DupLibPair(s: Cow, s': Cow, st: Step, l: Loc, l': Loc)
    requires Stepped(s, s', st) && DupStep(st)
    ensures LibPairOk(s', l, l')
  {
    hide ChildPages, Isolated, Pending;
    assert LibPairOk(s, l, l') && ForkOk(s, st.e);
    assert LibPairOk(s, l, Next(s, st.e)) && LibPairOk(s, Next(s, st.e), l');
  }

  lemma RemapLibPair(s: Cow, s': Cow, st: Step, l: Loc, l': Loc)
    requires Stepped(s, s', st) && st.CowMap?
    ensures LibPairOk(s', l, l')
  {
    hide ForkOk, Isolated, Pending;
    assert LibPairOk(s, l, l');
    StagingPrivate(s, st.e);
    assert LibPairOk(s, l, Loc(st.e, UCOW_VPN));
  }

  lemma OtherLibPair(s: Cow, s': Cow, st: Step, l: Loc, l': Loc)
    requires Stepped(s, s', st) && !DupStep(st) && !st.CowMap?
    ensures LibPairOk(s', l, l')
  {
    hide ForkOk, Isolated, Pending;
    assert LibPairOk(s, l, l');
  }

  lemma StepEnv(s: Cow, s': Cow, st: Step, e: nat)
    requires Stepped(s, s', st)
    ensures EnvOk(s', e)
  {
    hide Stepped, EnvOk;
    if DupStep(st) || ScanStep(st) { ForkEnv(s, s', st, e); } else { OtherEnv(s, s', st, e); }
  }

  lemma ForkEnv(s: Cow, s': Cow, st: Step, e: nat)
    requires Stepped(s, s', st) && (DupStep(st) || ScanStep(st))
    ensures EnvOk(s', e)
  {
    hide ChildPages;
    hide Isolated, Pending, LibOk, HandlerOk;
    assert EnvOk(s, e);
    assert ForkOk(s, st.e);
  }

  lemma OtherEnv(s: Cow, s': Cow, st: Step, e: nat)
    requires Stepped(s, s', st) && !DupStep(st) && !ScanStep(st)
    ensures EnvOk(s', e)
  {
    hide ChildPages;
    hide Isolated, Pending, LibOk, ForkOk;
    assert EnvOk(s, e);
    if CowEnds(st) || st.CowMap? { assert HandlerOk(s, st.e); }
  }

  // Isolated

  ghost predicate PairOk(s: Cow, l: Loc, l': Loc) {
    l in s.maps && l' in s.maps && l != l' && s.maps[l].frame == s.maps[l'].frame &&
    D(s.maps[l]) && !Lib(s.maps[l]) ==>
      (Pending(s, l') && l == Loc(s.envs[l'.e].parent, l'.v)) || StagingPair(s, l, l')
  }

  lemma CowPair(s: Cow, s': Cow, st: Step, l: Loc, l': Loc)
    requires Stepped(s, s', st) && (CowStep(st) || st.Store?)
    ensures PairOk(s', l, l')
  {
    hide ChildPages;
    hide ForkOk;
    hide LibOk;
    assert PairOk(s, l, l');
    if !st.Store? {
      assert HandlerOk(s, st.e);
      if st.CowMap? {
        StagingPrivate(s, st.e);
        if l in s.maps && l != Loc(st.e, UCOW_VPN) { StagingAlone(s, st.e, l); }
        if l' in s.maps && l' != Loc(st.e, UCOW_VPN) { StagingAlone(s, st.e, l'); }
      }
    }
  }

  lemma ScanPair(s: Cow, s': Cow, st: Step, l: Loc, l': Loc)
    requires Stepped(s, s', st) && ScanStep(st)
    ensures PairOk(s', l, l')
  {
    hide ChildPages;
    hide LibOk;
    hide StagingOk;
    assert ForkOk(s, st.e);
    assert PairOk(s, l, l');
  }

  lemma DupPair(s: Cow, s': Cow, st: Step, l: Loc, l': Loc)
    requires Stepped(s, s', st) && DupStep(st)
    ensures PairOk(s', l, l')
  {
    hide ChildPages;
    hide StagingOk;
    assert ForkOk(s, st.e);
    assert PairOk(s, l, l') && PairOk(s, l, Next(s, st.e));
    if Pending(s, Next(s, st.e)) { PendingChild(s, Next(s, st.e)); }
  }

  lemma UserPair(s: Cow, s': Cow, st: Step, l: Loc, l': Loc)
    requires Stepped(s, s', st) && UserStep(st)
    ensures PairOk(s', l, l')
  {
    hide ChildPages;
    hide LibOk, StagingOk, HandlerOk;
    assert PairOk(s, l, l');
    if l' in s.maps && Pending(s, l') { assert ForkOk(s, s.envs[l'.e].parent); }
  }

  // Agree

  ghost predicate AgreesAt(s: Cow, a: Eager, l: Loc)
    requires Sane(s)
  {
    l in s.maps && l.v != UCOW_VPN && !Pending(s, l) ==> PageAgrees(s, a, l)
  }

  /** The fault handler is invisible: it replaces a page by an equal one. */
  lemma CowAgrees(s: Cow, s': Cow, a: Eager, st: Step, l: Loc)
    requires Stepped(s, s', st) && CowStep(st) && Agree(s, a) && Sane(s')
    ensures AgreesAt(s', a, l)
  {
    hide Stepped, Agree, AgreesAt, Sane;
    if st.CowCopy? {
      CopyAgrees(s, s', a, st, l);
    } else if st.CowMap? {
      RemapAgrees(s, s', a, st, l);
    } else {
      StagingAgrees(s, s', a, st, l);
    }
  }

  lemma CopyAgrees(s: Cow, s': Cow, a: Eager, st: Step, l: Loc)
    requires Stepped(s, s', st) && st.CowCopy? && Agree(s, a) && Sane(s')
    ensures AgreesAt(s', a, l)
  {
    hide ChildPages;
    hide Isolated, LibOk, StagingOk, ForkOk;
    assert AgreesAt(s, a, l);
    assert HandlerOk(s, st.e);
    if l in s.maps && l.v != UCOW_VPN { StagingAlone(s, st.e, l); }
  }

  lemma RemapAgrees(s: Cow, s': Cow, a: Eager, st: Step, l: Loc)
    requires Stepped(s, s', st) && st.CowMap? && Agree(s, a) && Sane(s')
    ensures AgreesAt(s', a, l)
  {
    hide ChildPages;
    hide Isolated, LibOk, StagingOk, ForkOk;
    assert AgreesAt(s, a, l);
    assert HandlerOk(s, st.e);
    if l == Loc(st.e, s.envs[st.e].handler.value.v) {
      var dst, src := s.maps[Loc(st.e, UCOW_VPN)].frame, s.maps[l].frame;
      assert s.mem[dst] == s.mem[dst][..PAGE_SIZE] == s.mem[src][..PAGE_SIZE] == s.mem[src];
      if Pending(s, l) { PendingChild(s, l); }
    }
  }

  lemma StagingAgrees(s: Cow, s': Cow, a: Eager, st: Step, l: Loc)
    requires Stepped(s, s', st) && (st.Fault? || st.CowAlloc? || CowEnds(st)) && Agree(s, a) && Sane(s')
    ensures AgreesAt(s', a, l)
  {
    hide ChildPages;
    hide Isolated, LibOk, StagingOk, ForkOk;
    assert AgreesAt(s, a, l);
    assert HandlerOk(s, st.e);
  }

  lemma ScanAgrees(s: Cow, s': Cow, a: Eager, st: Step, l: Loc)
    requires Stepped(s, s', st) && ScanStep(st) && Agree(s, a) && Sane(s')
    ensures AgreesAt(s', a, l)
  {
    if l in s'.maps { ScanMoves(s, s', st, l); }
    hide Stepped, Inv, Apply, Sane, Pending;
    assert AgreesAt(s, a, l);
  }

  /** Scanning changes no page, and no page becomes or stops being half-made. */
  lemma ScanMoves(s: Cow, s': Cow, st: Step, l: Loc)
    requires Stepped(s, s', st) && ScanStep(st) && l in s'.maps
    ensures s'.maps == s.maps && s'.mem == s.mem && (Pending(s', l) <==> Pending(s, l))
  {
    hide ChildPages, Isolated, LibOk, StagingOk, HandlerOk;
    assert ForkOk(s, st.e);
    if Pending(s, l) { PendingChild(s, l); assert ForkOk(s, s.envs[l.e].parent); }
  }

  lemma DupAgrees(s: Cow, s': Cow, a: Eager, st: Step, l: Loc)
    requires Stepped(s, s', st) && DupStep(st) && Agree(s, a) && Sane(s')
    ensures AgreesAt(s', Meaning(s, a, st), l)
  {
    hide ChildPages;
    hide Isolated;
    hide LibOk;
    hide StagingOk;
    hide HandlerOk;
    assert ForkOk(s, st.e);
    assert AgreesAt(s, a, l) && AgreesAt(s, a, Next(s, st.e));
    if Pending(s, Next(s, st.e)) { PendingChild(s, Next(s, st.e)); }
    if Pending(s, l) { PendingChild(s, l); assert ForkOk(s, s.envs[l.e].parent); }
  }

  lemma UserAgrees(s: Cow, s': Cow, a: Eager, st: Step, l: Loc)
    requires Stepped(s, s', st) && UserStep(st) && Agree(s, a) && Sane(s')
    ensures AgreesAt(s', Meaning(s, a, st), l)
  {
    hide Stepped, Agree, AgreesAt, Sane;
    if st.UserAlloc? { UserAllocAgrees(s, s', a, st, l); } else { UserGoneAgrees(s, s', a, st, l); }
  }

  lemma UserAllocAgrees(s: Cow, s': Cow, a: Eager, st: Step, l: Loc)
    requires Stepped(s, s', st) && st.UserAlloc? && Agree(s, a) && Sane(s')
    ensures AgreesAt(s', Meaning(s, a, st), l)
  {
    UserMoves(s, s', st, l);
    hide ForkOk, HandlerOk, Isolated, LibOk, StagingOk, Pending;
    assert AgreesAt(s, a, l);
  }

  lemma UserGoneAgrees(s: Cow, s': Cow, a: Eager, st: Step, l: Loc)
    requires Stepped(s, s', st) && (st.UserUnmap? || st.Exit?) && Agree(s, a) && Sane(s')
    ensures AgreesAt(s', Meaning(s, a, st), l)
  {
    UserMoves(s, s', st, l);
    hide ForkOk, HandlerOk, Isolated, LibOk, StagingOk, Pending;
    assert AgreesAt(s, a, l);
  }

  lemma UserMoves(s: Cow, s': Cow, st: Step, l: Loc)
    requires Stepped(s, s', st) && UserStep(st)
    ensures l in s'.maps && l in s.maps ==> (Pending(s', l) <==> Pending(s, l))
  {
    hide ChildPages, Isolated, LibOk, StagingOk, HandlerOk;
    if Pending(s, l) { PendingChild(s, l); assert ForkOk(s, s.envs[l.e].parent); }
  }

  /** Refinement, one step: the invariant and the agreement with the eager machine survive. */
  lemma StepRefines(s: Cow, s': Cow, a: Eager, st: Step)
    requires Stepped(s, s', st) && Agree(s, a)
    ensures Inv(s') && Agree(s', Meaning(s, a, st))
  {
    hide *;
    BasicStep(s, s', st);
    EnvStep(s, s', st);
    PairStep(s, s', st);
    InvFrom(s');
    AgreeStep(s, s', a, st);
  }

  lemma BasicStep(s: Cow, s': Cow, st: Step)
    requires Stepped(s, s', st)
    ensures Sane(s') && LibOk(s') && StagingOk(s') && forall l :: l in s'.maps ==> l.e in s'.envs
  {
    hide *;
    forall l ensures LocOk(s', l) { StepLoc(s, s', st, l); }
    forall l, l' ensures LibPairOk(s', l, l') { StepLibPair(s, s', st, l, l'); }
    forall e: nat ensures EnvOk(s', e) { StepEnv(s, s', st, e); }
    BasicFrom(s');
  }

  lemma EnvStep(s: Cow, s': Cow, st: Step)
    requires Stepped(s, s', st) && Sane(s')
    ensures forall e :: HandlerOk(s', e) && ForkOk(s', e)
  {
    hide Stepped;
    forall e: nat
      ensures HandlerOk(s', e) && ForkOk(s', e)
    {
      if st.Store? {
        StoreHandler(s, s', st, e);
        StoreFork(s, s', st, e);
      } else if CowStep(st) {
        if st.CowCopy? { CopyHandler(s, s', st, e); } else { CowHandler(s, s', st, e); }
        if st.CowCopy? || st.Fault? { StoreFork(s, s', st, e); } else { CowFork(s, s', st, e); }
      } else if ScanStep(st) {
        ScanHandler(s, s', st, e);
        ScanFork(s, s', st, e);
      } else if UserStep(st) {
        UserHandler(s, s', st, e);
        UserFork(s, s', st, e);
      } else {
        DupHandler(s, s', st, e);
        DupFork(s, s', st, e);
      }
    }
  }

  lemma PairStep(s: Cow, s': Cow, st: Step)
    requires Stepped(s, s', st)
    ensures forall l, l' :: PairOk(s', l, l')
  {
    hide Stepped;
    hide PairOk;
    forall l, l'
      ensures PairOk(s', l, l')
    {
      if st.Store? || CowStep(st) {
        CowPair(s, s', st, l, l');
      } else if ScanStep(st) {
        ScanPair(s, s', st, l, l');
      } else if UserStep(st) {
        UserPair(s, s', st, l, l');
      } else {
        DupPair(s, s', st, l, l');
      }
    }
  }

  lemma InvFrom(s: Cow)
    requires Sane(s) && LibOk(s) && StagingOk(s) && (forall l :: l in s.maps ==> l.e in s.envs)
    requires forall e :: HandlerOk(s, e) && ForkOk(s, e)
    requires forall l, l' :: PairOk(s, l, l')
    ensures Inv(s)
  {
    hide HandlerOk;
    hide ForkOk;
    forall l, l' | l in s.maps && l' in s.maps && l != l' && s.maps[l].frame == s.maps[l'].frame &&
                   D(s.maps[l]) && !Lib(s.maps[l])
      ensures (Pending(s, l') && l == Loc(s.envs[l'.e].parent, l'.v)) || StagingPair(s, l, l')
    {
      assert PairOk(s, l, l');
    }
  }

  lemma AgreeStep(s: Cow, s': Cow, a: Eager, st: Step)
    requires Stepped(s, s', st) && Agree(s, a) && Sane(s')
    ensures Agree(s', Meaning(s, a, st))
  {
    hide Stepped;
    hide Sane;
    if st.Store? {
      StoreAgrees(s, s', a, st);
    } else {
      forall l
        ensures AgreesAt(s', Meaning(s, a, st), l)
      {
        if CowStep(st) {
          CowAgrees(s, s', a, st, l);
        } else if ScanStep(st) {
          ScanAgrees(s, s', a, st, l);
        } else if UserStep(st) {
          UserAgrees(s, s', a, st, l);
        } else {
          DupAgrees(s, s', a, st, l);
        }
      }
      assert forall l :: l in s'.maps ==> AgreesAt(s', Meaning(s, a, st), l);
    }
  }

  // ---- runs ----

  /** No fork or fault under way, private writable frames unshared: the state before any fork. */
  ghost predicate Initial(s: Cow) {
    && Sane(s) && LibOk(s)
    && (forall l :: l in s.maps ==> l.e in s.envs && l.v != UCOW_VPN)
    && (forall e :: e in s.envs ==> s.envs[e].fork.None? && s.envs[e].handler.None?)
    && (forall l, l' | l in s.maps && l' in s.maps && l != l' && s.maps[l].frame == s.maps[l'].frame ::
          !D(s.maps[l]) || Lib(s.maps[l]))
  }

  ghost predicate IsRun(cs: seq<Cow>, es: seq<Eager>, steps: seq<Step>) {
    && |cs| == |es| == |steps| + 1
    && (forall i :: 0 <= i < |steps| ==> Linked(cs[i], cs[i + 1], es[i], es[i + 1], steps[i]))
  }

  ghost predicate Linked(s: Cow, s': Cow, a: Eager, a': Eager, st: Step) {
    Sane(s) && Enabled(s, st) && s' == Apply(s, st) && a' == Meaning(s, a, st)
  }

  /** The eager machine started on the same memory. */
  ghost predicate SameStart(s: Cow, a: Eager) { Sane(s) && Agree(s, a) }

  lemma InitialInv(s: Cow)
    requires Initial(s)
    ensures Inv(s)
  {
  }

  lemma {:induction false} RunRefines(cs: seq<Cow>, es: seq<Eager>, steps: seq<Step>, n: nat)
    requires IsRun(cs, es, steps) && n <= |steps| && Initial(cs[0]) && SameStart(cs[0], es[0])
    ensures Inv(cs[n]) && Agree(cs[n], es[n])
  {
    if n == 0 {
      InitialInv(cs[0]);
    } else {
      RunRefines(cs, es, steps, n - 1);
      assert Linked(cs[n - 1], cs[n], es[n - 1], es[n], steps[n - 1]);
      StepRefines(cs[n - 1], cs[n], es[n - 1], steps[n - 1]);
    }
  }

  /**
   Lazy sharing looks like eager copying: in every state of every run, every page of every
   env that is running reads as it would if fork had copied it byte by byte.
   */
  lemma ForkLooksEager(cs: seq<Cow>, es: seq<Eager>, steps: seq<Step>, n: nat, l: Loc)
    requires IsRun(cs, es, steps) && n <= |steps| && Initial(cs[0]) && SameStart(cs[0], es[0])
    requires l in cs[n].maps && l.v != UCOW_VPN && l.e in cs[n].envs && cs[n].envs[l.e].running
    ensures cs[n].maps[l].frame in cs[n].mem
    ensures Read(es[n], l) == cs[n].mem[cs[n].maps[l].frame]
  {
    RunRefines(cs, es, steps, n);
    if Pending(cs[n], l) { PendingChild(cs[n], l); }
    assert AgreesAt(cs[n], es[n], l);
  }

  /**
   When fork marks the child runnable, the child maps exactly those pages of its parent that lie
   from UTEMP up to USTACKTOP: text, data, heap and stack, but no page below UTEMP.
   */
  lemma ForkIsComplete(s: Cow, e: nat, v: nat)
    requires Inv(s) && Enabled(s, ForkDone(e))
    ensures Loc(s.envs[e].fork.value.child, v) in s.maps <==>
            Loc(e, v) in s.maps && UTEMP <= v * PAGE_SIZE < USTACKTOP
  {
    assert ForkOk(s, e);
    PagesBelow(v);
    hide Isolated, LibOk;
  }

  /** The loop's bound by address. */
  lemma PagesBelow(v: nat)
    ensures v < LAST_VPN <==> v * PAGE_SIZE < USTACKTOP
    ensures v * PAGE_SIZE < USTACKTOP && UTEMP <= v * PAGE_SIZE ==> Legal(v)
  {
  }

  /**
   A fault on a copy-on-write page ends with the page private and writable in its place; below
   UTEMP, where the new mapping is refused, with everything as it was.
   */
  lemma FaultEnds(s: Cow, e: nat, st: Step)
    requires Inv(s) && Enabled(s, st) && (st == CowUnmap(e) || st == CowRefused(e))
    ensures Loc(e, s.envs[e].handler.value.v) in s.maps
    ensures var s', l := Apply(s, st), Loc(e, s.envs[e].handler.value.v);
      && s'.envs[e].handler.None? && Loc(e, UCOW_VPN) !in s'.maps && l in s'.maps && s'.maps[l] == s.maps[l]
      && (st.CowUnmap? ==>
            && D(s'.maps[l]) && !Lib(s'.maps[l]) && Inv(s')
            && forall l' :: l' in s'.maps && l' != l && s'.maps[l'].frame == s'.maps[l].frame ==> Pending(s', l'))
      && (st.CowRefused? ==> !Legal(l.v) && !D(s'.maps[l]) && IsCow(s'.maps[l]))
  {
    assert HandlerOk(s, e);
    var s' := Apply(s, st);
    StepRefines(s, s', SomeEager(s), st);
    hide ForkOk, LibOk;
    var l := Loc(e, s.envs[e].handler.value.v);
    if st.CowUnmap? {
      forall l' | l' in s'.maps && l' != l && s'.maps[l'].frame == s'.maps[l].frame
        ensures Pending(s', l')
      {
        assert PairOk(s', l, l');
      }
    }
  }

  // ---- why duppage must not fault on the page whose permission it has read ----

  /**
   The one-call branch of duppage, with whatever permission was read: it leaves private writable
   frames unshared if and only if the page is not a private writable one at that moment.
   */
  lemma OneCallExact(s: Cow, e: nat)
    requires OneCall(s, e)
    ensures var m := s.maps[Next(s, e)];
      Isolated(Apply(s, DupChild(e))) <==> !(D(m) && !Lib(m))
  {
    hide OneCall;
    OneCallFacts(s, e);
    var m := s.maps[Next(s, e)];
    if D(m) && !Lib(m) { OneCallShares(s, e); } else { OneCallIsolates(s, e); }
  }

  /** duppage is about to make its only call, for a page the child does not have yet. */
  ghost predicate OneCall(s: Cow, e: nat) {
    && Sane(s) && Isolated(s) && CanStep(s, DupChild(e)) && PlainDup(s.envs[e].fork.value.stage.perm)
    && !Pending(s, Next(s, e))
    && var c := s.envs[e].fork.value.child;
       c != e && c in s.envs && s.envs[c].parent == e && Loc(c, s.envs[e].fork.value.next) !in s.maps
  }

  lemma OneCallFacts(s: Cow, e: nat)
    requires OneCall(s, e)
    ensures Sane(s) && CanStep(s, DupChild(e)) && Next(s, e) in s.maps
  {
  }

  lemma OneCallShares(s: Cow, e: nat)
    requires OneCall(s, e) && D(s.maps[Next(s, e)]) && !Lib(s.maps[Next(s, e)])
    ensures !Isolated(Apply(s, DupChild(e)))
  {
    var k := s.envs[e].fork.value;
    var s', m, c := Apply(s, DupChild(e)), s.maps[Next(s, e)], Loc(k.child, k.next);
    assert Next(s, e) in s'.maps && c in s'.maps && s'.maps[Next(s, e)] == m && s'.maps[c].frame == m.frame;
    assert !Pending(s', c) && !StagingPair(s', Next(s, e), c);
  }

  lemma OneCallIsolates(s: Cow, e: nat)
    requires OneCall(s, e) && !(D(s.maps[Next(s, e)]) && !Lib(s.maps[Next(s, e)]))
    ensures Isolated(Apply(s, DupChild(e)))
  {
    var s' := Apply(s, DupChild(e));
    forall l, l' | l in s'.maps && l' in s'.maps && l != l' && s'.maps[l].frame == s'.maps[l'].frame &&
                   D(s'.maps[l]) && !Lib(s'.maps[l])
      ensures (Pending(s', l') && l == Loc(s'.envs[l'.e].parent, l'.v)) || StagingPair(s', l, l')
    {
      OneCallPair(s, e, l, l');
    }
  }

  lemma OneCallPair(s: Cow, e: nat, l: Loc, l': Loc)
    requires OneCall(s, e) && !(D(s.maps[Next(s, e)]) && !Lib(s.maps[Next(s, e)]))
    ensures PairOk(Apply(s, DupChild(e)), l, l')
  {
    assert PairOk(s, l, l') && PairOk(s, l, Next(s, e));
    hide Isolated;
  }

  ghost predicate Moves(s: Cow, st: Step, s': Cow) { Sane(s) && CanStep(s, st) && s' == Apply(s, st) }

  ghost predicate Steps(cs: seq<Cow>, steps: seq<Step>) {
    |cs| == |steps| + 1 && forall i :: 0 <= i < |steps| ==> Moves(cs[i], steps[i], cs[i + 1])
  }

  /** Some sequence of steps leads from `s` to `t`. */
  ghost predicate Path(s: Cow, t: Cow) {
    exists cs, steps :: Steps(cs, steps) && cs[0] == s && cs[|steps|] == t
  }

  lemma PathStep(s: Cow, t: Cow, st: Step) returns (t': Cow)
    requires Path(s, t) && Sane(t) && CanStep(t, st)
    ensures t' == Apply(t, st) && Path(s, t')
  {
    t' := Apply(t, st);
    assert Moves(t, st, t');
    hide Moves;
    var cs, steps :| Steps(cs, steps) && cs[0] == s && cs[|steps|] == t;
    var cs', steps' := cs + [t'], steps + [st];
    forall i | 0 <= i < |steps'|
      ensures Moves(cs'[i], steps'[i], cs'[i + 1])
    {
      if i < |steps| { assert Moves(cs[i], steps[i], cs[i + 1]); }
    }
    assert Steps(cs', steps') && cs'[0] == s && cs'[|steps'|] == t';
  }

  lemma PathSelf(s: Cow)
    ensures Path(s, s)
  {
    var cs, steps: seq<Step> := [s], [];
    assert Steps(cs, steps) && cs[0] == s && cs[|steps|] == s;
  }

  /** The copying loop of cow_entry, from byte `n` on. */
  lemma {:induction false} CopyRest(s: Cow, t: Cow, e: nat, v: nat, n: nat) returns (t': Cow)
    requires Path(s, t) && Sane(t) && InHandler(t, e) && t.envs[e].handler == Some(Handler(v, Copy(n)))
    requires n <= PAGE_SIZE && Loc(e, v) in t.maps && Loc(e, UCOW_VPN) in t.maps
    ensures Path(s, t') && Sane(t') && t'.maps == t.maps
    ensures t'.envs == t.envs[e := t.envs[e].(handler := Some(Handler(v, Copy(PAGE_SIZE))))]
    decreases PAGE_SIZE - n
  {
    hide Path;
    if n == PAGE_SIZE {
      t' := t;
    } else {
      var t1 := PathStep(s, t, CowCopy(e));
      t' := CopyRest(s, t1, e, v, n + 1);
      assert t1.envs[e := t1.envs[e].(handler := Some(Handler(v, Copy(PAGE_SIZE))))] ==
             t.envs[e := t.envs[e].(handler := Some(Handler(v, Copy(PAGE_SIZE))))];
    }
  }

  /** The parent stands where duppage has read the permission of a private copy-on-write page. */
  ghost predicate AboutToDup(s: Cow, e: nat) {
    && Inv(s) && InFork(s, e) && s.envs[e].fork.value.stage.PermRead? && Next(s, e) in s.maps
    && Legal(s.envs[e].fork.value.next)
    && var m := s.maps[Next(s, e)]; !D(m) && IsCow(m) && !Lib(m)
  }

  /** Such a moment exists: a page that an earlier fork left copy-on-write. */
  lemma AboutToDupExists()
    ensures exists s: Cow :: AboutToDup(s, 0)
  {
    var parent := Env(true, 0, Some(ForkState(1, 1024, PermRead(DUP_PERM))), None);
    var s := Cow(map[0 := parent, 1 := Env(false, 0, None, None)],
                 map[Loc(0, 1024) := Mapping(0, DUP_PERM)], map[0 := ZeroPage()]);
    assert ForkOk(s, 0) && ForkOk(s, 1);
    assert AboutToDup(s, 0);
  }

  lemma AboutFacts(s: Cow, e: nat)
    requires AboutToDup(s, e)
    ensures Sane(s) && InFork(s, e) && s.envs[e].fork.value.stage.PermRead?
    ensures Next(s, e) in s.maps && Loc(e, UCOW_VPN) !in s.maps
    ensures var k := s.envs[e].fork.value;
      && k.next != UCOW_VPN && Legal(k.next) && k.child != e && k.child in s.envs
      && s.envs[k.child] == Env(false, e, None, None)
      && k.stage.perm == s.maps[Next(s, e)].perm && PlainDup(k.stage.perm)
      && !D(s.maps[Next(s, e)]) && IsCow(s.maps[Next(s, e)])
  {
    assert ForkOk(s, e);
  }

  /** The four steps of the fault handler beside its loop, one by one. */
  lemma TakeFault(s0: Cow, s: Cow, e: nat, v: nat) returns (t: Cow)
    requires Path(s0, s) && Sane(s) && Active(s, e) && v != UCOW_VPN && Loc(e, UCOW_VPN) !in s.maps
    requires Loc(e, v) in s.maps && !D(s.maps[Loc(e, v)]) && IsCow(s.maps[Loc(e, v)])
    ensures Path(s0, t) && Sane(t) && t == SetHandler(s, e, Some(Handler(v, Alloc)))
  {
    hide Path;
    t := PathStep(s0, s, Fault(e, v));
  }

  lemma TakeAlloc(s0: Cow, s: Cow, e: nat, v: nat, f: nat) returns (t: Cow)
    requires Path(s0, s) && Sane(s) && InHandler(s, e) && s.envs[e].handler == Some(Handler(v, Alloc))
    requires FreshFrame(s, f) && v != UCOW_VPN
    ensures Path(s0, t) && Sane(t) && t.maps == s.maps[Loc(e, UCOW_VPN) := Mapping(f, FAULT_PERM)]
    ensures t.envs == s.envs[e := s.envs[e].(handler := Some(Handler(v, Copy(0))))]
  {
    hide Path;
    t := PathStep(s0, s, CowAlloc(e, f));
  }

  lemma TakeMap(s0: Cow, s: Cow, e: nat, v: nat, f: nat) returns (t: Cow)
    requires Path(s0, s) && Sane(s) && InHandler(s, e) && s.envs[e].handler == Some(Handler(v, Copy(PAGE_SIZE)))
    requires v != UCOW_VPN && Legal(v) && Loc(e, UCOW_VPN) in s.maps
    requires s.maps[Loc(e, UCOW_VPN)] == Mapping(f, FAULT_PERM)
    ensures Path(s0, t) && Sane(t) && t.maps == s.maps[Loc(e, v) := Mapping(f, FAULT_PERM)]
    ensures t.envs == s.envs[e := s.envs[e].(handler := Some(Handler(v, Unmap)))]
  {
    hide Path;
    t := PathStep(s0, s, CowMap(e));
  }

  lemma TakeUnmap(s0: Cow, s: Cow, e: nat, v: nat) returns (t: Cow)
    requires Path(s0, s) && Sane(s) && InHandler(s, e) && s.envs[e].handler == Some(Handler(v, Unmap))
    ensures Path(s0, t) && Sane(t) && t.maps == s.maps - {Loc(e, UCOW_VPN)}
    ensures t.envs == s.envs[e := s.envs[e].(handler := None)]
  {
    hide Path;
    t := PathStep(s0, s, CowUnmap(e));
  }

  /** A fault on a copy-on-write page, up to the end of the copying loop. */
  lemma StartFault(s: Cow, e: nat, v: nat, f: nat) returns (t: Cow)
    requires Sane(s) && Active(s, e) && v != UCOW_VPN && Loc(e, UCOW_VPN) !in s.maps && FreshFrame(s, f)
    requires Loc(e, v) in s.maps && !D(s.maps[Loc(e, v)]) && IsCow(s.maps[Loc(e, v)])
    ensures Path(s, t) && Sane(t) && t.maps == s.maps[Loc(e, UCOW_VPN) := Mapping(f, FAULT_PERM)]
    ensures t.envs == s.envs[e := s.envs[e].(handler := Some(Handler(v, Copy(PAGE_SIZE))))]
  {
    hide Path, Sane, FreshFrame;
    PathSelf(s);
    var s1 := TakeFault(s, s, e, v);
    SameMapsFresh(s, s1, f);
    var s2 := TakeAlloc(s, s1, e, v, f);
    t := CopyRest(s, s2, e, v, 0);
    HandlerTwice(s.envs, e, Some(Handler(v, Alloc)), Some(Handler(v, Copy(0))));
    HandlerTwice(s.envs, e, Some(Handler(v, Copy(0))), Some(Handler(v, Copy(PAGE_SIZE))));
  }

  lemma HandlerTwice(envs: map<nat, Env>, e: nat, h: Option<Handler>, h': Option<Handler>)
    requires e in envs
    ensures var a := envs[e := envs[e].(handler := h)];
      a[e := a[e].(handler := h')] == envs[e := envs[e].(handler := h')]
    ensures envs[e].handler == h' ==> envs[e := envs[e].(handler := h')] == envs
  {
  }

  /** A fault now, handled to its end: the page is private and writable, the permission read is stale. */
  lemma FaultBetween(s: Cow, e: nat, f: nat) returns (t: Cow)
    requires AboutToDup(s, e) && FreshFrame(s, f)
    ensures Path(s, t) && Sane(t) && t.envs == s.envs
    ensures t.maps == s.maps[Next(s, e) := Mapping(f, FAULT_PERM)] - {Loc(e, UCOW_VPN)}
  {
    hide Path, AboutToDup, Sane, FreshFrame;
    AboutFacts(s, e);
    var v := s.envs[e].fork.value.next;
    var s3 := StartFault(s, e, v, f);
    t := FinishFault(s, s3, e, v, f);
    HandlerTwice(s.envs, e, Some(Handler(v, Copy(PAGE_SIZE))), None);
    RemapStaged(s.maps, Loc(e, UCOW_VPN), Loc(e, v), Mapping(f, FAULT_PERM));
  }

  lemma SameMapsFresh(s: Cow, s': Cow, f: nat)
    requires FreshFrame(s, f) && s'.maps == s.maps
    ensures FreshFrame(s', f)
  {
  }

  lemma RemapStaged(m: map<Loc, Mapping>, u: Loc, l: Loc, x: Mapping)
    requires u != l
    ensures m[u := x][l := x] - {u} == m[l := x] - {u}
  {
  }

  lemma FinishFault(s0: Cow, s: Cow, e: nat, v: nat, f: nat) returns (t: Cow)
    requires Path(s0, s) && Sane(s) && InHandler(s, e) && s.envs[e].handler == Some(Handler(v, Copy(PAGE_SIZE)))
    requires v != UCOW_VPN && Legal(v) && Loc(e, UCOW_VPN) in s.maps
    requires s.maps[Loc(e, UCOW_VPN)] == Mapping(f, FAULT_PERM)
    ensures Path(s0, t) && Sane(t) && t.maps == s.maps[Loc(e, v) := Mapping(f, FAULT_PERM)] - {Loc(e, UCOW_VPN)}
    ensures t.envs == s.envs[e := s.envs[e].(handler := None)]
  {
    hide Path, Sane;
    var s4 := TakeMap(s0, s, e, v, f);
    t := TakeUnmap(s0, s4, e, v);
    assert t.envs == s.envs[e := s.envs[e].(handler := None)];
  }

  /** duppage goes on with the permission it read, and the parent writes to its page. */
  lemma DupThenStore(s: Cow, t0: Cow, e: nat, f: nat, i: nat, b: int) returns (t: Cow)
    requires Path(s, t0) && Sane(t0) && InFork(t0, e) && t0.envs[e].fork.value.stage.PermRead? && i < PAGE_SIZE
    requires PlainDup(t0.envs[e].fork.value.stage.perm)
    requires t0.envs[e].fork.value.next != UCOW_VPN && Legal(t0.envs[e].fork.value.next)
    requires Next(t0, e) in t0.maps && t0.maps[Next(t0, e)] == Mapping(f, FAULT_PERM)
    requires var c := t0.envs[e].fork.value.child; c != e && c in t0.envs && t0.envs[c] == Env(false, e, None, None)
    ensures Path(s, t) && !Isolated(t)
    ensures var k := t0.envs[e].fork.value;
      var c := Loc(k.child, k.next);
      && c in t.maps && t.maps[c] == Mapping(f, k.stage.perm)
      && Next(t0, e) in t.maps && t.maps[Next(t0, e)] == Mapping(f, FAULT_PERM)
      && f in t.mem && |t.mem[f]| == PAGE_SIZE && t.mem[f][i] == b
  {
    hide Path;
    var k := t0.envs[e].fork.value;
    var t1 := PathStep(s, t0, DupChild(e));
    assert t1.maps[Next(t0, e)] == Mapping(f, FAULT_PERM) && t1.maps[Loc(k.child, k.next)].frame == f;
    t := PathStep(s, t1, Store(e, k.next, i, b));
    assert !Pending(t, Loc(k.child, k.next));
    assert !StagingPair(t, Next(t0, e), Loc(k.child, k.next));
  }

  /**
   The leak: a fault between the read of the permission and the duplication of the page, and the
   child reads what its parent stores afterwards into a page that is not shared.
   */
  lemma StalePermissionLeaks(s: Cow, e: nat, f: nat, i: nat, b: int) returns (t: Cow)
    requires AboutToDup(s, e) && FreshFrame(s, f) && i < PAGE_SIZE
    ensures Path(s, t) && !Isolated(t)
    ensures var c := Loc(s.envs[e].fork.value.child, s.envs[e].fork.value.next);
      && c in t.maps && t.maps[c] == s.maps[Next(s, e)].(frame := f)
      && Next(s, e) in t.maps && t.maps[Next(s, e)] == Mapping(f, FAULT_PERM)
      && f in t.mem && |t.mem[f]| == PAGE_SIZE && t.mem[f][i] == b
  {
    AboutFacts(s, e);
    hide Path, AboutToDup, Isolated;
    var t0 := FaultBetween(s, e, f);
    t := DupThenStore(s, t0, e, f, i, b);
  }

  // ---- fork() itself, run without interference ----

  /** Private writable pages become copy-on-write, and nothing else; other pages keep their permission. */
  function ChildPerm(p: Perm): Perm { if p.d && !p.lib then Perm(false, true, false) else p }

  /** The memory of `e` and of its child so far, seen as bytes, while fork scans in `s`. */
  ghost predicate Scanned(s0: Cow, s: Cow, e: nat, c: nat, next: nat) {
    && Inv(s) && InFork(s, e) && s.envs[e].fork == Some(ForkState(c, next, Scan)) && next <= LAST_VPN
    && s.mem == s0.mem && Loc(e, UCOW_VPN) !in s.maps
    && (forall v: nat :: Loc(e, v) in s.maps <==> Loc(e, v) in s0.maps)
    && (forall v: nat :: Loc(e, v) in s.maps && Loc(e, v) in s0.maps ==>
          s.maps[Loc(e, v)].frame == s0.maps[Loc(e, v)].frame)
    && (forall v: nat :: Loc(c, v) in s.maps && Loc(e, v) in s0.maps ==>
          s.maps[Loc(c, v)] == Mapping(s0.maps[Loc(e, v)].frame, ChildPerm(s0.maps[Loc(e, v)].perm)))
    && (forall v: nat :: Loc(e, v) in s.maps && Loc(e, v) in s0.maps ==>
          s.maps[Loc(e, v)].perm ==
          if v < next && Legal(v) then ChildPerm(s0.maps[Loc(e, v)].perm) else s0.maps[Loc(e, v)].perm)
  }

  /** One page of fork's loop: skip it, or call duppage. */
  method DupOne(ghost s0: Cow, s: Cow, e: nat, c: nat, next: nat) returns (s': Cow)
    requires Scanned(s0, s, e, c, next) && next < LAST_VPN
    ensures Scanned(s0, s', e, c, next + 1)
  {
    if Loc(e, next) !in s.maps {
      s' := SkipPage(s0, s, e, c, next);
    } else {
      s' := DupPage(s0, s, e, c, next);
    }
  }

  method SkipPage(ghost s0: Cow, s: Cow, e: nat, c: nat, next: nat) returns (s': Cow)
    requires Scanned(s0, s, e, c, next) && next < LAST_VPN && Loc(e, next) !in s.maps
    ensures Scanned(s0, s', e, c, next + 1)
  {
    hide Inv;
    hide Sane;
    hide Agree;
    hide Meaning;
    InvIsSane(s);
    s' := Apply(s, DupSkip(e));
    StepRefines(s, s', SomeEager(s), DupSkip(e));
  }

  /** duppage, in its one-call or two-call form, or with its calls refused. */
  method DupPage(ghost s0: Cow, s: Cow, e: nat, c: nat, next: nat) returns (s': Cow)
    requires Scanned(s0, s, e, c, next) && next < LAST_VPN && Loc(e, next) in s.maps
    ensures Scanned(s0, s', e, c, next + 1)
  {
    var s1 := ReadPerm(s0, s, e, c, next);
    if !Legal(next) {
      s' := RefusePage(s0, s, s1, e, c, next);
    } else {
      s' := CopyPage(s0, s, s1, e, c, next);
    }
  }

  method ReadPerm(ghost s0: Cow, s: Cow, e: nat, c: nat, next: nat) returns (s1: Cow)
    requires Scanned(s0, s, e, c, next) && next < LAST_VPN && Loc(e, next) in s.maps
    ensures Inv(s1) && s1.maps == s.maps && s1.mem == s.mem && InFork(s1, e)
    ensures s1.envs[e].fork == Some(ForkState(c, next, PermRead(s.maps[Loc(e, next)].perm)))
  {
    hide Inv, Sane, Agree, Meaning, SomeEager;
    InvIsSane(s);
    s1 := Apply(s, DupRead(e));
    StepRefines(s, s1, SomeEager(s), DupRead(e));
  }

  method RefusePage(ghost s0: Cow, ghost s: Cow, s1: Cow, e: nat, c: nat, next: nat) returns (s': Cow)
    requires Scanned(s0, s, e, c, next) && next < LAST_VPN && !Legal(next)
    requires Inv(s1) && s1.maps == s.maps && s1.mem == s.mem && InFork(s1, e)
    requires s1.envs[e].fork.Some? && s1.envs[e].fork.value.(stage := Scan) == ForkState(c, next, Scan)
    requires s1.envs[e].fork.value.stage.PermRead?
    ensures Scanned(s0, s', e, c, next + 1)
  {
    hide Inv, Sane, Agree, Meaning, SomeEager;
    InvIsSane(s1);
    s' := Apply(s1, DupRefused(e));
    StepRefines(s1, s', SomeEager(s1), DupRefused(e));
  }

  method CopyPage(ghost s0: Cow, ghost s: Cow, s1: Cow, e: nat, c: nat, next: nat) returns (s': Cow)
    requires Scanned(s0, s, e, c, next) && next < LAST_VPN && Legal(next) && Loc(e, next) in s.maps
    requires Inv(s1) && s1.maps == s.maps && s1.mem == s.mem && InFork(s1, e)
    requires s1.envs[e].fork == Some(ForkState(c, next, PermRead(s.maps[Loc(e, next)].perm)))
    ensures Scanned(s0, s', e, c, next + 1)
  {
    hide Inv, Sane, Agree, Meaning, SomeEager;
    InvIsSane(s1);
    ChildFacts(s1, e);
    var s2 := Apply(s1, DupChild(e));
    StepRefines(s1, s2, SomeEager(s1), DupChild(e));
    if PlainDup(s1.envs[e].fork.value.stage.perm) {
      return s2;
    }
    InvIsSane(s2);
    s' := Apply(s2, DupParent(e));
    StepRefines(s2, s', SomeEager(s2), DupParent(e));
  }

  lemma InvIsSane(s: Cow)
    requires Inv(s)
    ensures Sane(s)
  {
  }

  lemma ChildFacts(s: Cow, e: nat)
    requires Inv(s) && e in s.envs && s.envs[e].fork.Some?
    ensures s.envs[e].fork.value.child != e && s.envs[e].fork.value.child in s.envs
    ensures s.envs[s.envs[e].fork.value.child].handler.None?
  {
    assert ForkOk(s, e);
  }

  /** Some eager memory that agrees with `s`. */
  ghost function SomeEager(s: Cow): (a: Eager)
    requires Sane(s)
    ensures Agree(s, a)
  {
    Eager(map l | l in s.maps :: if Lib(s.maps[l]) then Shared(s.maps[l].frame) else Own(s.mem[s.maps[l].frame]),
          s.mem)
  }

  /**
   fork(), run alone: the child runs and has exactly its parent's pages from UTEMP up to USTACKTOP,
   with their bytes. Private writable pages are copy-on-write in both, all others have the
   permission they had.
   */
  method ForkAlone(s: Cow, e: nat, c: nat) returns (s': Cow)
    requires Inv(s) && Active(s, e) && s.envs[e].fork.None? && c !in s.envs
    ensures Inv(s') && Active(s', e) && Active(s', c) && s'.mem == s.mem
    ensures forall v: nat ::
              Loc(c, v) in s'.maps <==> Loc(e, v) in s.maps && UTEMP <= v * PAGE_SIZE < USTACKTOP
    ensures forall v: nat :: Loc(c, v) in s'.maps ==>
              && s'.maps[Loc(c, v)].frame == s.maps[Loc(e, v)].frame
              && s'.maps[Loc(c, v)].perm == ChildPerm(s.maps[Loc(e, v)].perm)
              && s.maps[Loc(e, v)].frame in s.mem
    ensures forall v: nat :: Loc(e, v) in s'.maps <==> Loc(e, v) in s.maps
    ensures forall v: nat :: Loc(e, v) in s.maps ==>
              && s'.maps[Loc(e, v)].frame == s.maps[Loc(e, v)].frame
              && s'.maps[Loc(e, v)].perm ==
                 if UTEMP <= v * PAGE_SIZE < USTACKTOP then ChildPerm(s.maps[Loc(e, v)].perm)
                 else s.maps[Loc(e, v)].perm
  {
    hide Inv;
    hide Agree;
    hide Meaning;
    hide SomeEager;
    InvIsSane(s);
    NoStaging(s, e, c);
    var cur := Apply(s, Exofork(e, c));
    StepRefines(s, cur, SomeEager(s), Exofork(e, c));
    var next := 0;
    while next < LAST_VPN
      invariant next <= LAST_VPN && Scanned(s, cur, e, c, next)
    {
      cur := DupOne(s, cur, e, c, next);
      next := next + 1;
    }
    InvIsSane(cur);
    ChildFacts(cur, e);
    forall v: nat
      ensures Loc(c, v) in cur.maps <==> Loc(e, v) in cur.maps && UTEMP <= v * PAGE_SIZE < USTACKTOP
      ensures v < LAST_VPN && Legal(v) <==> UTEMP <= v * PAGE_SIZE < USTACKTOP
    {
      ForkIsComplete(cur, e, v);
      PagesBelow(v);
    }
    s' := Apply(cur, ForkDone(e));
    StepRefines(cur, s', SomeEager(cur), ForkDone(e));
  }

  lemma NoStaging(s: Cow, e: nat, c: nat)
    requires Inv(s) && Active(s, e) && c !in s.envs
    ensures Loc(e, UCOW_VPN) !in s.maps && forall v: nat :: Loc(c, v) !in s.maps
  {
  }
}
