/**
 End-of-pipe detection (user/lib/pipe.c, user/lib/fd.c, user/lib/pageref.c): every env maps
 the descriptor pages and data pages of its open pipe ends, dup and close map and unmap them
 one system call at a time, and _pipe_is_closed compares two page reference counts that it
 reads at different moments while other envs may be scheduled in between.
 */
module PipeEof {
  import opened Wrappers

  /** Descriptor slot `i` of env `e` has one page in the descriptor table and one data page. */
  datatype Key = Fd(e: nat, i: nat) | Data(e: nat, i: nat)

  /** Where an env stands inside close(i), dup(o, n) or dup's error path. */
  datatype Pc =
    | Idle
    | CloseFd(i: nat, dup: Option<nat>)
    | CloseData(i: nat, dup: Option<nat>)
    | CloseAgain(i: nat, dup: Option<nat>)
    | DupData(o: nat, n: nat)
    | DupFd(o: nat, n: nat)
    | UndoFd(n: nat)
    | UndoData(n: nat)

  /** The local variables of _pipe_is_closed, called on descriptor `i`. */
  datatype Probe =
    | NoProbe
    | HasRuns(i: nat, runs: nat)
    | HasFd(i: nat, runs: nat, fdRef: nat)
    | HasBoth(i: nat, runs: nat, fdRef: nat, pipeRef: nat)

  datatype Env = Env(runs: nat, pc: Pc, probe: Probe)

  /**
   `pipes` sends each descriptor page that is an end of a pipe to the pipe's data page;
   `datas` is the set of those data pages.
   */
  datatype State = State(
    maps: map<Key, nat>, pipes: map<nat, nat>, datas: set<nat>, envs: map<nat, Env>, cur: nat)

  ghost function Slots(s: State, page: nat): set<Key> { set k | k in s.maps && s.maps[k] == page }

  /** pageref: the pp_ref of the page. */
  ghost function PageRef(s: State, page: nat): nat { |Slots(s, page)| }

  // ---- steps ----

  datatype Step =
    | Switch(e: nat)
    | StartClose(i: nat)
    | StartDup(o: nat, n: nat)
    | Advance(ok: bool)
    | Alloc(k: Key, page: nat)
    | ShareData(i: nat, j: nat)
    | PipeMade(i: nat, j: nat)
    | Fork(child: nat)
    | Destroy(e: nat)
    | ProbeRuns(i: nat)
    | ProbeFd
    | ProbePipe
    | ProbeEnd

  predicate Ready(s: State) { s.cur in s.envs && s.envs[s.cur].pc == Idle && s.envs[s.cur].probe == NoProbe }

  ghost predicate Unused(s: State, page: nat) {
    page !in s.pipes && page !in s.datas && Slots(s, page) == {}
  }

  /** Slot `i` of the current env is free of pipes, as after fd_alloc. */
  predicate NoPipeAt(s: State, i: nat) {
    Fd(s.cur, i) in s.maps ==> s.maps[Fd(s.cur, i)] !in s.pipes
  }

  ghost predicate Enabled(s: State, st: Step) {
    match st
    case Switch(e) => e in s.envs
    case StartClose(i) => Ready(s) && Fd(s.cur, i) in s.maps
    case StartDup(o, n) => Ready(s) && Fd(s.cur, o) in s.maps
    case Advance(ok) => s.cur in s.envs && s.envs[s.cur].pc != Idle
    case Alloc(k, page) =>
      Ready(s) && k.e == s.cur && k !in s.maps && Unused(s, page) && (k.Data? ==> NoPipeAt(s, k.i))
    case ShareData(i, j) =>
      && Ready(s) && Data(s.cur, i) in s.maps && Data(s.cur, j) !in s.maps && NoPipeAt(s, j)
      && s.maps[Data(s.cur, i)] !in s.datas
    case PipeMade(i, j) =>
      && Ready(s) && i != j && {Fd(s.cur, i), Fd(s.cur, j), Data(s.cur, i), Data(s.cur, j)} <= s.maps.Keys
      && var r, w, p := s.maps[Fd(s.cur, i)], s.maps[Fd(s.cur, j)], s.maps[Data(s.cur, i)];
         && s.maps[Data(s.cur, j)] == p && r != w && p != r && p != w
         && Slots(s, r) == {Fd(s.cur, i)} && Slots(s, w) == {Fd(s.cur, j)}
         && Slots(s, p) == {Data(s.cur, i), Data(s.cur, j)}
         && {r, w, p} !! s.pipes.Keys && {r, w, p} !! s.datas
    case Fork(child) => Ready(s) && child !in s.envs && child != s.cur
    case Destroy(e) => Ready(s) && e in s.envs
    case ProbeRuns(i) => Ready(s) && Fd(s.cur, i) in s.maps && s.maps[Fd(s.cur, i)] in s.pipes
    case ProbeFd => s.cur in s.envs && s.envs[s.cur].probe.HasRuns?
    case ProbePipe => s.cur in s.envs && s.envs[s.cur].probe.HasFd?
    case ProbeEnd => s.cur in s.envs && s.envs[s.cur].probe.HasBoth?
  }

  function SetEnv(s: State, env: Env): State { s.(envs := s.envs[s.cur := env]) }

  /** One system call of close, dup or dup's error path by the current env. */
  function AdvanceStep(s: State, ok: bool): State
    requires s.cur in s.envs
  {
    var e := s.cur;
    var env := s.envs[e];
    match env.pc
    case Idle => s
    case CloseFd(i, d) => SetEnv(s, env.(pc := CloseData(i, d))).(maps := s.maps - {Fd(e, i)})
    case CloseData(i, d) => SetEnv(s, env.(pc := CloseAgain(i, d))).(maps := s.maps - {Data(e, i)})
    case CloseAgain(i, d) =>
      SetEnv(s, env.(pc := if d.Some? then DupData(d.value, i) else Idle)).(maps := s.maps - {Fd(e, i)})
    case DupData(o, n) =>
      if !ok then SetEnv(s, env.(pc := UndoFd(n)))
      else SetEnv(s, env.(pc := DupFd(o, n)))
             .(maps := if Data(e, o) in s.maps then s.maps[Data(e, n) := s.maps[Data(e, o)]] else s.maps)
    case DupFd(o, n) =>
      if !ok || Fd(e, o) !in s.maps then SetEnv(s, env.(pc := UndoFd(n)))
      else SetEnv(s, env.(pc := Idle)).(maps := s.maps[Fd(e, n) := s.maps[Fd(e, o)]])
    case UndoFd(n) => SetEnv(s, env.(pc := UndoData(n))).(maps := s.maps - {Fd(e, n)})
    case UndoData(n) => SetEnv(s, env.(pc := Idle)).(maps := s.maps - {Data(e, n)})
  }

  function WithEnv(k: Key, e: nat): Key { match k case Fd(_, i) => Fd(e, i) case Data(_, i) => Data(e, i) }

  /** The mappings fork gives to env `c`: those of `p`, at the same addresses. */
  function Inherited(m: map<Key, nat>, p: nat, c: nat): map<Key, nat> {
    map k | k in m && k.e == p :: WithEnv(k, c) := m[k]
  }

  ghost function Apply(s: State, st: Step): State
    requires Enabled(s, st)
  {
    match st
    case Switch(e) => s.(cur := e, envs := s.envs[e := s.envs[e].(runs := s.envs[e].runs + 1)])
    case StartClose(i) => SetEnv(s, s.envs[s.cur].(pc := CloseFd(i, None)))
    case StartDup(o, n) =>
      SetEnv(s, s.envs[s.cur].(pc := if Fd(s.cur, n) in s.maps then CloseFd(n, Some(o)) else DupData(o, n)))
    case Advance(ok) => AdvanceStep(s, ok)
    case Alloc(k, page) => s.(maps := s.maps[k := page])
    case ShareData(i, j) => s.(maps := s.maps[Data(s.cur, j) := s.maps[Data(s.cur, i)]])
    case PipeMade(i, j) =>
      var p := s.maps[Data(s.cur, i)];
      s.(pipes := s.pipes[s.maps[Fd(s.cur, i)] := p][s.maps[Fd(s.cur, j)] := p], datas := s.datas + {p})
    case Fork(child) =>
      s.(envs := s.envs[child := Env(0, Idle, NoProbe)],
         maps := s.maps + Inherited(s.maps, s.cur, child))
    case Destroy(e) => s.(maps := map k | k in s.maps && k.e != e :: s.maps[k], envs := s.envs - {e})
    case ProbeRuns(i) => SetEnv(s, s.envs[s.cur].(probe := HasRuns(i, s.envs[s.cur].runs)))
    case ProbeFd =>
      var env := s.envs[s.cur];
      SetEnv(s, env.(probe := HasFd(env.probe.i, env.probe.runs, RefAt(s, Fd(s.cur, env.probe.i)))))
    case ProbePipe =>
      var env := s.envs[s.cur];
      SetEnv(s, env.(probe := HasBoth(env.probe.i, env.probe.runs, env.probe.fdRef,
                                      RefAt(s, Data(s.cur, env.probe.i)))))
    case ProbeEnd =>
      var env := s.envs[s.cur];
      SetEnv(s, env.(probe := if env.probe.runs == env.runs then NoProbe else HasRuns(env.probe.i, env.runs)))
  }

  /** pageref(va): 0 when nothing is mapped there. */
  ghost function RefAt(s: State, k: Key): nat { if k in s.maps then PageRef(s, s.maps[k]) else 0 }

  /** _pipe_is_closed is about to return, with this answer. */
  predicate Answers(s: State, closed: bool) {
    && s.cur in s.envs && s.envs[s.cur].probe.HasBoth? && s.envs[s.cur].probe.runs == s.envs[s.cur].runs
    && closed == (s.envs[s.cur].probe.fdRef == s.envs[s.cur].probe.pipeRef)
  }

  // ---- invariant ----

  /** A mapped end of a pipe always has the pipe's page mapped beside it. */
  ghost predicate Paired(s: State, e: nat, i: nat) {
    Fd(e, i) in s.maps && s.maps[Fd(e, i)] in s.pipes ==>
      Data(e, i) in s.maps && s.maps[Data(e, i)] == s.pipes[s.maps[Fd(e, i)]]
  }

  /** Slot `i` is between the two mapping calls of dup or the two unmapping calls of close. */
  predicate InTransit(pc: Pc, i: nat) {
    match pc
    case CloseData(j, _) => i == j
    case DupFd(_, n) => i == n
    case UndoFd(n) => i == n
    case UndoData(n) => i == n
    case _ => false
  }

  /** Outside such a window the pipe's page is mapped only beside one of its ends. */
  ghost predicate Covered(s: State, e: nat, i: nat) {
    Data(e, i) in s.maps && s.maps[Data(e, i)] in s.datas && e in s.envs && !InTransit(s.envs[e].pc, i) ==>
      Fd(e, i) in s.maps && s.maps[Fd(e, i)] in s.pipes && s.pipes[s.maps[Fd(e, i)]] == s.maps[Data(e, i)]
  }

  ghost predicate PcOk(s: State, e: nat) {
    e in s.envs ==>
      match s.envs[e].pc
      case CloseData(i, _) => Fd(e, i) !in s.maps
      case CloseAgain(i, _) => Fd(e, i) !in s.maps && Data(e, i) !in s.maps
      case DupData(o, n) => Fd(e, n) !in s.maps
      case DupFd(o, n) =>
        && Fd(e, n) !in s.maps
        && (Data(e, o) in s.maps ==> Data(e, n) in s.maps && s.maps[Data(e, n)] == s.maps[Data(e, o)])
        && (Fd(e, o) in s.maps && s.maps[Fd(e, o)] in s.pipes ==>
              Data(e, n) in s.maps && s.maps[Data(e, n)] == s.pipes[s.maps[Fd(e, o)]])
        && (Data(e, n) in s.maps && s.maps[Data(e, n)] in s.datas ==>
              Fd(e, o) in s.maps && s.maps[Fd(e, o)] in s.pipes && s.pipes[s.maps[Fd(e, o)]] == s.maps[Data(e, n)])
      case UndoFd(n) => Fd(e, n) !in s.maps
      case UndoData(n) => Fd(e, n) !in s.maps
      case _ => true
  }

  /** What a probe has read is still true unless its env was scheduled again since. */
  ghost predicate ProbeOk(s: State, e: nat) {
    e in s.envs ==>
      var env := s.envs[e];
      && (!env.probe.NoProbe? ==> env.probe.runs <= env.runs && env.pc == Idle)
      && (!env.probe.NoProbe? ==> Fd(e, env.probe.i) in s.maps && s.maps[Fd(e, env.probe.i)] in s.pipes)
      && (!env.probe.NoProbe? && env.probe.runs == env.runs && s.cur == e ==>
            && (!env.probe.HasRuns? ==> env.probe.fdRef == RefAt(s, Fd(e, env.probe.i)))
            && (env.probe.HasBoth? ==> env.probe.pipeRef == RefAt(s, Data(e, env.probe.i))))
  }

  /** Descriptor pages and data pages do not mix; mappings belong to existing envs. */
  ghost predicate KindsOk(s: State) {
    && (forall k :: k in s.maps ==> k.e in s.envs)
    && (forall k :: k in s.maps && k.Data? ==> s.maps[k] !in s.pipes)
    && (forall k :: k in s.maps && k.Fd? ==> s.maps[k] !in s.datas)
    && s.pipes.Keys !! s.datas
    && (forall r :: r in s.pipes ==> s.pipes[r] in s.datas)
  }

  ghost predicate Inv(s: State) {
    && KindsOk(s)
    && (forall e: nat, i: nat :: Paired(s, e, i))
    && (forall e: nat, i: nat :: Covered(s, e, i))
    && (forall e: nat :: PcOk(s, e))
    && (forall e: nat :: ProbeOk(s, e))
  }

  // ---- counting ----

  lemma {:induction false} EndsFit(ends: set<Key>, datas: set<Key>)
    requires forall k :: k in ends ==> k.Fd? && Data(k.e, k.i) in datas
    ensures |ends| <= |datas|
    decreases ends
  {
    if ends != {} {
      var k :| k in ends;
      EndsFit(ends - {k}, datas - {Data(k.e, k.i)});
    }
  }

  /** pageref(pipe) >= pageref(one end) + pageref(the other end), at every step. */
  lemma RefBound(s: State, r: nat, w: nat, p: nat)
    requires Inv(s) && r in s.pipes && w in s.pipes && r != w && s.pipes[r] == p && s.pipes[w] == p
    ensures PageRef(s, p) >= PageRef(s, r) + PageRef(s, w)
  {
    var ends := Slots(s, r) + Slots(s, w);
    assert Slots(s, r) !! Slots(s, w);
    forall k | k in ends
      ensures k.Fd? && Data(k.e, k.i) in Slots(s, p)
    {
      assert Paired(s, k.e, k.i);
    }
    EndsFit(ends, Slots(s, p));
  }

  lemma {:induction false} DatasFit(ends: set<Key>, datas: set<Key>)
    requires forall k :: k in datas ==> k.Data? && Fd(k.e, k.i) in ends
    ensures |datas| <= |ends|
    decreases datas
  {
    if datas != {} {
      var k :| k in datas;
      DatasFit(ends - {Fd(k.e, k.i)}, datas - {k});
    }
  }

  /** With no env inside dup or close the two sides are equal. */
  lemma RefExact(s: State, r: nat, w: nat, p: nat)
    requires Inv(s) && r in s.pipes && w in s.pipes && r != w && s.pipes[r] == p && s.pipes[w] == p
    requires forall x :: x in s.pipes && s.pipes[x] == p ==> x == r || x == w
    requires forall e :: e in s.envs ==> s.envs[e].pc == Idle
    ensures PageRef(s, p) == PageRef(s, r) + PageRef(s, w)
  {
    RefBound(s, r, w, p);
    var ends := Slots(s, r) + Slots(s, w);
    assert Slots(s, r) !! Slots(s, w);
    forall k | k in Slots(s, p)
      ensures k.Data? && Fd(k.e, k.i) in ends
    {
      assert Covered(s, k.e, k.i);
    }
    DatasFit(ends, Slots(s, p));
  }

  /**
   End-of-pipe is never reported falsely: when _pipe_is_closed answers "closed" on an end of
   a pipe, no env has the other end mapped.
   */
  lemma ClosedIsTrue(s: State, other: nat)
    requires Inv(s) && Answers(s, true)
    requires Fd(s.cur, s.envs[s.cur].probe.i) in s.maps
    requires var mine := s.maps[Fd(s.cur, s.envs[s.cur].probe.i)];
      mine in s.pipes && other in s.pipes && other != mine && s.pipes[other] == s.pipes[mine]
    ensures PageRef(s, other) == 0
  {
    var i := s.envs[s.cur].probe.i;
    var mine := s.maps[Fd(s.cur, i)];
    assert ProbeOk(s, s.cur) && Paired(s, s.cur, i);
    RefBound(s, mine, other, s.pipes[mine]);
  }

  /** The converse when no env is inside dup or close: "open" means the other end is mapped. */
  lemma OpenIsTrue(s: State, other: nat)
    requires Inv(s) && Answers(s, false)
    requires Fd(s.cur, s.envs[s.cur].probe.i) in s.maps
    requires var mine := s.maps[Fd(s.cur, s.envs[s.cur].probe.i)];
      && mine in s.pipes && other in s.pipes && other != mine && s.pipes[other] == s.pipes[mine]
      && (forall x :: x in s.pipes && s.pipes[x] == s.pipes[mine] ==> x == mine || x == other)
    requires forall e :: e in s.envs ==> s.envs[e].pc == Idle
    ensures PageRef(s, other) > 0
  {
    var i := s.envs[s.cur].probe.i;
    var mine := s.maps[Fd(s.cur, i)];
    assert ProbeOk(s, s.cur) && Paired(s, s.cur, i);
    RefExact(s, mine, other, s.pipes[mine]);
  }

  // ---- every step keeps the invariant ----

  ghost predicate Stepped(s: State, s': State, st: Step) { Inv(s) && Enabled(s, st) && s' == Apply(s, st) }

  lemma ForkMaps(s: State, s': State, child: nat)
    requires KindsOk(s) && Enabled(s, Fork(child)) && s' == Apply(s, Fork(child))
    ensures forall k: Key :: k in s'.maps <==> k in s.maps || (k.e == child && WithEnv(k, s.cur) in s.maps)
    ensures forall k: Key :: k in s.maps ==> s'.maps[k] == s.maps[k]
    ensures forall k: Key :: k.e == child && WithEnv(k, s.cur) in s.maps ==> s'.maps[k] == s.maps[WithEnv(k, s.cur)]
  {
    InheritedKeys(s.maps, s.cur, child);
  }

  lemma InheritedKeys(m: map<Key, nat>, p: nat, c: nat)
    ensures forall k: Key :: k in Inherited(m, p, c) <==> k.e == c && WithEnv(k, p) in m
    ensures forall k: Key :: k.e == c && WithEnv(k, p) in m ==> Inherited(m, p, c)[k] == m[WithEnv(k, p)]
  {
    forall k: Key | k.e == c && WithEnv(k, p) in m
      ensures k in Inherited(m, p, c) && Inherited(m, p, c)[k] == m[WithEnv(k, p)]
    {
      assert WithEnv(WithEnv(k, p), c) == k;
    }
  }

  lemma KindsKeep(s: State, s': State, st: Step)
    requires Stepped(s, s', st)
    ensures KindsOk(s')
  {
    hide Paired, Covered, PcOk, ProbeOk, KindsOk;
    match st
    case Fork(child) => ForkKinds(s, s', child);
    case PipeMade(i, j) => MadeKinds(s, s', i, j);
    case Advance(ok) => AdvanceKinds(s, s', ok);
    case _ => OtherKinds(s, s', st);
  }

  lemma ForkKinds(s: State, s': State, child: nat)
    requires Stepped(s, s', Fork(child))
    ensures KindsOk(s')
  {
    hide Paired, Covered, PcOk, ProbeOk;
    ForkMaps(s, s', child);
  }

  lemma AdvanceKinds(s: State, s': State, ok: bool)
    requires Stepped(s, s', Advance(ok))
    ensures KindsOk(s')
  {
    hide Paired, Covered, PcOk, ProbeOk;
  }

  lemma OtherKinds(s: State, s': State, st: Step)
    requires Stepped(s, s', st) && !st.Fork? && !st.PipeMade? && !st.Advance?
    ensures KindsOk(s')
  {
    hide Paired, Covered, PcOk, ProbeOk;
  }

  lemma MadeKinds(s: State, s': State, i: nat, j: nat)
    requires KindsOk(s) && Enabled(s, PipeMade(i, j)) && s' == Apply(s, PipeMade(i, j))
    ensures KindsOk(s')
  {
    var r, w, p := s.maps[Fd(s.cur, i)], s.maps[Fd(s.cur, j)], s.maps[Data(s.cur, i)];
    forall k | k in s.maps
      ensures k.Data? ==> s.maps[k] != r && s.maps[k] != w
      ensures k.Fd? ==> s.maps[k] != p
    {
      assert k in Slots(s, s.maps[k]);
    }
  }

  lemma PairedKeeps(s: State, s': State, st: Step, e: nat, i: nat)
    requires Stepped(s, s', st)
    ensures Paired(s', e, i)
  {
    hide Covered;
    hide ProbeOk;
    assert Paired(s, e, i) && Paired(s, s.cur, i);
    assert PcOk(s, s.cur);
    if st.Fork? { ForkMaps(s, s', st.child); }
    if st.PipeMade? && Fd(e, i) in s.maps { assert Fd(e, i) in Slots(s, s.maps[Fd(e, i)]); }
  }

  lemma CoveredKeeps(s: State, s': State, st: Step, e: nat, i: nat)
    requires Stepped(s, s', st)
    ensures Covered(s', e, i)
  {
    hide Paired;
    hide ProbeOk;
    assert Covered(s, e, i) && Covered(s, s.cur, i);
    assert PcOk(s, s.cur);
    if st.Fork? { ForkMaps(s, s', st.child); }
    if st.PipeMade? && Data(e, i) in s.maps { assert Data(e, i) in Slots(s, s.maps[Data(e, i)]); }
  }

  lemma PcAdvances(s: State, s': State, ok: bool, e: nat)
    requires Stepped(s, s', Advance(ok))
    ensures PcOk(s', e)
  {
    hide Stepped, PcOk;
    if DupsData(s) { PcDups(s, s', ok, e); } else { PcOther(s, s', ok, e); }
  }

  predicate DupsData(s: State) { s.cur in s.envs && s.envs[s.cur].pc.DupData? }

  lemma PcDups(s: State, s': State, ok: bool, e: nat)
    requires Stepped(s, s', Advance(ok)) && DupsData(s)
    ensures PcOk(s', e)
  {
    hide ProbeOk;
    assert PcOk(s, e);
    if e == s.cur {
      assert Paired(s, e, s.envs[e].pc.o) && Covered(s, e, s.envs[e].pc.o) && Covered(s, e, s.envs[e].pc.n);
    }
  }

  lemma PcOther(s: State, s': State, ok: bool, e: nat)
    requires Stepped(s, s', Advance(ok)) && !DupsData(s)
    ensures PcOk(s', e)
  {
    hide ProbeOk, Paired, Covered;
    assert PcOk(s, e);
  }

  lemma PcKeeps(s: State, s': State, st: Step, e: nat)
    requires Stepped(s, s', st) && !st.Advance?
    ensures PcOk(s', e)
  {
    hide Stepped, PcOk;
    match st
    case Fork(child) => PcForks(s, s', child, e);
    case PipeMade(i, j) => PcMade(s, s', i, j, e);
    case _ => PcQuiet(s, s', st, e);
  }

  lemma PcForks(s: State, s': State, child: nat, e: nat)
    requires Stepped(s, s', Fork(child))
    ensures PcOk(s', e)
  {
    hide ProbeOk, Paired, Covered;
    assert PcOk(s, e);
    ForkMaps(s, s', child);
  }

  lemma PcQuiet(s: State, s': State, st: Step, e: nat)
    requires Stepped(s, s', st) && !st.Advance? && !st.Fork? && !st.PipeMade?
    ensures PcOk(s', e)
  {
    hide ProbeOk, Paired, Covered;
    assert PcOk(s, e);
  }

  lemma PcMade(s: State, s': State, i: nat, j: nat, e: nat)
    requires Stepped(s, s', PipeMade(i, j))
    ensures PcOk(s', e)
  {
    hide ProbeOk;
    hide Paired;
    hide Covered;
    assert PcOk(s, e);
    assert forall k :: k in s.maps ==> k in Slots(s, s.maps[k]);
  }

  lemma ProbeKeeps(s: State, s': State, st: Step, e: nat)
    requires Stepped(s, s', st)
    ensures ProbeOk(s', e)
  {
    hide Paired;
    hide Covered;
    hide PcOk;
    assert ProbeOk(s, e);
    if st.PipeMade? || st.ProbeFd? || st.ProbePipe? || st.ProbeEnd? || st.ProbeRuns? {
      assert s'.maps == s.maps;
      assert forall p :: Slots(s', p) == Slots(s, p);
    }
  }

  lemma StepKeeps(s: State, s': State, st: Step)
    requires Stepped(s, s', st)
    ensures Inv(s')
  {
    hide Stepped;
    KindsKeep(s, s', st);
    forall e: nat, i: nat ensures Paired(s', e, i) { PairedKeeps(s, s', st, e, i); }
    forall e: nat, i: nat ensures Covered(s', e, i) { CoveredKeeps(s, s', st, e, i); }
    forall e: nat ensures PcOk(s', e) {
      if st.Advance? { PcAdvances(s, s', st.ok, e); } else { PcKeeps(s, s', st, e); }
    }
    forall e: nat ensures ProbeOk(s', e) { ProbeKeeps(s, s', st, e); }
  }

  /** A dup(o, n) that ends well has slot `n` share both pages of slot `o`, which keeps them. */
  lemma DupShares(s: State, s': State, o: nat, n: nat)
    requires Stepped(s, s', Advance(true)) && s.envs[s.cur].pc == DupFd(o, n) && Fd(s.cur, o) in s.maps
    ensures s'.cur == s.cur && s'.envs[s.cur].pc == Idle
    ensures Fd(s.cur, n) in s'.maps && s'.maps[Fd(s.cur, n)] == s.maps[Fd(s.cur, o)]
    ensures Data(s.cur, o) in s.maps ==>
              Data(s.cur, n) in s'.maps && s'.maps[Data(s.cur, n)] == s.maps[Data(s.cur, o)]
    ensures forall k :: k in s.maps ==> k in s'.maps && s'.maps[k] == s.maps[k]
  {
    assert PcOk(s, s.cur);
  }

  /** An end that no env maps any more stays unmapped: a true answer never becomes false. */
  lemma ClosedStays(s: State, s': State, st: Step, w: nat)
    requires Stepped(s, s', st) && w in s.pipes && PageRef(s, w) == 0
    ensures w in s'.pipes && PageRef(s', w) == 0
  {
    assert Slots(s, w) == {};
    assert forall k :: k in s.maps ==> k in Slots(s, s.maps[k]);
    assert forall k :: k in s.maps ==> s.maps[k] != w;
    if st.Fork? { ForkMaps(s, s', st.child); }
    assert forall k :: k in s'.maps ==> s'.maps[k] != w;
    assert Slots(s', w) == {};
  }

  // ---- runs ----

  ghost predicate IsRun(states: seq<State>, steps: seq<Step>) {
    && |states| == |steps| + 1
    && (forall n :: 0 <= n < |steps| ==> Next(states[n], steps[n], states[n + 1]))
  }

  ghost predicate Next(s: State, st: Step, s': State) { Enabled(s, st) && s' == Apply(s, st) }

  /** No descriptor is open yet. */
  ghost predicate Start(s: State) {
    && s.maps == map[] && s.pipes == map[] && s.datas == {}
    && (forall e :: e in s.envs ==> s.envs[e].pc == Idle && s.envs[e].probe == NoProbe)
  }

  lemma {:induction false} RunKeeps(states: seq<State>, steps: seq<Step>, n: nat)
    requires IsRun(states, steps) && n <= |steps| && Start(states[0])
    ensures Inv(states[n])
  {
    if n > 0 {
      RunKeeps(states, steps, n - 1);
      assert Next(states[n - 1], steps[n - 1], states[n]);
      StepKeeps(states[n - 1], states[n], steps[n - 1]);
    }
  }

  lemma {:induction false} ClosedFrom(states: seq<State>, steps: seq<Step>, n: nat, m: nat, w: nat)
    requires IsRun(states, steps) && n <= m <= |steps| && Start(states[0])
    requires w in states[n].pipes && PageRef(states[n], w) == 0
    ensures w in states[m].pipes && PageRef(states[m], w) == 0
    decreases m - n
  {
    if n < m {
      RunKeeps(states, steps, n);
      assert Next(states[n], steps[n], states[n + 1]);
      ClosedStays(states[n], states[n + 1], steps[n], w);
      ClosedFrom(states, steps, n + 1, m, w);
    }
  }

  /**
   In every run: if _pipe_is_closed answers "closed" in state n for an end of a pipe, the other
   end is mapped by no env in state n nor in any later state.
   */
  lemma EofIsNeverFalse(states: seq<State>, steps: seq<Step>, n: nat, m: nat, other: nat)
    requires IsRun(states, steps) && n <= m <= |steps| && Start(states[0])
    requires var s := states[n];
      && Answers(s, true) && Fd(s.cur, s.envs[s.cur].probe.i) in s.maps
      && var mine := s.maps[Fd(s.cur, s.envs[s.cur].probe.i)];
         mine in s.pipes && other in s.pipes && other != mine && s.pipes[other] == s.pipes[mine]
    ensures PageRef(states[m], other) == 0
  {
    RunKeeps(states, steps, n);
    ClosedIsTrue(states[n], other);
    ClosedFrom(states, steps, n, m, other);
  }
}
