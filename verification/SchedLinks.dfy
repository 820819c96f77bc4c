/**
 The scheduler on the links of env_sched_list: the queue is what the tqe_next and tqe_prev
 pointers of the envs say, removals included that env_free makes for envs that are not on it.
 A machine stands for a state of module Sched while its links form that state's queue.
 */
module SchedLinks {
  import opened Wrappers
  import opened Sched
  import Q = Queue

  /** The state of Sched with the list head and the links of the envs in place of the queue. */
  datatype Machine = Machine(
    envs: seq<Env>, free: seq<nat>, l: Q.Links, last: Q.Slot, cur: Option<nat>, count: int, gen: nat)

  function View(m: Machine, q: seq<nat>): Sys { Sys(m.envs, m.free, q, m.cur, m.count, m.gen) }

  /** The pointers lead to places that exist; part of what the links of a queue satisfy. */
  ghost predicate Ready(m: Machine) {
    && |m.envs| == NENV == |m.l.next| && Q.Ranged(m.l) && Q.SlotOk(m.l, m.last) && m.last != Q.Null
    && (m.l.first.Some? ==> m.l.first.value < NENV)
  }

  /** The links of `m` form the queue `q`. */
  ghost predicate Rep(m: Machine, q: seq<nat>) { Ready(m) && Q.Queued(m.l, m.last, q) }

  ghost predicate Good(m: Machine, q: seq<nat>) { Rep(m, q) && Inv(View(m, q)) }

  // ---- the queue macros ----

  /** TAILQ_REMOVE; None is the panic of a store through a null pointer. */
  ghost function Cut(m: Machine, x: nat): (r: Option<Machine>)
    requires Ready(m) && x < NENV
    ensures r.Some? <==> m.l.prev[x] != Q.Null
    ensures r.Some? ==> Ready(r.value) && View(r.value, []) == View(m, [])
  {
    Q.RangedUnlinked(m.l, x);
    var l := Q.Unlinked(m.l, x);
    if l.None? then None else Some(m.(l := l.value, last := Q.UnlinkedLast(m.l, m.last, x)))
  }

  /** TAILQ_INSERT_TAIL. */
  ghost function Append(m: Machine, x: nat): (r: Machine)
    requires Ready(m) && x < NENV
    ensures Ready(r) && View(r, []) == View(m, [])
  {
    Q.RangedAppended(m.l, m.last, x);
    m.(l := Q.Appended(m.l, m.last, x), last := Q.NextOf(x))
  }

  /** TAILQ_INSERT_HEAD. */
  ghost function Push(m: Machine, x: nat): (r: Machine)
    requires Ready(m) && x < NENV
    ensures Ready(r) && View(r, []) == View(m, [])
  {
    Q.RangedPushed(m.l, x);
    m.(l := Q.Pushed(m.l, x), last := Q.PushedLast(m.l, m.last, x))
  }

  lemma {:induction false} RemoveIsDelete(q: seq<nat>, x: nat) returns (i: nat)
    requires x in q
    ensures i < |q| && q[i] == x && Remove(q, x) == Q.Delete(q, i)
  {
    if q[0] == x {
      i := 0;
      assert Q.Delete(q, 0) == q[1..];
    } else {
      var j := RemoveIsDelete(q[1..], x);
      i := j + 1;
      assert Q.Delete(q, i) == [q[0]] + Q.Delete(q[1..], j);
    }
  }

  lemma CutQueued(m: Machine, q: seq<nat>, x: nat)
    requires Rep(m, q) && x in q && x < NENV
    ensures m.l.prev[x] != Q.Null && Cut(m, x).Some? && Rep(Cut(m, x).value, Remove(q, x))
  {
    hide Q.Linked, Q.Ranged;
    var i := RemoveIsDelete(q, x);
    Q.UnlinkQueued(m.l, m.last, q, i);
  }

  lemma AppendQueued(m: Machine, q: seq<nat>, x: nat)
    requires Rep(m, q) && x !in q && x < NENV
    ensures Rep(Append(m, x), q + [x])
  {
    hide Q.Linked, Q.Ranged;
    Q.AppendQueued(m.l, m.last, q, x);
  }

  lemma PushQueued(m: Machine, q: seq<nat>, x: nat)
    requires Rep(m, q) && x !in q && x < NENV
    ensures Rep(Push(m, x), [x] + q)
  {
    hide Q.Linked, Q.Ranged;
    Q.PushQueued(m.l, m.last, q, x);
  }

  lemma HeadQueued(m: Machine, q: seq<nat>)
    requires Rep(m, q)
    ensures m.l.first == Q.ItemAt(q, 0)
  {
  }

  // ---- the operations ----

  ghost function LSchedule(m: Machine, yield_: bool): (Errno, Machine)
    requires Ready(m) && (m.cur.Some? ==> m.cur.value < NENV)
  {
    var stays := m.cur.Some? && m.envs[m.cur.value].status == Runnable;
    if yield_ || m.count == 0 || !stays then
      var c := if stays then Cut(m, m.cur.value) else Some(m);
      if c.None? then (Panic, m)
      else
        var m1 := if stays then Append(c.value, m.cur.value) else c.value;
        if m1.l.first.None? then (Panic, m1)
        else
          var e := m1.l.first.value;
          (Ok(e), m1.(cur := Some(e), count := m1.envs[e].pri - 1))
    else (Ok(m.cur.value), m.(count := m.count - 1))
  }

  ghost function LBlock(m: Machine, ipc: bool): (Errno, Machine)
    requires Ready(m) && m.cur.Some? && m.cur.value < NENV
  {
    var c := m.cur.value;
    var env := if ipc then m.envs[c].(recving := true, status := NotRunnable)
               else m.envs[c].(waiting := true, status := NotRunnable);
    var m1 := Cut(m.(envs := m.envs[c := env]), c);
    if m1.None? then (Panic, m) else LSchedule(m1.value, true)
  }

  ghost function LSend(m: Machine, ipc: bool, to: nat, value: nat, page: PageOutcome): (Errno, Machine)
    requires Ready(m) && m.cur.Some? && m.cur.value < NENV
  {
    var (r, s) := Send(View(m, []), ipc, to, value, page);
    var t := EnvIdToEnv(View(m, []), to, false);
    if s == View(m, []) || t.None? || t.value >= NENV then (r, m) else (r, Append(m.(envs := s.envs), t.value))
  }

  ghost function LSetStatus(m: Machine, e: nat, status: Status): (Errno, Machine)
    requires Ready(m) && e < NENV
  {
    if status == Free then (Inval, m)
    else
      var m1 := if m.envs[e].status == status then Some(m)
                else if status == Runnable then Some(Append(m, e)) else Cut(m, e);
      if m1.None? then (Panic, m) else (Ok(0), m1.value.(envs := m.envs[e := m.envs[e].(status := status)]))
  }

  /** env_free always unlinks, then env_destroy. */
  ghost function LDestroy(m: Machine, e: nat): (Errno, Machine)
    requires Ready(m) && e < NENV && (m.cur.Some? ==> m.cur.value < NENV)
  {
    var m1 := Cut(m.(envs := m.envs[e := m.envs[e].(status := Free)], free := [e] + m.free), e);
    if m1.None? then (Panic, m)
    else if m.cur == Some(e) then LSchedule(m1.value.(cur := None), true) else (Ok(0), m1.value)
  }

  ghost function LExofork(m: Machine, space: SpaceOutcome): (Errno, Machine)
    requires Ready(m) && m.cur.Some? && m.cur.value < NENV
  {
    var (r, s) := Exofork(View(m, []), space);
    (r, m.(envs := s.envs, free := s.free, gen := s.gen))
  }

  // ---- each is the operation of Sched while the links form its queue ----

  lemma ScheduleLinks(m: Machine, q: seq<nat>, yield_: bool)
    requires Rep(m, q) && Between(View(m, q)) && forall i :: 0 <= i < |q| ==> q[i] < NENV
    ensures var (r, s') := Schedule(View(m, q), yield_);
      var (r', m') := LSchedule(m, yield_);
      r' == r && (!r.Panic? ==> View(m', s'.queue) == s' && Rep(m', s'.queue))
  {
    hide Q.Linked, Q.Ranged, Q.Queued;
    var stays := m.cur.Some? && m.envs[m.cur.value].status == Runnable;
    if stays && (yield_ || m.count == 0) {
      var c := m.cur.value;
      assert c in q by { assert IsRunnable(View(m, q), c); }
      CutQueued(m, q, c);
      RemoveMembers(q, c);
      AppendQueued(Cut(m, c).value, Remove(q, c), c);
      HeadQueued(Append(Cut(m, c).value, c), Remove(q, c) + [c]);
    } else if !stays {
      HeadQueued(m, q);
    }
  }

  lemma BlockLinks(m: Machine, q: seq<nat>, ipc: bool)
    requires Good(m, q) && m.cur.Some? && m.cur.value < NENV && forall i :: 0 <= i < |q| ==> q[i] < NENV
    ensures var (r, s') := Block(View(m, q), ipc);
      var (r', m') := LBlock(m, ipc);
      r' == r && (!r.Panic? ==> View(m', s'.queue) == s' && Rep(m', s'.queue))
  {
    hide Q.Linked, Q.Ranged, Q.Queued;
    var c := m.cur.value;
    CurIsRunnable(View(m, q));
    var env := if ipc then m.envs[c].(recving := true, status := NotRunnable)
               else m.envs[c].(waiting := true, status := NotRunnable);
    var m0 := m.(envs := m.envs[c := env]);
    CutQueued(m0, q, c);
    var m1 := Cut(m0, c).value;
    BlockBetween(View(m, q), View(m1, Remove(q, c)), c);
    RemoveBounded(q, c, NENV);
    ScheduleLinks(m1, Remove(q, c), true);
  }

  lemma SendLinks(m: Machine, q: seq<nat>, ipc: bool, to: nat, value: nat, page: PageOutcome)
    requires Good(m, q) && m.cur.Some? && m.cur.value < NENV
    ensures var (r, s') := Send(View(m, q), ipc, to, value, page);
      var (r', m') := LSend(m, ipc, to, value, page);
      r' == r && View(m', s'.queue) == s' && Rep(m', s'.queue)
  {
    hide Q.Linked, Q.Ranged, Q.Queued;
    var (r, s') := Send(View(m, q), ipc, to, value, page);
    SendKeeps(View(m, q), ipc, to, value, page, r, s');
    if Wakes(View(m, q), ipc, to, page) {
      var e := EnvIdToEnv(View(m, q), to, false).value;
      assert Send(View(m, []), ipc, to, value, page).1.queue == [e];
      AppendQueued(m.(envs := s'.envs), q, e);
    }
  }

  lemma StatusLinks(m: Machine, q: seq<nat>, e: nat, status: Status)
    requires Good(m, q) && e < NENV && m.envs[e].status != Free
    ensures var (r, s') := SetStatus(View(m, q), e, status);
      var (r', m') := LSetStatus(m, e, status);
      r' == r && View(m', s'.queue) == s' && Rep(m', s'.queue)
  {
    hide Q.Linked, Q.Ranged, Q.Queued;
    assert e in q <==> IsRunnable(View(m, q), e);
    if status == Runnable && m.envs[e].status != status {
      AppendQueued(m, q, e);
    } else if status == NotRunnable && m.envs[e].status != status {
      CutQueued(m, q, e);
    }
  }

  lemma ExoforkLinks(m: Machine, q: seq<nat>, space: SpaceOutcome)
    requires Good(m, q) && m.cur.Some? && m.cur.value < NENV
    ensures var (r, s') := Exofork(View(m, q), space);
      var (r', m') := LExofork(m, space);
      r' == r && (!r.Panic? ==> View(m', s'.queue) == s' && Rep(m', s'.queue))
  {
    hide Q.Linked, Q.Ranged, Q.Queued;
    ExoforkKeeps(View(m, q), space, Exofork(View(m, q), space).0, Exofork(View(m, q), space).1);
  }

  // ---- destroying any env in use ----

  /** The removal that env_free makes for `e` leaves the queue to the others. */
  ghost predicate RemovesCleanly(m: Machine, q: seq<nat>, e: nat)
    requires Ready(m) && e < NENV
  {
    Q.LinksInRange(m.l, e) && (m.envs[e].status == Runnable || Q.WritesNothingNew(m.l, m.last, q, e))
  }

  lemma RunnableDestroyed(m: Machine, q: seq<nat>, e: nat)
    requires Good(m, q) && e < NENV && m.envs[e].status == Runnable && forall i :: 0 <= i < |q| ==> q[i] < NENV
    ensures var (r, s') := Destroy(View(m, q), e);
      && (m.cur.Some? ==> m.cur.value < NENV)
      && var (r', m') := LDestroy(m, e);
         r' == r && (!r.Panic? ==> View(m', s'.queue) == s' && Good(m', s'.queue))
    ensures m.l.prev[e] != Q.Null
  {
    hide Q.Linked, Q.Ranged, Q.Queued, Inv, Between;
    var s := View(m, q);
    CurInRange(s);
    DestroyKeeps(s, e, Destroy(s, e).0, Destroy(s, e).1);
    InQueue(s, e);
    var m0 := m.(envs := m.envs[e := m.envs[e].(status := Free)], free := [e] + m.free);
    CutQueued(m0, q, e);
    var m1 := Cut(m0, e).value;
    RunnableIdle(s, e);
    DestroyBetween(s, View(m1, Remove(q, e)), e);
    RemoveBounded(q, e, NENV);
    if m.cur == Some(e) { ScheduleLinks(m1.(cur := None), Remove(q, e), true); }
  }

  lemma CurInRange(s: Sys)
    requires Inv(s)
    ensures |s.envs| == NENV && (s.cur.Some? ==> s.cur.value < NENV && IsRunnable(s, s.cur.value))
  {
    if s.cur.Some? { CurIsRunnable(s); }
  }

  lemma InQueue(s: Sys, e: nat)
    requires Inv(s)
    ensures e in s.queue <==> IsRunnable(s, e)
  {
  }

  lemma RunnableIdle(s: Sys, e: nat)
    requires Inv(s) && IsRunnable(s, e)
    ensures !s.envs[e].recving && !s.envs[e].waiting
  {
  }

  /** What env_destroy of a stopped env does: nothing but the removal that the links make. */
  lemma StoppedDestroyed(m: Machine, q: seq<nat>, e: nat)
    requires Good(m, q) && e < NENV && m.envs[e].status == NotRunnable
    ensures (m.cur.Some? ==> m.cur.value < NENV) && m.cur != Some(e) && Q.LinksInRange(m.l, e)
    ensures var (r, m') := LDestroy(m, e);
      && (r.Panic? <==> m.l.prev[e] == Q.Null) && (r.Panic? || r == Ok(0))
      && (!r.Panic? ==>
            && View(m', []) == View(m, []).(envs := m.envs[e := m.envs[e].(status := Free)], free := [e] + m.free)
            && Some(m'.l) == Q.Unlinked(m.l, e) && m'.last == Q.UnlinkedLast(m.l, m.last, e) && Ready(m'))
  {
    hide Q.Linked, Q.Queued, Inv;
    CurInRange(View(m, q));
  }

  lemma HasMember(q: seq<nat>)
    ensures q != [] ==> exists x :: x in q
  {
    if q != [] { assert q[0] in q; }
  }

  lemma {:induction false} SameSize(q: seq<nat>, q': seq<nat>)
    requires Distinct(q) && Distinct(q') && forall x :: x in q <==> x in q'
    ensures |q| == |q'|
    decreases |q|
  {
    if q == [] {
      HasMember(q');
    } else {
      var x := q[0];
      assert x in q;
      RemoveMembers(q, x);
      RemoveMembers(q', x);
      var i := RemoveIsDelete(q', x);
      assert Remove(q, x) == q[1..];
      SameSize(Remove(q, x), Remove(q', x));
    }
  }

  /** Where a stopped env's destruction leaves a sound machine, the removal was clean. */
  lemma SoundMeansClean(m: Machine, q: seq<nat>, e: nat, m': Machine, q': seq<nat>)
    requires Good(m, q) && e < NENV && m.envs[e].status == NotRunnable
    requires (m.cur.Some? ==> m.cur.value < NENV) && (Ok(0), m') == LDestroy(m, e) && Good(m', q')
    ensures Q.LinksInRange(m.l, e) && Q.WritesNothingNew(m.l, m.last, q, e)
    ensures !m.envs[e].recving && !m.envs[e].waiting && q' == q
  {
    StoppedDestroyed(m, q, e);
    forall x: nat
      ensures x in q <==> x in q'
    {
      InQueue(View(m, q), x);
      InQueue(View(m', q'), x);
    }
    SameSize(q, q');
    InQueue(View(m, q), e);
    assert MailOk(View(m', q'));
    hide Q.Linked, Q.Ranged, Inv;
    Q.UnlinkedOrder(m.l, m.last, q, e, q');
    Q.StaleUnlinkExact(m.l, m.last, q, e);
  }

  /** A clean removal leaves the queue as it was. */
  lemma CleanMeansSound(m: Machine, q: seq<nat>, e: nat)
    requires Good(m, q) && e < NENV && m.envs[e].status == NotRunnable && RemovesCleanly(m, q, e)
    ensures (m.cur.Some? ==> m.cur.value < NENV) && LDestroy(m, e).0 == Ok(0)
    ensures var m' := LDestroy(m, e).1;
      && Rep(m', q) && (Good(m', q) <==> !m.envs[e].recving && !m.envs[e].waiting)
      && View(m', q) == View(m, q).(envs := m.envs[e := m.envs[e].(status := Free)], free := [e] + m.free)
  {
    StoppedDestroyed(m, q, e);
    InQueue(View(m, q), e);
    hide Q.Linked, Q.Ranged, Inv;
    Q.StaleUnlinkExact(m.l, m.last, q, e);
    StoppedGone(View(m, q), View(LDestroy(m, e).1, q), e);
  }

  /**
   env_destroy of any env in use. It panics if and only if the env's link is null or the last
   runnable env destroys itself; otherwise some queue again satisfies the invariant if and only
   if the env is runnable, or its removal writes nothing new and it is not blocked in a receive.
   */
  lemma DestroyExact(m: Machine, q: seq<nat>, e: nat)
    requires Good(m, q) && e < NENV && m.envs[e].status != Free
    ensures (m.cur.Some? ==> m.cur.value < NENV) && Q.LinksInRange(m.l, e)
    ensures var (r, m') := LDestroy(m, e);
      && (r.Panic? <==> m.l.prev[e] == Q.Null || (m.cur == Some(e) && |q| == 1))
      && (!r.Panic? ==>
            ((exists q' :: Good(m', q')) <==>
             RemovesCleanly(m, q, e) && !m.envs[e].recving && !m.envs[e].waiting))
  {
    CurInRange(View(m, q));
    InRangeLinks(m, e);
    var (r, m') := LDestroy(m, e);
    if m.envs[e].status == Runnable {
      QueueInRange(View(m, q));
      RunnableDestroyed(m, q, e);
      RunnableIdle(View(m, q), e);
      DestroyKeeps(View(m, q), e, r, Destroy(View(m, q), e).1);
    } else {
      StoppedDestroyed(m, q, e);
      hide Good, Ready, Inv;
      if !r.Panic? {
        if q' :| Good(m', q') { SoundMeansClean(m, q, e, m', q'); }
        if RemovesCleanly(m, q, e) { CleanMeansSound(m, q, e); }
      }
    }
  }

  lemma InRangeLinks(m: Machine, e: nat)
    requires Ready(m) && e < NENV
    ensures Q.LinksInRange(m.l, e)
  {
  }

  // ---- boot and the first envs ----

  /** env_init over the zeroed env array: nothing is queued and every link is null. */
  function Boot(): Machine {
    Machine(seq(NENV, _ => Env(0, 0, Free, 0, false, false, 0, 0, 0)), seq(NENV, i => i),
            Q.Links(None, seq(NENV, _ => None), seq(NENV, _ => Q.Null)), Q.First, None, 0, 0)
  }

  lemma BootGood()
    ensures Good(Boot(), [])
  {
    var m := Boot();
    forall x | 0 <= x < |m.l.next|
      ensures Q.LinksInRange(m.l, x)
    {
    }
    forall e: nat
      ensures e in m.free <==> e < |m.envs| && m.envs[e].status == Free
    {
      if e < NENV { assert m.free[e] == e; }
    }
  }

  /** env_create for the scheduler's part. */
  ghost function LCreate(m: Machine, pri: nat): Machine
    requires Ready(m) && m.free != [] && m.free[0] < NENV
  {
    var e := m.free[0];
    var env := m.envs[e].(id := MakeId(m.gen + 1, e), parent := 0, pri := pri, status := Runnable);
    Push(m.(envs := m.envs[e := env], free := m.free[1..], gen := m.gen + 1), e)
  }

  lemma CreateGood(m: Machine, q: seq<nat>, pri: nat)
    requires Good(m, q) && m.cur == None && m.free != [] && pri >= 1
    ensures m.free[0] < NENV && Good(LCreate(m, pri), [m.free[0]] + q)
  {
    var e := m.free[0];
    assert e in m.free;
    InQueue(View(m, q), e);
    hide Q.Linked, Q.Ranged, Q.Queued;
    var env := m.envs[e].(id := MakeId(m.gen + 1, e), parent := 0, pri := pri, status := Runnable);
    PushQueued(m.(envs := m.envs[e := env], free := m.free[1..], gen := m.gen + 1), q, e);
    CreatedInv(View(m, q), View(LCreate(m, pri), [e] + q), e, pri);
  }

  // ---- runs ----

  /** As in Sched, with any env in use destroyed whose removal is clean and which receives nothing. */
  ghost predicate LEnabled(m: Machine, q: seq<nat>, st: Step) {
    && Ready(m) && m.cur.Some? && m.cur.value < NENV
    && match st
       case Tick => true
       case Yield => true
       case Recv(ipc) => |q| > 1
       case SendTo(ipc, to, value, page) => true
       case Fork(space) => true
       case Start(e) =>
         e < NENV && m.envs[e].status == NotRunnable && !m.envs[e].recving && !m.envs[e].waiting
       case Kill(e) =>
         && e < NENV && m.envs[e].status != Free && RemovesCleanly(m, q, e)
         && !m.envs[e].recving && !m.envs[e].waiting && (m.envs[e].status == Runnable ==> |q| > 1)
  }

  ghost function LApply(m: Machine, q: seq<nat>, st: Step): Machine
    requires LEnabled(m, q, st)
  {
    match st
    case Tick => LSchedule(m, false).1
    case Yield => LSchedule(m, true).1
    case Recv(ipc) => LBlock(m, ipc).1
    case SendTo(ipc, to, value, page) => LSend(m, ipc, to, value, page).1
    case Fork(space) => LExofork(m, space).1
    case Start(e) => LSetStatus(m, e, Runnable).1
    case Kill(e) => LDestroy(m, e).1
  }

  /** A step of the links is the step of Sched on the queue they form; destroying a stopped env keeps the queue. */
  lemma LStepKeeps(m: Machine, q: seq<nat>, st: Step) returns (q': seq<nat>)
    requires Good(m, q) && LEnabled(m, q, st)
    ensures Good(LApply(m, q, st), q')
    ensures Enabled(View(m, q), st) ==> View(LApply(m, q, st), q') == Apply(View(m, q), st)
    ensures !Enabled(View(m, q), st) ==> st.Kill? && m.envs[st.e].status == NotRunnable && q' == q
  {
    var s := View(m, q);
    QueueInRange(s);
    hide Q.Linked, Q.Ranged, Q.Queued, Inv, Between;
    if st.Kill? && m.envs[st.e].status == NotRunnable {
      CleanMeansSound(m, q, st.e);
      q' := q;
    } else {
      assert Enabled(s, st);
      StepKeeps(s, st);
      q' := Apply(s, st).queue;
      OtherSteps(m, q, st);
    }
  }

  lemma OtherSteps(m: Machine, q: seq<nat>, st: Step)
    requires Good(m, q) && LEnabled(m, q, st) && Enabled(View(m, q), st)
    ensures var m', s' := LApply(m, q, st), Apply(View(m, q), st);
      View(m', s'.queue) == s' && Rep(m', s'.queue)
  {
    var s := View(m, q);
    SteadyBetween(s);
    hide Q.Linked, Q.Ranged, Q.Queued, Inv, Between;
    match st
    case Tick => ScheduleLinks(m, q, false); ScheduleKeeps(s, false, Schedule(s, false).0, Schedule(s, false).1);
    case Yield => ScheduleLinks(m, q, true); ScheduleKeeps(s, true, Schedule(s, true).0, Schedule(s, true).1);
    case Recv(ipc) => BlockLinks(m, q, ipc); BlockKeeps(s, ipc, Block(s, ipc).0, Block(s, ipc).1);
    case SendTo(ipc, to, value, page) => SendLinks(m, q, ipc, to, value, page);
    case Fork(space) =>
      ExoforkLinks(m, q, space);
      ExoforkKeeps(s, space, Exofork(s, space).0, Exofork(s, space).1);
    case Start(e) => StatusLinks(m, q, e, Runnable);
    case Kill(e) => RunnableDestroyed(m, q, e); DestroyKeeps(s, e, Destroy(s, e).0, Destroy(s, e).1);
  }

  lemma SteadyBetween(s: Sys)
    requires Inv(s) && s.cur.Some?
    ensures Between(s) && s.queue != []
  {
    CurIsRunnable(s);
  }

  /** The queues that the links of a run go through are a history of the run. */
  ghost predicate IsLRun(ms: seq<Machine>, qs: seq<seq<nat>>, steps: seq<Step>) {
    && |ms| == |qs| == |steps| + 1
    && (forall i :: 0 <= i < |steps| ==> LNext(ms[i], qs[i], steps[i], ms[i + 1], qs[i + 1]))
  }

  ghost predicate LNext(m: Machine, q: seq<nat>, st: Step, m': Machine, q': seq<nat>) {
    LEnabled(m, q, st) && m' == LApply(m, q, st) && Q.Queued(m'.l, m'.last, q')
  }

  /** The links of a tail queue form one sequence only. */
  lemma QueueUnique(l: Q.Links, last: Q.Slot, q: seq<nat>, q': seq<nat>)
    requires Q.Queued(l, last, q) && Q.Queued(l, last, q')
    ensures q == q'
  {
    Q.LinksHead(l, q);
    Q.LinksHead(l, q');
    forall k | 0 <= k < |q|
      ensures q[k] < |l.next|
    {
      Q.LinksAt(l, q, k);
    }
    Q.SameTail(l, q, 0, l, q', 0);
    assert q[0..] == q && q'[0..] == q';
  }

  /**
   In every run the links form a queue, and it holds an env exactly once if and only if the env is
   RUNNABLE.
   */
  lemma {:induction false} LRunKeeps(ms: seq<Machine>, qs: seq<seq<nat>>, steps: seq<Step>, n: nat)
    requires IsLRun(ms, qs, steps) && n <= |steps| && Good(ms[0], qs[0])
    ensures Good(ms[n], qs[n])
  {
    if n > 0 {
      LRunKeeps(ms, qs, steps, n - 1);
      assert LNext(ms[n - 1], qs[n - 1], steps[n - 1], ms[n], qs[n]);
      hide Inv, Q.Linked, LEnabled, LApply;
      var q' := LStepKeeps(ms[n - 1], qs[n - 1], steps[n - 1]);
      QueueUnique(ms[n].l, ms[n].last, qs[n], q');
    }
  }

  /** Destroying any env makes its id stale. */
  lemma LKillMakesStale(m: Machine, q: seq<nat>, e: nat, m': Machine, q': seq<nat>)
    requires Good(m, q) && LNext(m, q, Kill(e), m', q')
    ensures Stale(View(m', q'), m.envs[e].id)
  {
    QueueInRange(View(m, q));
    hide Q.Linked, Q.Ranged, Q.Queued, Inv, Stale;
    if m.envs[e].status == Runnable {
      RunnableDestroyed(m, q, e);
      DestroyKeeps(View(m, q), e, Destroy(View(m, q), e).0, Destroy(View(m, q), e).1);
    } else {
      CleanMeansSound(m, q, e);
    }
    KilledGen(m, e);
    GoneIsStale(View(m, q), View(m', q'), e);
  }

  lemma KilledGen(m: Machine, e: nat)
    requires Ready(m) && e < NENV && (m.cur.Some? ==> m.cur.value < NENV)
    ensures LDestroy(m, e).1.gen == m.gen
  {
    hide Q.Linked, Q.Ranged, Q.Queued, Ready;
  }

  lemma LStaleStep(m: Machine, q: seq<nat>, st: Step, m': Machine, q': seq<nat>, id: nat)
    requires Good(m, q) && LNext(m, q, st, m', q') && Stale(View(m, q), id)
    ensures Stale(View(m', q'), id)
  {
    hide Q.Linked, Q.Ranged, Q.Queued, Inv, LEnabled, LApply, Enabled, Apply, Stale;
    var q1 := LStepKeeps(m, q, st);
    if Enabled(View(m, q), st) {
      StaleStep(View(m, q), st, id);
      StaleView(View(m', q1), View(m', q'), id);
    } else {
      StoppedKill(m, q, st);
      StaleGone(View(m, q), View(m', q'), st.e, id);
    }
  }

  lemma StaleView(s: Sys, s': Sys, id: nat)
    requires Stale(s, id) && s'.envs == s.envs && s'.gen == s.gen
    ensures Stale(s', id)
  {
  }

  lemma StaleGone(s: Sys, s': Sys, e: nat, id: nat)
    requires Stale(s, id) && e < |s.envs| && s'.gen == s.gen && s'.envs == s.envs[e := s.envs[e].(status := Free)]
    ensures Stale(s', id)
  {
  }

  /** The only step that Sched does not have: a stopped env goes, and nothing else changes. */
  lemma StoppedKill(m: Machine, q: seq<nat>, st: Step)
    requires Good(m, q) && LEnabled(m, q, st) && st.Kill? && m.envs[st.e].status == NotRunnable
    ensures st.e < |m.envs| == NENV
    ensures var m' := LApply(m, q, st);
      m'.envs == m.envs[st.e := m.envs[st.e].(status := Free)] && m'.gen == m.gen
  {
    hide Q.Linked, Q.Ranged, Q.Queued, Inv;
    CleanMeansSound(m, q, st.e);
  }

  /** In every run of the links an id that has become stale stays stale. */
  lemma {:induction false} LStaleForever(
    ms: seq<Machine>, qs: seq<seq<nat>>, steps: seq<Step>, n: nat, i: nat, id: nat)
    requires IsLRun(ms, qs, steps) && n <= i <= |steps| && Good(ms[0], qs[0]) && Stale(View(ms[n], qs[n]), id)
    ensures Stale(View(ms[i], qs[i]), id)
    decreases i - n
  {
    hide Good, LNext, Stale;
    if n < i {
      LRunKeeps(ms, qs, steps, n);
      assert LNext(ms[n], qs[n], steps[n], ms[n + 1], qs[n + 1]);
      LStaleStep(ms[n], qs[n], steps[n], ms[n + 1], qs[n + 1], id);
      LStaleForever(ms, qs, steps, n + 1, i, id);
    }
  }

  /** Env `e` is in use and waits for nothing. */
  predicate HasMail(m: Machine, e: nat) {
    e < |m.envs| && m.envs[e].status != Free && !m.envs[e].recving && !m.envs[e].waiting
  }

  predicate SameMail(m: Machine, m': Machine, e: nat)
    requires e < |m.envs| && e < |m'.envs|
  {
    && m'.envs[e].value == m.envs[e].value && m'.envs[e].from == m.envs[e].from
    && m'.envs[e].returned == m.envs[e].returned
  }

  lemma LMailStep(m: Machine, q: seq<nat>, st: Step, m': Machine, q': seq<nat>, e: nat)
    requires Good(m, q) && LNext(m, q, st, m', q') && e < NENV && HasMail(m, e)
    requires !(st.Recv? && m.cur == Some(e)) && st != Kill(e)
    ensures HasMail(m', e) && SameMail(m, m', e)
  {
    hide Q.Linked, Q.Ranged, Q.Queued, Inv, LEnabled, LApply, Enabled, Apply;
    var q1 := LStepKeeps(m, q, st);
    if Enabled(View(m, q), st) {
      MailStep(View(m, q), st, e);
    } else {
      StoppedKill(m, q, st);
    }
  }

  /**
   A delivered value survives in every run of the links: while env `e` makes no receive call and
   is not destroyed, no step touches either of its mailboxes.
   */
  lemma {:induction false} LMailIsKept(
    ms: seq<Machine>, qs: seq<seq<nat>>, steps: seq<Step>, n: nat, i: nat, e: nat)
    requires IsLRun(ms, qs, steps) && n <= i <= |steps| && Good(ms[0], qs[0]) && e < NENV && HasMail(ms[n], e)
    requires forall j :: n <= j < i ==> !(steps[j].Recv? && ms[j].cur == Some(e)) && steps[j] != Kill(e)
    ensures HasMail(ms[i], e) && SameMail(ms[n], ms[i], e)
    decreases i - n
  {
    hide Good, LNext;
    if n < i {
      LRunKeeps(ms, qs, steps, n);
      assert LNext(ms[n], qs[n], steps[n], ms[n + 1], qs[n + 1]);
      LMailStep(ms[n], qs[n], steps[n], ms[n + 1], qs[n + 1], e);
      LMailIsKept(ms, qs, steps, n + 1, i, e);
    }
  }

  // ---- the error path of spawn: a child is destroyed before it has been started ----

  /** What spawn's caller sees of the child it destroys: stopped, and waiting for nothing. */
  predicate Unstarted(m: Machine, e: nat) {
    e < |m.envs| && m.envs[e].status == NotRunnable && !m.envs[e].recving && !m.envs[e].waiting
  }

  /** A child in a slot that was never queued: the kernel panics. */
  lemma NeverQueuedPanics(m: Machine, q: seq<nat>, e: nat)
    requires Good(m, q) && Unstarted(m, e) && m.l.prev[e] == Q.Null
    ensures (m.cur.Some? ==> m.cur.value < NENV) && LDestroy(m, e).0.Panic?
  {
    DestroyExact(m, q, e);
  }

  /** Starting a stopped env that waits for nothing. */
  lemma Started(m: Machine, q: seq<nat>, e: nat) returns (m': Machine)
    requires Good(m, q) && Unstarted(m, e) && e < NENV
    ensures m' == LSetStatus(m, e, Runnable).1 && Good(m', q + [e])
    ensures m'.envs == m.envs[e := m.envs[e].(status := Runnable)] && m'.free == m.free && m'.cur == m.cur
    ensures Q.SlotOk(m.l, m.last) && m.last != Q.Null && |m.l.next| == |m.l.prev| == NENV
    ensures m'.l == Q.Appended(m.l, m.last, e)
  {
    StatusLinks(m, q, e, Runnable);
    StartKeeps(View(m, q), e, SetStatus(View(m, q), e, Runnable).0, SetStatus(View(m, q), e, Runnable).1);
    hide Q.Linked, Inv;
    m' := LSetStatus(m, e, Runnable).1;
  }

  /** A new child in the slot at the head of the free list. */
  lemma Forked(m: Machine, q: seq<nat>) returns (m': Machine, e: nat)
    requires Good(m, q) && m.cur.Some? && m.free != []
    ensures m.cur.value < NENV && m' == LExofork(m, SpaceMade).1 && Good(m', q) && e == m.free[0] < NENV
    ensures |m.envs| == NENV == |m'.envs| && m'.envs[e].status == NotRunnable && m'.free == m.free[1..]
    ensures m'.envs[e].recving == m.envs[e].recving && m'.envs[e].waiting == m.envs[e].waiting
    ensures forall x :: 0 <= x < NENV && x != e ==> m'.envs[x] == m.envs[x]
    ensures m'.l == m.l && m'.last == m.last && m'.cur == m.cur
  {
    CurInRange(View(m, q));
    ExoforkLinks(m, q, SpaceMade);
    ExoforkKeeps(View(m, q), SpaceMade, Exofork(View(m, q), SpaceMade).0, Exofork(View(m, q), SpaceMade).1);
    hide Q.Linked, Q.Ranged, Inv;
    e := m.free[0];
    m' := LExofork(m, SpaceMade).1;
  }

  lemma ReuseFacts(m: Machine, p: nat, a: nat, b: nat)
    requires Good(m, [p, a]) && m.cur == Some(p) && a < NENV && b < NENV && Unstarted(m, b)
    ensures p < NENV && p != a && b != a && b != p && m.envs[a].status == Runnable && m.envs[p].status == Runnable
    ensures !m.envs[a].recving && !m.envs[a].waiting
  {
    InQueue(View(m, [p, a]), a);
    InQueue(View(m, [p, a]), b);
    InQueue(View(m, [p, a]), p);
    assert a in [p, a] && p in [p, a] && b !in [p, a];
    PairDistinct(m, p, a);
    QueueInRange(View(m, [p, a]));
    assert [p, a][0] == p;
    RunnableIdle(View(m, [p, a]), a);
  }

  /** The second of two envs is destroyed; its links stay as they were. */
  lemma KilledSecond(m: Machine, p: nat, a: nat) returns (m1: Machine)
    requires Good(m, [p, a]) && m.cur == Some(p) && p != a && a < NENV && p < NENV && m.envs[a].status == Runnable
    ensures LNext(m, [p, a], Kill(a), m1, [p]) && Good(m1, [p])
    ensures m1.l.next == m.l.next[p := None] && m1.l.prev == m.l.prev && m1.last == Q.NextOf(p)
    ensures m1.l.next[a] == None && m1.l.prev[a] == Q.NextOf(p) && m1.free == [a] + m.free
    ensures m1.envs == m.envs[a := m.envs[a].(status := Free)] && m1.cur == m.cur
  {
    QueueInRange(View(m, [p, a]));
    assert Remove([p, a], a) == [p];
    RunnableDestroyed(m, [p, a], a);
    DestroyKeeps(View(m, [p, a]), a, Destroy(View(m, [p, a]), a).0, Destroy(View(m, [p, a]), a).1);
    m1 := LDestroy(m, a).1;
    KilledLinks(m, p, a);
    KillNext(m, p, a, m1);
  }

  /**
   A child in a slot that was queued before, with another env queued since: after the error path
   of spawn no queue satisfies the invariant, although the child was stopped and waited for
   nothing; the other env is runnable and no pointer leads to it.
   */
  lemma ReusedSlotLosesEnv(m: Machine, p: nat, a: nat, b: nat)
    returns (m1: Machine, m2: Machine, m3: Machine, m4: Machine)
    requires Good(m, [p, a]) && m.cur == Some(p) && a < NENV && b < NENV && Unstarted(m, b)
    ensures LNext(m, [p, a], Kill(a), m1, [p]) && LNext(m1, [p], Start(b), m2, [p, b])
    ensures LNext(m2, [p, b], Fork(SpaceMade), m3, [p, b])
    ensures Good(m3, [p, b]) && Unstarted(m3, a) && m3.cur == Some(p) && p < NENV && m3.free == m.free
    ensures (Ok(0), m4) == LDestroy(m3, a) && !exists q' :: Good(m4, q')
    ensures |m4.envs| == NENV == |m4.l.next| && m4.envs[b].status == Runnable && m4.l.next[p] == None
  {
    ReuseFacts(m, p, a, b);
    hide Q.Linked, Q.Ranged, Q.Queued, Inv, Between;
    m1 := KilledSecond(m, p, a);
    m2 := Started(m1, [p], b);
    assert LApply(m1, [p], Start(b)) == m2;
    assert [p] + [b] == [p, b];
    var e;
    m3, e := Forked(m2, [p, b]);
    assert LApply(m2, [p, b], Fork(SpaceMade)) == m3;
    m4 := StaleLinkCuts(m3, p, a, b);
  }

  /** The removal of `a`, whose links still say that it follows `p` at the end. */
  lemma StaleLinkCuts(m: Machine, p: nat, a: nat, b: nat) returns (m': Machine)
    requires Good(m, [p, b]) && m.cur == Some(p) && a < NENV && p < NENV && b < NENV && Unstarted(m, a)
    requires m.l.next[a] == None && m.l.prev[a] == Q.NextOf(p) && b != a && m.envs[b].status == Runnable
    ensures (Ok(0), m') == LDestroy(m, a) && !exists q' :: Good(m', q')
    ensures |m'.envs| == NENV == |m'.l.next| && m'.envs[b].status == Runnable && m'.l.next[p] == None
  {
    m' := LDestroy(m, a).1;
    Q.LinksAt(m.l, [p, b], 1);
    hide Q.Ranged, Q.Linked, Inv;
    DestroyExact(m, [p, b], a);
    StoppedDestroyed(m, [p, b], a);
  }

  lemma PairDistinct(m: Machine, p: nat, a: nat)
    requires Good(m, [p, a])
    ensures p != a
  {
    assert Distinct([p, a]);
    assert [p, a][0] != [p, a][1];
  }

  /** The links of the second of two envs stay as they were when it is destroyed. */
  lemma KilledLinks(m: Machine, p: nat, a: nat)
    requires Good(m, [p, a]) && m.cur == Some(p) && p != a && a < NENV && p < NENV && m.envs[a].status == Runnable
    ensures var m1 := LDestroy(m, a).1;
      && m1.l.next == m.l.next[p := None] && m1.l.prev == m.l.prev && m1.last == Q.NextOf(p)
      && m1.l.next[a] == None && m1.l.prev[a] == Q.NextOf(p) && m1.free == [a] + m.free
      && m1.envs == m.envs[a := m.envs[a].(status := Free)] && m1.cur == m.cur
  {
    hide Inv, Q.Ranged;
    Q.LinksAt(m.l, [p, a], 1);
    Q.LinksAt(m.l, [p, a], 0);
  }

  lemma KillNext(m: Machine, p: nat, a: nat, m1: Machine)
    requires Good(m, [p, a]) && m.cur == Some(p) && p < NENV && a < NENV && m.envs[a].status == Runnable
    requires m1 == LDestroy(m, a).1 && Good(m1, [p])
    ensures LNext(m, [p, a], Kill(a), m1, [p])
  {
    RunnableIdle(View(m, [p, a]), a);
    InRangeLinks(m, a);
    hide Q.Linked, Q.Ranged, Inv;
  }

  // ---- both inputs are reached from boot ----

  /** One env made at boot and dispatched. */
  ghost function FirstRun(): Machine {
    BootGood();
    CreateGood(Boot(), [], 1);
    LSchedule(LCreate(Boot(), 1), true).1
  }

  lemma FirstRunGood()
    ensures var m := FirstRun();
      && Good(m, [0]) && m.cur == Some(0) && |m.free| == NENV - 1
      && (forall i :: 0 <= i < NENV - 1 ==> m.free[i] == i + 1)
      && (forall e :: 1 <= e < NENV ==> m.envs[e] == Boot().envs[e] && m.l.prev[e] == Q.Null)
  {
    BootGood();
    CreateGood(Boot(), [], 1);
    var m := LCreate(Boot(), 1);
    assert [0] + [] == [0];
    hide Q.Linked, Q.Ranged, Inv;
    NoCurBetween(View(m, [0]));
    ScheduleLinks(m, [0], true);
    ScheduleKeeps(View(m, [0]), true, Schedule(View(m, [0]), true).0, Schedule(View(m, [0]), true).1);
  }

  lemma NoCurBetween(s: Sys)
    requires Inv(s) && s.cur == None
    ensures Between(s)
  {
  }

  ghost predicate LReached(m: Machine, q: seq<nat>) {
    exists ms, qs, steps ::
      IsLRun(ms, qs, steps) && ms[0] == FirstRun() && qs[0] == [0] && ms[|steps|] == m && qs[|steps|] == q
  }

  lemma ReachedFirst()
    ensures LReached(FirstRun(), [0])
  {
    var ms, qs, steps: seq<Step> := [FirstRun()], [[0]], [];
    assert IsLRun(ms, qs, steps) && ms[0] == FirstRun() && qs[0] == [0];
  }

  lemma ReachNext(m: Machine, q: seq<nat>, st: Step, m': Machine, q': seq<nat>)
    requires LReached(m, q) && LNext(m, q, st, m', q')
    ensures LReached(m', q')
  {
    hide LNext, FirstRun;
    var ms, qs, steps :|
      IsLRun(ms, qs, steps) && ms[0] == FirstRun() && qs[0] == [0] && ms[|steps|] == m && qs[|steps|] == q;
    var ms', qs', steps' := ms + [m'], qs + [q'], steps + [st];
    forall i | 0 <= i < |steps'|
      ensures LNext(ms'[i], qs'[i], steps'[i], ms'[i + 1], qs'[i + 1])
    {
      if i < |steps| { assert LNext(ms[i], qs[i], steps[i], ms[i + 1], qs[i + 1]); }
    }
    assert IsLRun(ms', qs', steps') && ms'[0] == FirstRun() && qs'[0] == [0];
  }

  /** A fork, and the start of the child, as steps of a run. */
  lemma ReachFork(m: Machine, q: seq<nat>) returns (m': Machine, e: nat)
    requires LReached(m, q) && Good(m, q) && m.cur.Some? && m.free != []
    ensures LReached(m', q) && Good(m', q) && e == m.free[0] < NENV && m'.free == m.free[1..] && m'.cur == m.cur
    ensures |m.envs| == NENV == |m'.envs| && m'.envs[e].status == NotRunnable
    ensures m'.envs[e].recving == m.envs[e].recving && m'.envs[e].waiting == m.envs[e].waiting
    ensures forall x :: 0 <= x < NENV && x != e ==> m'.envs[x] == m.envs[x]
    ensures m'.l == m.l && m'.last == m.last
  {
    m', e := Forked(m, q);
    assert LApply(m, q, Fork(SpaceMade)) == m';
    hide Q.Linked, Q.Ranged, Inv, LReached;
    ReachNext(m, q, Fork(SpaceMade), m', q);
  }

  lemma ReachStart(m: Machine, q: seq<nat>, e: nat) returns (m': Machine)
    requires LReached(m, q) && Good(m, q) && m.cur.Some? && Unstarted(m, e) && e < NENV
    ensures LReached(m', q + [e]) && Good(m', q + [e]) && m'.free == m.free && m'.cur == m.cur
    ensures m'.envs == m.envs[e := m.envs[e].(status := Runnable)]
  {
    CurInRange(View(m, q));
    m' := Started(m, q, e);
    assert LApply(m, q, Start(e)) == m';
    hide Q.Linked, Q.Ranged, Inv, LReached;
    ReachNext(m, q, Start(e), m', q + [e]);
  }

  /** A run from boot, and the destruction of its first child, which panics. */
  lemma SpawnErrorPanics() returns (m: Machine)
    ensures LReached(m, [0]) && Good(m, [0]) && Unstarted(m, 1) && (m.cur.Some? ==> m.cur.value < NENV)
    ensures LDestroy(m, 1).0.Panic?
  {
    FirstRunGood();
    ReachedFirst();
    hide Q.Linked, Q.Ranged, Inv, LReached, FirstRun;
    var e;
    m, e := ReachFork(FirstRun(), [0]);
    NeverQueuedPanics(m, [0], 1);
  }

  /** A run from boot, and the destruction of a child in a reused slot, after which env 2 is lost. */
  lemma SpawnErrorLosesEnv() returns (m: Machine, m': Machine)
    ensures LReached(m, [0, 2]) && Good(m, [0, 2]) && Unstarted(m, 1) && (m.cur.Some? ==> m.cur.value < NENV)
    ensures (Ok(0), m') == LDestroy(m, 1) && !exists q' :: Good(m', q')
    ensures |m'.envs| == NENV == |m'.l.next| && m'.envs[2].status == Runnable && m'.l.next[0] == None
  {
    FirstRunGood();
    ReachedFirst();
    hide Q.Linked, Q.Ranged, Inv, LReached, FirstRun, LNext;
    var m1, e1 := ReachFork(FirstRun(), [0]);
    var m2 := ReachStart(m1, [0], 1);
    assert [0] + [1] == [0, 1];
    var m3, e3 := ReachFork(m2, [0, 1]);
    var m4, m5;
    m4, m5, m, m' := ReusedSlotLosesEnv(m3, 0, 1, 2);
    ReachNext(m3, [0, 1], Kill(1), m4, [0]);
    ReachNext(m4, [0], Start(2), m5, [0, 2]);
    ReachNext(m5, [0, 2], Fork(SpaceMade), m, [0, 2]);
  }

  // ---- destroying a receiver ----

  /**
   After the destruction of an env that was blocked in a receive, clean as its removal may be,
   the next child takes its place with the mailbox still open: a send makes it runnable before
   its parent has set it up.
   */
  lemma DestroyedReceiverReceives(m: Machine, q: seq<nat>, e: nat, value: nat)
    requires Good(m, q) && m.cur.Some? && e < NENV
    requires m.envs[e].status == NotRunnable && m.envs[e].recving && RemovesCleanly(m, q, e)
    ensures m.cur.value < NENV && LDestroy(m, e).0 == Ok(0)
    ensures var m1 := LDestroy(m, e).1;
      && Rep(m1, q) && m1.cur == m.cur
      && var (r, m2) := LExofork(m1, SpaceMade);
         && r.Ok? && Rep(m2, q) && m2.cur == m.cur && |m2.envs| == NENV && m2.envs[e].id == r.value
         && m2.envs[e].status == NotRunnable
         && LSend(m2, true, r.value, value, NoPage).0.Ok?
         && |LSend(m2, true, r.value, value, NoPage).1.envs| == NENV
         && LSend(m2, true, r.value, value, NoPage).1.envs[e].status == Runnable
  {
    CurInRange(View(m, q));
    CleanMeansSound(m, q, e);
    var m1 := LDestroy(m, e).1;
    hide Q.Linked, Q.Ranged, Q.Queued, Inv, LDestroy;
    ChildReceives(m1, e, value);
  }

  /** A child made in a slot with an open mailbox can be sent to, and then runs. */
  lemma ChildReceives(m: Machine, e: nat, value: nat)
    requires Ready(m) && m.cur.Some? && m.cur.value < NENV && e < NENV && m.free != [] && m.free[0] == e
    requires m.envs[e].recving && m.cur != Some(e)
    ensures var (r, m2) := LExofork(m, SpaceMade);
      && r.Ok? && Ready(m2) && m2.l == m.l && m2.last == m.last && m2.cur == m.cur && |m2.envs| == NENV
      && m2.envs[e].id == r.value && m2.envs[e].status == NotRunnable
      && LSend(m2, true, r.value, value, NoPage).0.Ok?
      && |LSend(m2, true, r.value, value, NoPage).1.envs| == NENV
      && LSend(m2, true, r.value, value, NoPage).1.envs[e].status == Runnable
  {
    IdFacts(m.gen + 1, e, m.gen + 1);
    hide Q.Linked, Q.Ranged, Q.Queued;
  }

  /** An env that has just blocked is removed cleanly while nothing has been queued since. */
  lemma JustBlockedIsClean(m: Machine, q: seq<nat>, e: nat)
    requires Rep(m, q) && e in q && e < NENV
    ensures Cut(m, e).Some?
    ensures var m1 := Cut(m, e).value;
      Q.LinksInRange(m1.l, e) && Q.WritesNothingNew(m1.l, m1.last, Remove(q, e), e)
  {
    CutQueued(m, q, e);
    var i := RemoveIsDelete(q, e);
    Q.SecondUnlinkHarmless(m.l, m.last, q, i);
  }
}
