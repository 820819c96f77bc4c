/**
 Environments as the scheduler and IPC see them: kern/sched.c, the env life cycle of
 kern/env.c and the blocking system calls of kern/syscall_all.c.
 */
module Sched {
  import opened Wrappers

  const NENV: nat := 1024

  datatype Status = Free | Runnable | NotRunnable

  datatype Env = Env(
    id: nat, parent: nat, status: Status, pri: nat,
    recving: bool, waiting: bool, value: nat, from: nat, returned: nat)

  /** `gen` is the counter inside mkenvid, `count` the static counter inside schedule. */
  datatype Sys = Sys(envs: seq<Env>, free: seq<nat>, queue: seq<nat>, cur: Option<nat>, count: int, gen: nat)

  datatype Errno = Ok(value: nat) | BadEnv | Inval | NoMem | NoFreeEnv | NotRecv | Panic

  // ---- helpers for env_sched_list ----

  /** TAILQ_REMOVE of an element of the queue. */
  function Remove(q: seq<nat>, x: nat): seq<nat> {
    if q == [] then [] else if q[0] == x then q[1..] else [q[0]] + Remove(q[1..], x)
  }

  predicate IsRunnable(s: Sys, e: nat) { e < |s.envs| && s.envs[e].status == Runnable }

  // ---- kern/sched.c ----

  /** schedule(yield); Panic stands for "no runnable envs". */
  function Schedule(s: Sys, yield_: bool): (Errno, Sys)
    requires forall i :: 0 <= i < |s.queue| ==> s.queue[i] < |s.envs|
    requires s.cur.Some? ==> s.cur.value < |s.envs|
  {
    var stays := s.cur.Some? && s.envs[s.cur.value].status == Runnable;
    if yield_ || s.count == 0 || !stays then
      var q := if stays then Remove(s.queue, s.cur.value) + [s.cur.value] else s.queue;
      if q == [] then (Panic, s)
      else if q[0] >= |s.envs| then (Panic, s)
      else (Ok(q[0]), s.(queue := q, cur := Some(q[0]), count := s.envs[q[0]].pri - 1))
    else (Ok(s.cur.value), s.(count := s.count - 1))
  }

  // ---- env ids ----

  /** mkenvid without the 32-bit wrap: generation shifted by 1 + LOG2NENV, index below. */
  function MakeId(gen: nat, e: nat): nat { gen * 2048 + e }

  function EnvX(id: nat): nat { id % 1024 }

  /** envid2env. */
  function EnvIdToEnv(s: Sys, id: nat, checkperm: bool): Option<nat>
    requires |s.envs| == NENV && s.cur.Some? && s.cur.value < NENV
  {
    if id == 0 then s.cur
    else
      var e := s.envs[EnvX(id)];
      var me := s.envs[s.cur.value];
      if e.status == Free || e.id != id then None
      else if checkperm && e.id != me.id && e.parent != me.id then None
      else Some(EnvX(id))
  }

  /** An id has the env's index in its low ten bits and the generation above bit ten. */
  lemma IdLayout(gen: nat, e: nat)
    requires e < NENV
    ensures NENV == 1024 && MakeId(gen, e) % 1024 == e && MakeId(gen, e) / 2048 == gen
  {
    ModIndex(2 * gen, e);
    assert MakeId(gen, e) == 2048 * gen + e;
  }

  // ---- life cycle ----

  /** How setting up the address space of a new env ends. */
  datatype SpaceOutcome = SpaceMade | NoFrame | NoAsid

  /**
   env_alloc for the scheduler's part, then the rest of sys_exofork. The env leaves the free
   list last, so a failure leaves everything here as it was.
   */
  function Exofork(s: Sys, space: SpaceOutcome): (Errno, Sys)
    requires |s.envs| == NENV && s.cur.Some? && s.cur.value < NENV
  {
    if s.free == [] then (NoFreeEnv, s)
    else if space == NoFrame then (NoMem, s)
    else if space == NoAsid then (NoFreeEnv, s)
    else if s.free[0] >= NENV then (Panic, s)
    else
      var e := s.free[0];
      var me := s.envs[s.cur.value];
      var id := MakeId(s.gen + 1, e);
      var env := s.envs[e].(id := id, parent := me.id, status := NotRunnable, pri := me.pri);
      (Ok(id), s.(envs := s.envs[e := env], free := s.free[1..], gen := s.gen + 1))
  }

  /** sys_set_env_status on the env with index `e`. */
  function SetStatus(s: Sys, e: nat, status: Status): (Errno, Sys)
    requires e < |s.envs|
  {
    if status == Free then (Inval, s)
    else
      var q := if s.envs[e].status == status then s.queue
               else if status == Runnable then s.queue + [e] else Remove(s.queue, e);
      (Ok(0), s.(queue := q, envs := s.envs[e := s.envs[e].(status := status)]))
  }

  /**
   env_free and env_destroy of an env that is on the queue: back to the free list, off the queue,
   reschedule if it was us. Module SchedLinks has the other envs, where the links decide.
   */
  function Destroy(s: Sys, e: nat): (Errno, Sys)
    requires forall i :: 0 <= i < |s.queue| ==> s.queue[i] < |s.envs|
    requires IsRunnable(s, e)
  {
    var s1 := s.(envs := s.envs[e := s.envs[e].(status := Free)], free := [e] + s.free, queue := Remove(s.queue, e));
    RemoveBounded(s.queue, e, |s.envs|);
    if s.cur == Some(e) then Schedule(s1.(cur := None), true) else (Ok(0), s1)
  }

  // ---- IPC ----

  /** sys_ipc_recv and sys_recv_return_value: block the caller and schedule another env. */
  function Block(s: Sys, ipc: bool): (Errno, Sys)
    requires forall i :: 0 <= i < |s.queue| ==> s.queue[i] < |s.envs|
    requires s.cur.Some? && s.cur.value < |s.envs|
  {
    var c := s.cur.value;
    var env := if ipc then s.envs[c].(recving := true, status := NotRunnable)
               else s.envs[c].(waiting := true, status := NotRunnable);
    RemoveBounded(s.queue, c, |s.envs|);
    Schedule(s.(envs := s.envs[c := env], queue := Remove(s.queue, c)), true)
  }

  /** The outcome of mapping the page at srcva, for a send that carries one. */
  datatype PageOutcome = NoPage | IllegalVa | Unmapped | NoTable | Mapped

  function WakeEnv(env: Env, ipc: bool, value: nat, from: nat): Env {
    if ipc then env.(value := value, from := from, recving := false, status := Runnable)
    else env.(value := value, from := from, recving := false, waiting := false, returned := value, status := Runnable)
  }

  /** sys_ipc_try_send and sys_send_return_value; the page is mapped last, after the wake-up. */
  function Send(s: Sys, ipc: bool, to: nat, value: nat, page: PageOutcome): (Errno, Sys)
    requires |s.envs| == NENV && s.cur.Some? && s.cur.value < NENV
  {
    if page == IllegalVa then (Inval, s)
    else
      var t := EnvIdToEnv(s, to, false);
      if t.None? then (BadEnv, s)
      else
        var e := t.value;
        if !(if ipc then s.envs[e].recving else s.envs[e].waiting) then (NotRecv, s)
        else
          var s1 := s.(envs := s.envs[e := WakeEnv(s.envs[e], ipc, value, s.envs[s.cur.value].id)],
                       queue := s.queue + [e]);
          (if page == Unmapped then Inval else if page == NoTable then NoMem else Ok(0), s1)
  }

  lemma {:induction q} RemoveBounded(q: seq<nat>, x: nat, n: nat)
    requires forall i :: 0 <= i < |q| ==> q[i] < n
    ensures forall i :: 0 <= i < |Remove(q, x)| ==> Remove(q, x)[i] < n
  {
  }

  // ---- invariant ----

  ghost predicate Distinct(q: seq<nat>) { forall i, j :: 0 <= i < j < |q| ==> q[i] != q[j] }

  /** An env is in env_sched_list exactly once if and only if it is RUNNABLE. */
  ghost predicate QueueOk(s: Sys) {
    && Distinct(s.queue)
    && (forall e: nat :: e in s.queue <==> IsRunnable(s, e))
  }

  ghost predicate FreeOk(s: Sys) {
    && Distinct(s.free)
    && (forall e: nat :: e in s.free <==> e < |s.envs| && s.envs[e].status == Free)
  }

  /** An env waits in at most one mailbox, and only while it is blocked. */
  ghost predicate MailOk(s: Sys) {
    forall e :: 0 <= e < |s.envs| ==>
      && !(s.envs[e].recving && s.envs[e].waiting)
      && (s.envs[e].recving || s.envs[e].waiting ==> s.envs[e].status == NotRunnable)
      && (s.envs[e].status != Free ==> s.envs[e].pri >= 1)
  }

  /** Live ids carry their index and a generation that has been handed out. */
  ghost predicate IdsOk(s: Sys) {
    forall e :: 0 <= e < |s.envs| && s.envs[e].status != Free ==>
      exists g: nat :: 1 <= g <= s.gen && s.envs[e].id == MakeId(g, e)
  }

  /** The current env, once there is one, heads the queue with less than its priority left. */
  ghost predicate CurOk(s: Sys) {
    s.cur.Some? ==>
      && s.queue != [] && s.queue[0] == s.cur.value && s.cur.value < |s.envs|
      && 0 <= s.count < s.envs[s.cur.value].pri
  }

  ghost predicate Inv(s: Sys) {
    |s.envs| == NENV && QueueOk(s) && FreeOk(s) && MailOk(s) && IdsOk(s) && CurOk(s)
  }

  // ---- the queue ----

  lemma {:induction false} RemoveMembers(q: seq<nat>, x: nat)
    requires Distinct(q)
    ensures Distinct(Remove(q, x))
    ensures forall y :: y in Remove(q, x) <==> y in q && y != x
    ensures q != [] && q[0] != x ==> Remove(q, x) != [] && Remove(q, x)[0] == q[0]
  {
    if q != [] {
      assert Distinct(q[1..]);
      RemoveMembers(q[1..], x);
      assert forall y :: y in q <==> y == q[0] || y in q[1..];
      if q[0] != x {
        assert q[0] !in q[1..];
        assert forall y :: y in Remove(q, x) <==> y == q[0] || y in Remove(q[1..], x);
      } else {
        assert x !in q[1..];
      }
    }
  }

  lemma AppendMembers(q: seq<nat>, x: nat)
    requires Distinct(q) && x !in q
    ensures Distinct(q + [x])
    ensures forall y :: y in q + [x] <==> y in q || y == x
  {
  }

  // ---- every step keeps the invariant ----

  /** The state in which schedule is called: the current env may just have blocked or died. */
  ghost predicate Between(s: Sys) {
    && |s.envs| == NENV && QueueOk(s) && FreeOk(s) && MailOk(s) && IdsOk(s)
    && (s.cur.Some? && s.cur.value < NENV && s.envs[s.cur.value].status == Runnable ==> CurOk(s))
    && (s.cur.Some? ==> s.cur.value < NENV)
  }

  /** schedule dispatches a runnable env and leaves it at the head of the queue. */
  lemma ScheduleKeeps(s: Sys, yield_: bool, r: Errno, s': Sys)
    requires Between(s) && forall i :: 0 <= i < |s.queue| ==> s.queue[i] < |s.envs|
    requires (r, s') == Schedule(s, yield_)
    ensures r.Panic? <==> s.queue == []
    ensures r.Panic? ==> s' == s
    ensures !r.Panic? ==> Inv(s') && s'.cur.Some? && IsRunnable(s', s'.cur.value) && r == Ok(s'.cur.value)
    ensures s'.envs == s.envs && (forall e: nat :: e in s'.queue <==> e in s.queue)
    ensures !r.Panic? && yield_ && |s.queue| > 1 && s.cur.Some? && IsRunnable(s, s.cur.value) ==> s'.cur != s.cur
  {
    var stays := s.cur.Some? && s.envs[s.cur.value].status == Runnable;
    if stays {
      var c := s.cur.value;
      RemoveMembers(s.queue, c);
      AppendMembers(Remove(s.queue, c), c);
      assert Remove(s.queue, c) == s.queue[1..];
    }
    if !r.Panic? { ScheduleInv(s, yield_, s'); }
  }

  lemma ScheduleInv(s: Sys, yield_: bool, s': Sys)
    requires Between(s) && forall i :: 0 <= i < |s.queue| ==> s.queue[i] < |s.envs|
    requires s' == Schedule(s, yield_).1 && !Schedule(s, yield_).0.Panic?
    ensures Inv(s')
  {
    var stays := s.cur.Some? && s.envs[s.cur.value].status == Runnable;
    if stays {
      var c := s.cur.value;
      RemoveMembers(s.queue, c);
      AppendMembers(Remove(s.queue, c), c);
    }
    assert Distinct(s'.queue) && forall e: nat :: e in s'.queue <==> e in s.queue;
    assert s'.queue[0] in s'.queue;
    assert IsRunnable(s', s'.queue[0]);
  }

  /** An in-range queue, as the functions above require. */
  lemma QueueInRange(s: Sys)
    requires |s.envs| == NENV && QueueOk(s)
    ensures forall i :: 0 <= i < |s.queue| ==> s.queue[i] < |s.envs|
  {
    forall i | 0 <= i < |s.queue|
      ensures s.queue[i] < |s.envs|
    {
      assert s.queue[i] in s.queue;
    }
  }

  lemma BlockKeeps(s: Sys, ipc: bool, r: Errno, s': Sys)
    requires Inv(s) && s.cur.Some? && s.cur.value < NENV
    requires forall i :: 0 <= i < |s.queue| ==> s.queue[i] < |s.envs|
    requires (r, s') == Block(s, ipc)
    ensures r.Panic? <==> |s.queue| == 1
    ensures !r.Panic? ==> Inv(s') && s'.cur != s.cur && s'.cur.Some?
    ensures var c := s.cur.value;
      s'.envs == s.envs[c := if ipc then s.envs[c].(recving := true, status := NotRunnable)
                             else s.envs[c].(waiting := true, status := NotRunnable)]
  {
    var c := s.cur.value;
    assert IsRunnable(s, c);
    RemoveMembers(s.queue, c);
    assert Remove(s.queue, c) == s.queue[1..];
    RemoveBounded(s.queue, c, NENV);
    var env := if ipc then s.envs[c].(recving := true, status := NotRunnable)
               else s.envs[c].(waiting := true, status := NotRunnable);
    var s1 := s.(envs := s.envs[c := env], queue := Remove(s.queue, c));
    BlockBetween(s, s1, c);
    ScheduleKeeps(s1, true, r, s');
  }

  lemma BlockBetween(s: Sys, s1: Sys, c: nat)
    requires Inv(s) && s.cur == Some(c) && c < NENV && IsRunnable(s, c)
    requires s1 == s.(envs := s1.envs, queue := Remove(s.queue, c))
    requires s1.envs == s.envs[c := s.envs[c].(recving := true, status := NotRunnable)] ||
             s1.envs == s.envs[c := s.envs[c].(waiting := true, status := NotRunnable)]
    ensures Between(s1)
  {
    RemoveMembers(s.queue, c);
    forall e | 0 <= e < |s1.envs| && s1.envs[e].status != Free
      ensures exists g: nat :: 1 <= g <= s1.gen && s1.envs[e].id == MakeId(g, e)
    {
      assert s.envs[e].status != Free;
    }
  }

  lemma DestroyKeeps(s: Sys, e: nat, r: Errno, s': Sys)
    requires Inv(s) && IsRunnable(s, e)
    requires forall i :: 0 <= i < |s.queue| ==> s.queue[i] < |s.envs|
    requires (r, s') == Destroy(s, e)
    ensures !r.Panic? ==> Inv(s')
    ensures r.Panic? <==> s.cur == Some(e) && |s.queue| == 1
    ensures s'.envs == s.envs[e := s.envs[e].(status := Free)]
  {
    RemoveMembers(s.queue, e);
    RemoveBounded(s.queue, e, NENV);
    var s1 := s.(envs := s.envs[e := s.envs[e].(status := Free)], free := [e] + s.free, queue := Remove(s.queue, e));
    DestroyBetween(s, s1, e);
    if s.cur == Some(e) {
      assert Remove(s.queue, e) == s.queue[1..];
      ScheduleKeeps(s1.(cur := None), true, r, s');
    }
  }

  lemma CurIsRunnable(s: Sys)
    requires Inv(s) && s.cur.Some?
    ensures IsRunnable(s, s.cur.value)
  {
    assert s.queue[0] in s.queue;
  }

  /**
   An env that is not on the queue is given back and the queue stays as it is: the invariant is
   kept if and only if the env was not blocked in a receive.
   */
  lemma StoppedGone(s: Sys, s1: Sys, e: nat)
    requires Inv(s) && e < NENV && s.envs[e].status == NotRunnable
    requires s1 == s.(envs := s.envs[e := s.envs[e].(status := Free)], free := [e] + s.free)
    ensures Inv(s1) <==> !s.envs[e].recving && !s.envs[e].waiting
    ensures QueueOk(s1)
  {
    if s.cur.Some? { CurIsRunnable(s); }
    if s.envs[e].recving || s.envs[e].waiting {
      assert s1.envs[e].status == Free && !MailOk(s1);
    } else {
      RemoveAbsent(s.queue, e);
      DestroyBetween(s, s1, e);
    }
  }

  lemma {:induction false} RemoveAbsent(q: seq<nat>, x: nat)
    requires x !in q
    ensures Remove(q, x) == q
  {
    if q != [] { RemoveAbsent(q[1..], x); }
  }

  lemma DestroyBetween(s: Sys, s1: Sys, e: nat)
    requires Inv(s) && e < NENV && s.envs[e].status != Free && !s.envs[e].recving && !s.envs[e].waiting
    requires s1 == s.(envs := s.envs[e := s.envs[e].(status := Free)], free := [e] + s.free,
                      queue := Remove(s.queue, e))
    ensures Between(s1.(cur := None))
    ensures s.cur != Some(e) ==> Inv(s1)
  {
    RemoveMembers(s.queue, e);
    assert e !in s.free;
    forall x | 0 <= x < |s1.envs| && s1.envs[x].status != Free
      ensures exists g: nat :: 1 <= g <= s1.gen && s1.envs[x].id == MakeId(g, x)
    {
      assert s.envs[x].status != Free;
    }
    assert FreeOk(s1) && QueueOk(s1) && MailOk(s1);
  }

  /** The next id is larger than every id in use. */
  lemma NewId(s: Sys, e: nat)
    requires Inv(s) && e < NENV
    ensures forall x :: 0 <= x < NENV && s.envs[x].status != Free ==> s.envs[x].id < MakeId(s.gen + 1, e)
  {
    forall x | 0 <= x < NENV && s.envs[x].status != Free
      ensures s.envs[x].id < MakeId(s.gen + 1, e)
    {
      var g: nat :| 1 <= g <= s.gen && s.envs[x].id == MakeId(g, x);
      IdFacts(g, x, s.gen);
    }
  }

  lemma ExoforkKeeps(s: Sys, space: SpaceOutcome, r: Errno, s': Sys)
    requires Inv(s) && s.cur.Some? && s.cur.value < NENV && (r, s') == Exofork(s, space)
    ensures Inv(s') && !r.Panic?
    ensures r.NoFreeEnv? <==> s.free == [] || space == NoAsid
    ensures r.NoMem? <==> s.free != [] && space == NoFrame
    ensures !r.Ok? ==> s' == s
    ensures r.Ok? ==>
              && s.free != [] && s.free[0] < NENV && s'.envs[s.free[0]].id == r.value
              && s'.envs[s.free[0]].status == NotRunnable && s'.envs[s.free[0]].parent == s.envs[s.cur.value].id
              && s'.envs[s.free[0]].pri == s.envs[s.cur.value].pri
              && (forall x :: 0 <= x < NENV && x != s.free[0] ==> s'.envs[x] == s.envs[x])
              && s'.queue == s.queue && s'.free == s.free[1..] && s'.cur == s.cur && s'.count == s.count
    ensures r.Ok? ==> forall x :: 0 <= x < NENV && s.envs[x].status != Free ==> s.envs[x].id != r.value
  {
    if s.free != [] && space == SpaceMade {
      var e := s.free[0];
      assert e in s.free;
      assert IsRunnable(s, s.cur.value);
      NewId(s, e);
      forall x | 0 <= x < |s'.envs| && s'.envs[x].status != Free
        ensures exists g: nat :: 1 <= g <= s'.gen && s'.envs[x].id == MakeId(g, x)
      {
        if x == e {
          assert s'.envs[x].id == MakeId(s'.gen, x);
        } else {
          var g: nat :| 1 <= g <= s.gen && s.envs[x].id == MakeId(g, x);
        }
      }
      forall x: nat
        ensures x in s'.free <==> x < |s'.envs| && s'.envs[x].status == Free
      {
        assert x in s.free <==> x == e || x in s.free[1..];
      }
      assert QueueOk(s');
    }
  }

  /** sys_set_env_status(RUNNABLE) on any env that is stopped. */
  lemma StartKeeps(s: Sys, e: nat, r: Errno, s': Sys)
    requires Inv(s) && e < NENV && s.envs[e].status == NotRunnable
    requires (r, s') == SetStatus(s, e, Runnable)
    ensures r == Ok(0) && s'.queue == s.queue + [e] && s'.envs == s.envs[e := s.envs[e].(status := Runnable)]
    ensures Inv(s') <==> !s.envs[e].recving && !s.envs[e].waiting
    ensures QueueOk(s')
  {
    assert e !in s.queue;
    AppendMembers(s.queue, e);
    assert s'.envs[e].status == Runnable;
    assert s.envs[e].recving || s.envs[e].waiting ==> !MailOk(s');
    forall x | 0 <= x < |s'.envs| && s'.envs[x].status != Free
      ensures exists g: nat :: 1 <= g <= s'.gen && s'.envs[x].id == MakeId(g, x)
    {
      assert s.envs[x].status != Free;
    }
  }

  /** sys_set_env_status(NOT_RUNNABLE) on a runnable env: it leaves the queue. */
  lemma StopKeeps(s: Sys, e: nat, r: Errno, s': Sys)
    requires Inv(s) && IsRunnable(s, e) && (r, s') == SetStatus(s, e, NotRunnable)
    ensures r == Ok(0) && s'.envs == s.envs[e := s.envs[e].(status := NotRunnable)] && e !in s'.queue
    ensures QueueOk(s') && (Inv(s') <==> s.cur != Some(e))
  {
    RemoveMembers(s.queue, e);
    forall x | 0 <= x < |s'.envs| && s'.envs[x].status != Free
      ensures exists g: nat :: 1 <= g <= s'.gen && s'.envs[x].id == MakeId(g, x)
    {
      assert s.envs[x].status != Free;
    }
    assert FreeOk(s') && MailOk(s') && QueueOk(s');
  }

  lemma EnvInRange(s: Sys, id: nat)
    requires |s.envs| == NENV && s.cur.Some? && s.cur.value < NENV
    ensures EnvIdToEnv(s, id, false).Some? ==> EnvIdToEnv(s, id, false).value < NENV
  {
  }

  /** The send finds a receiver blocked on that mailbox. */
  predicate Wakes(s: Sys, ipc: bool, to: nat, page: PageOutcome)
    requires |s.envs| == NENV && s.cur.Some? && s.cur.value < NENV
  {
    && page != IllegalVa && EnvIdToEnv(s, to, false).Some? && EnvIdToEnv(s, to, false).value < NENV
    && var e := EnvIdToEnv(s, to, false).value; if ipc then s.envs[e].recving else s.envs[e].waiting
  }

  /**
   A send either changes nothing or wakes exactly one blocked receiver, whose mailbox then holds
   the value and the sender's id; sys_send_return_value leaves the value as the return value as
   well, sys_ipc_try_send leaves that one alone. Every successful send wakes. (A send whose page
   is not mapped returns an error although it has woken the receiver.)
   */
  lemma SendKeeps(s: Sys, ipc: bool, to: nat, value: nat, page: PageOutcome, r: Errno, s': Sys)
    requires Inv(s) && s.cur.Some? && s.cur.value < NENV && (r, s') == Send(s, ipc, to, value, page)
    ensures Inv(s')
    ensures r.Ok? <==> Wakes(s, ipc, to, page) && page in {NoPage, Mapped}
    ensures r == Inval <==> page == IllegalVa || (Wakes(s, ipc, to, page) && page == Unmapped)
    ensures r == NoMem <==> Wakes(s, ipc, to, page) && page == NoTable
    ensures r == BadEnv <==> page != IllegalVa && EnvIdToEnv(s, to, false).None?
    ensures r == NotRecv <==>
              page != IllegalVa && EnvIdToEnv(s, to, false).Some? && !Wakes(s, ipc, to, page)
    ensures !Wakes(s, ipc, to, page) ==> s' == s
    ensures Wakes(s, ipc, to, page) ==>
              var e := EnvIdToEnv(s, to, false).value;
              && s.envs[e].status == NotRunnable && e !in s.queue && s'.queue == s.queue + [e]
              && s'.envs == s.envs[e := WakeEnv(s.envs[e], ipc, value, s.envs[s.cur.value].id)]
              && s'.envs[e].status == Runnable && !s'.envs[e].recving && !s'.envs[e].waiting
              && s'.envs[e].value == value && s'.envs[e].from == s.envs[s.cur.value].id
              && s'.envs[e].returned == (if ipc then s.envs[e].returned else value)
              && s'.envs[e].id == s.envs[e].id && s'.envs[e].parent == s.envs[e].parent
              && s'.envs[e].pri == s.envs[e].pri
              && (forall x :: 0 <= x < NENV && x != e ==> s'.envs[x] == s.envs[x])
    ensures s'.cur == s.cur && s'.free == s.free && s'.count == s.count && s'.gen == s.gen
  {
    EnvInRange(s, to);
    if Wakes(s, ipc, to, page) {
      var e := EnvIdToEnv(s, to, false).value;
      assert e !in s.queue;
      AppendMembers(s.queue, e);
      SendInv(s, e, ipc, value, s');
    }
  }

  lemma SendInv(s: Sys, e: nat, ipc: bool, value: nat, s': Sys)
    requires Inv(s) && s.cur.Some? && s.cur.value < NENV && e < NENV
    requires if ipc then s.envs[e].recving else s.envs[e].waiting
    requires s' == s.(envs := s.envs[e := WakeEnv(s.envs[e], ipc, value, s.envs[s.cur.value].id)],
                      queue := s.queue + [e])
    ensures Inv(s')
  {
    assert e !in s.queue;
    AppendMembers(s.queue, e);
    forall x | 0 <= x < |s'.envs| && s'.envs[x].status != Free
      ensures exists g: nat :: 1 <= g <= s'.gen && s'.envs[x].id == MakeId(g, x)
    {
      assert s.envs[x].status != Free;
    }
    assert QueueOk(s') && FreeOk(s') && MailOk(s');
  }

  /** Starting a child that is blocked in a receive lets a send queue it a second time. */
  lemma StartedReceiverIsQueuedTwice(s: Sys, e: nat, value: nat)
    requires Inv(s) && s.cur.Some? && s.cur.value < NENV && e < NENV && e != s.cur.value
    requires s.envs[e].status == NotRunnable && s.envs[e].recving && s.envs[e].id != 0
    ensures var s1 := SetStatus(s, e, Runnable).1;
      var s2 := Send(s1, true, s.envs[e].id, value, NoPage).1;
      |s2.queue| >= 2 && s2.queue[|s2.queue| - 2] == e && s2.queue[|s2.queue| - 1] == e
  {
    var g: nat :| 1 <= g <= s.gen && s.envs[e].id == MakeId(g, e);
    IdFacts(g, e, s.gen);
  }

  /** One env runs and another waits for a message. */
  function SenderAndReceiver(): (s: Sys)
    ensures Inv(s) && s.cur == Some(0) && s.envs[1].status == NotRunnable && s.envs[1].recving
    ensures s.envs[1].id == MakeId(2, 1)
  {
    var idle := Env(0, 0, Free, 0, false, false, 0, 0, 0);
    var s := Sys(seq(NENV, i => if i == 0 then idle.(id := MakeId(1, 0), status := Runnable, pri := 1)
                                else if i == 1
                                then idle.(id := MakeId(2, 1), status := NotRunnable, pri := 1, recving := true)
                                else idle),
                 seq(NENV - 2, i requires 0 <= i => i + 2), [0], Some(0), 0, 2);
    SenderAndReceiverInv(s);
    s
  }

  lemma SenderAndReceiverInv(s: Sys)
    requires |s.envs| == NENV && s.queue == [0] && s.cur == Some(0) && s.count == 0 && s.gen == 2
    requires forall i :: 0 <= i < NENV ==>
               && s.envs[i].status == (if i == 0 then Runnable else if i == 1 then NotRunnable else Free)
               && s.envs[i].recving == (i == 1) && !s.envs[i].waiting
               && (i < 2 ==> s.envs[i].pri == 1 && s.envs[i].id == MakeId(i + 1, i))
    requires |s.free| == NENV - 2 && forall i :: 0 <= i < NENV - 2 ==> s.free[i] == i + 2
    ensures Inv(s)
  {
    forall e: nat
      ensures e in s.free <==> e < |s.envs| && s.envs[e].status == Free
    {
      if 2 <= e < NENV { assert s.free[e - 2] == e; }
    }
  }

  /** A send whose page is not mapped: the sender sees an error, the receiver runs with the value. */
  lemma SendFailsAfterWaking(value: nat)
    ensures var s := SenderAndReceiver();
      var r := Send(s, true, s.envs[1].id, value, Unmapped);
      r.0 == Inval && r.1.envs[1].status == Runnable && r.1.envs[1].value == value && r.1.queue == [0, 1]
  {
    IdFacts(2, 1, 2);
  }

  /** env_create: a new runnable env at the head of the queue, before anything runs. */
  lemma CreatedInv(s: Sys, s': Sys, e: nat, pri: nat)
    requires Inv(s) && s.cur == None && s.free != [] && s.free[0] == e && e < NENV && pri >= 1
    requires s' == s.(envs := s.envs[e := s.envs[e].(id := MakeId(s.gen + 1, e), parent := 0, pri := pri,
                                                     status := Runnable)],
                      free := s.free[1..], queue := [e] + s.queue, gen := s.gen + 1)
    ensures Inv(s')
  {
    assert e in s.free && e !in s.queue;
    forall x | 0 <= x < |s'.envs| && s'.envs[x].status != Free
      ensures exists g: nat :: 1 <= g <= s'.gen && s'.envs[x].id == MakeId(g, x)
    {
      if x == e {
        assert s'.envs[x].id == MakeId(s'.gen, x);
      } else {
        var g: nat :| 1 <= g <= s.gen && s.envs[x].id == MakeId(g, x);
      }
    }
    forall x: nat
      ensures x in s'.free <==> x < |s'.envs| && s'.envs[x].status == Free
    {
      assert x in s.free <==> x == e || x in s.free[1..];
    }
    forall x: nat
      ensures x in s'.queue <==> IsRunnable(s', x)
    {
      assert x in s'.queue <==> x == e || x in s.queue;
    }
  }

  // ---- stale ids ----

  /** An id whose generation has been handed out but which no live env carries. */
  ghost predicate Stale(s: Sys, id: nat) {
    && id != 0 && id < MakeId(s.gen + 1, 0)
    && forall e :: 0 <= e < |s.envs| && s.envs[e].status != Free ==> s.envs[e].id != id
  }

  /**
   envid2env exactly: id 0 is the caller; any other id finds an env if and only if that env is in
   use with this id and, where permission is checked, is the caller or a child of the caller.
   */
  lemma FindExact(s: Sys, id: nat, checkperm: bool, e: nat)
    requires Inv(s) && s.cur.Some? && s.cur.value < NENV
    ensures EnvIdToEnv(s, 0, checkperm) == s.cur
    ensures id != 0 ==>
              (EnvIdToEnv(s, id, checkperm) == Some(e) <==>
               && e < NENV && s.envs[e].status != Free && s.envs[e].id == id
               && (checkperm ==> e == s.cur.value || s.envs[e].parent == s.envs[s.cur.value].id))
  {
    hide EnvX, MakeId;
    var c := s.cur.value;
    assert IsRunnable(s, c);
    var h: nat :| 1 <= h <= s.gen && s.envs[c].id == MakeId(h, c);
    IdFacts(h, c, s.gen);
    if e < NENV && s.envs[e].status != Free {
      var g: nat :| 1 <= g <= s.gen && s.envs[e].id == MakeId(g, e);
      IdFacts(g, e, s.gen);
    }
    EnvXBound(id);
  }

  lemma EnvXBound(id: nat)
    ensures EnvX(id) < NENV
  {
  }

  lemma StaleIsRejected(s: Sys, id: nat, checkperm: bool)
    requires Inv(s) && s.cur.Some? && s.cur.value < NENV && Stale(s, id)
    ensures EnvIdToEnv(s, id, checkperm).None?
  {
  }

  // ---- runs ----

  datatype Step =
    | Tick
    | Yield
    | Recv(ipc: bool)
    | SendTo(ipc: bool, to: nat, value: nat, page: PageOutcome)
    | Fork(space: SpaceOutcome)
    | Start(e: nat)
    | Kill(e: nat)

  ghost predicate Enabled(s: Sys, st: Step) {
    && |s.envs| == NENV && (forall i :: 0 <= i < |s.queue| ==> s.queue[i] < |s.envs|)
    && s.cur.Some? && s.cur.value < NENV
    && match st
       case Tick => true
       case Yield => true
       case Recv(ipc) => |s.queue| > 1
       case SendTo(ipc, to, value, page) => true
       case Fork(space) => true
       case Start(e) =>
         e < NENV && s.envs[e].status == NotRunnable && !s.envs[e].recving && !s.envs[e].waiting
       case Kill(e) => IsRunnable(s, e) && |s.queue| > 1
  }

  ghost function Apply(s: Sys, st: Step): Sys
    requires Enabled(s, st)
  {
    match st
    case Tick => Schedule(s, false).1
    case Yield => Schedule(s, true).1
    case Recv(ipc) => Block(s, ipc).1
    case SendTo(ipc, to, value, page) => Send(s, ipc, to, value, page).1
    case Fork(space) => Exofork(s, space).1
    case Start(e) => SetStatus(s, e, Runnable).1
    case Kill(e) => Destroy(s, e).1
  }

  lemma StepKeeps(s: Sys, st: Step)
    requires Inv(s) && Enabled(s, st)
    ensures Inv(Apply(s, st))
  {
    var s' := Apply(s, st);
    match st {
      case Tick => ScheduleKeeps(s, false, Schedule(s, false).0, s');
      case Yield => ScheduleKeeps(s, true, Schedule(s, true).0, s');
      case Recv(ipc) => BlockKeeps(s, ipc, Block(s, ipc).0, s');
      case SendTo(ipc, to, value, page) =>
        SendKeeps(s, ipc, to, value, page, Send(s, ipc, to, value, page).0, s');
      case Fork(space) => ExoforkKeeps(s, space, Exofork(s, space).0, s');
      case Start(e) => StartKeeps(s, e, SetStatus(s, e, Runnable).0, s');
      case Kill(e) => DestroyKeeps(s, e, Destroy(s, e).0, s');
    }
  }

  ghost predicate Next(s: Sys, st: Step, s': Sys) { Enabled(s, st) && s' == Apply(s, st) }

  ghost predicate IsRun(states: seq<Sys>, steps: seq<Step>) {
    && |states| == |steps| + 1
    && (forall i :: 0 <= i < |steps| ==> Next(states[i], steps[i], states[i + 1]))
  }

  /** In every run an env is in env_sched_list exactly once if and only if it is RUNNABLE. */
  lemma {:induction false} RunKeeps(states: seq<Sys>, steps: seq<Step>, n: nat)
    requires IsRun(states, steps) && n <= |steps| && Inv(states[0])
    ensures Inv(states[n])
  {
    if n > 0 {
      RunKeeps(states, steps, n - 1);
      assert Next(states[n - 1], steps[n - 1], states[n]);
      StepKeeps(states[n - 1], steps[n - 1]);
    }
  }

  /** Env `e` neither calls a receive nor dies in this step. */
  predicate LeavesMail(s: Sys, st: Step, e: nat) { !(st.Recv? && s.cur == Some(e)) && st != Kill(e) }

  lemma MailStep(s: Sys, st: Step, e: nat)
    requires Inv(s) && Enabled(s, st) && e < NENV && LeavesMail(s, st, e)
    requires s.envs[e].status != Free && !s.envs[e].recving && !s.envs[e].waiting
    ensures var s' := Apply(s, st);
      && |s'.envs| == NENV
      && s'.envs[e].value == s.envs[e].value && s'.envs[e].from == s.envs[e].from
      && s'.envs[e].returned == s.envs[e].returned
      && s'.envs[e].status != Free && !s'.envs[e].recving && !s'.envs[e].waiting
  {
    StepKeeps(s, st);
    if st.Recv? { BlockKeeps(s, st.ipc, Block(s, st.ipc).0, Block(s, st.ipc).1); }
    if st.Kill? { DestroyKeeps(s, st.e, Destroy(s, st.e).0, Destroy(s, st.e).1); }
    if st.SendTo? { SendKeeps(s, st.ipc, st.to, st.value, st.page, Send(s, st.ipc, st.to, st.value, st.page).0,
                              Send(s, st.ipc, st.to, st.value, st.page).1); }
    if st.Fork? && s.free != [] { assert s.free[0] in s.free; }
  }

  /**
   A delivered value survives until the receiver asks again: while env `e` makes no receive
   call and is not destroyed, no step of any run touches either of its mailboxes.
   */
  lemma {:induction false} MailIsKept(states: seq<Sys>, steps: seq<Step>, n: nat, m: nat, e: nat)
    requires IsRun(states, steps) && n <= m <= |steps| && Inv(states[0]) && e < NENV
    requires |states[n].envs| == NENV
    requires states[n].envs[e].status != Free && !states[n].envs[e].recving && !states[n].envs[e].waiting
    requires forall i :: n <= i < m ==> LeavesMail(states[i], steps[i], e)
    ensures |states[m].envs| == NENV
    ensures states[m].envs[e].value == states[n].envs[e].value && states[m].envs[e].from == states[n].envs[e].from
    ensures states[m].envs[e].returned == states[n].envs[e].returned
    decreases m - n
  {
    if n < m {
      RunKeeps(states, steps, n);
      assert Next(states[n], steps[n], states[n + 1]) && LeavesMail(states[n], steps[n], e);
      MailStep(states[n], steps[n], e);
      MailIsKept(states, steps, n + 1, m, e);
    }
  }

  /** The id of an env that is destroyed is stale from then on. */
  lemma KillMakesStale(s: Sys, e: nat)
    requires Inv(s) && Enabled(s, Kill(e))
    ensures Stale(Apply(s, Kill(e)), s.envs[e].id)
  {
    DestroyKeeps(s, e, Destroy(s, e).0, Apply(s, Kill(e)));
    GoneIsStale(s, Apply(s, Kill(e)), e);
  }

  /** Taking an env out of use makes its id stale. */
  lemma GoneIsStale(s: Sys, s': Sys, e: nat)
    requires Inv(s) && e < |s.envs| == NENV && s.envs[e].status != Free
    requires s'.gen == s.gen && s'.envs == s.envs[e := s.envs[e].(status := Free)]
    ensures Stale(s', s.envs[e].id)
  {
    hide EnvX;
    hide MakeId;
    var g: nat :| 1 <= g <= s.gen && s.envs[e].id == MakeId(g, e);
    forall x | 0 <= x < |s'.envs| && s'.envs[x].status != Free
      ensures s'.envs[x].id != s.envs[e].id
    {
      var h: nat :| 1 <= h <= s.gen && s.envs[x].id == MakeId(h, x);
      IdFacts(h, x, s.gen);
      IdFacts(g, e, s.gen);
    }
    IdFacts(g, e, s.gen);
  }

  /** An id determines its env index, and ids of older generations are smaller. */
  lemma IdFacts(g: nat, e: nat, gen: nat)
    requires e < NENV && 1 <= g <= gen
    ensures EnvX(MakeId(g, e)) == e && 0 < MakeId(g, e) < MakeId(gen + 1, 0)
  {
    ModIndex(2 * g, e);
    assert MakeId(g, e) == 1024 * (2 * g) + e;
  }

  lemma ModIndex(k: nat, e: nat)
    requires e < 1024
    ensures (1024 * k + e) % 1024 == e
  {
  }

  lemma StaleStep(s: Sys, st: Step, id: nat)
    requires Inv(s) && Enabled(s, st) && Stale(s, id)
    ensures Stale(Apply(s, st), id)
  {
    var s' := Apply(s, st);
    if st.Recv? { BlockKeeps(s, st.ipc, Block(s, st.ipc).0, s'); }
    if st.Kill? { DestroyKeeps(s, st.e, Destroy(s, st.e).0, s'); }
    assert s'.gen >= s.gen;
    assert MakeId(s.gen + 1, 0) <= MakeId(s'.gen + 1, 0);
  }

  /** Once an env is destroyed its id names no env ever again (before 2^21 envs were made). */
  lemma {:induction false} StaleForever(states: seq<Sys>, steps: seq<Step>, n: nat, m: nat, id: nat)
    requires IsRun(states, steps) && n <= m <= |steps| && Inv(states[0]) && Stale(states[n], id)
    ensures Stale(states[m], id)
    decreases m - n
  {
    if n < m {
      RunKeeps(states, steps, n);
      assert Next(states[n], steps[n], states[n + 1]);
      StaleStep(states[n], steps[n], id);
      StaleForever(states, steps, n + 1, m, id);
    }
  }
}
