/**
 The scheduler and the blocking system calls as they are written: one object whose fields,
 the list links among them, schedule, the env life cycle and IPC update in place. Each method
 is tied to the function of SchedLinks, and through it to Sched, about which the properties
 are proved.
 */
module Scheduler {
  import opened Wrappers
  import opened Sched
  import opened SchedLinks
  import Q = Queue

  class Kernel {
    var envs: seq<Env>
    var free: seq<nat>
    var l: Q.Links
    var last: Q.Slot
    var curenv: Option<nat>
    var count: int
    var gen: nat

    /** The envs on env_sched_list, in order. */
    ghost var queue: seq<nat>

    ghost function Mach(): Machine
      reads this
    {
      Machine(envs, free, l, last, curenv, count, gen)
    }

    ghost predicate Valid()
      reads this
    {
      Good(Mach(), queue)
    }

    /** env_init over the zeroed array: every env is free, and envs[0] is handed out first. */
    constructor ()
      ensures Mach() == Boot() && queue == [] && Valid()
    {
      envs := seq(NENV, _ => Env(0, 0, Free, 0, false, false, 0, 0, 0));
      l, last := Q.Links(None, seq(NENV, _ => None), seq(NENV, _ => Q.Null)), Q.First;
      curenv, count, gen, queue := None, 0, 0, [];
      free := [];
      new;
      var i := NENV;
      while i > 0
        invariant 0 <= i <= NENV && |free| == NENV - i
        invariant forall j :: 0 <= j < |free| ==> free[j] == i + j
        invariant envs == Boot().envs && l == Boot().l && last == Q.First
        invariant curenv == None && count == 0 && gen == 0 && queue == []
      {
        i := i - 1;
        envs := envs[i := envs[i].(status := Free)];
        free := [i] + free;
        assert envs == Boot().envs;
      }
      assert free == Boot().free;
      BootGood();
    }

    // ---- the queue macros ----

    /** TAILQ_REMOVE; false is the panic of the store through a null pointer. */
    method Unlink(x: nat) returns (ok: bool)
      requires Ready(Mach()) && x < NENV
      modifies this`l, this`last
      ensures ok <==> Cut(old(Mach()), x).Some?
      ensures ok ==> Some(Mach()) == Cut(old(Mach()), x)
    {
      InRangeLinks(Mach(), x);
      if l.next[x].Some? {
        l := l.(prev := l.prev[l.next[x].value := l.prev[x]]);
      } else {
        last := l.prev[x];
      }
      if l.prev[x] == Q.Null {
        return false;
      }
      l := Q.Assign(l, l.prev[x], l.next[x]);
      return true;
    }

    /** TAILQ_INSERT_TAIL. */
    method LinkTail(x: nat)
      requires Ready(Mach()) && x < NENV
      modifies this`l, this`last
      ensures Mach() == Append(old(Mach()), x)
    {
      l := l.(next := l.next[x := None]);
      l := l.(prev := l.prev[x := last]);
      l := Q.Assign(l, last, Some(x));
      last := Q.NextOf(x);
    }

    /** TAILQ_INSERT_HEAD. */
    method LinkHead(x: nat)
      requires Ready(Mach()) && x < NENV
      modifies this`l, this`last
      ensures Mach() == Push(old(Mach()), x)
    {
      var first := l.first;
      l := l.(next := l.next[x := first]);
      if first.Some? {
        l := l.(prev := l.prev[first.value := Q.NextOf(x)]);
      } else {
        last := Q.NextOf(x);
      }
      l := l.(first := Some(x), prev := l.prev[x := Q.First]);
    }

    // ---- the env life cycle ----

    /** env_create for the scheduler's part: a new runnable env at the head of the queue. */
    method Create(pri: nat, space: SpaceOutcome) returns (r: Option<nat>)
      requires Valid() && curenv == None && pri >= 1
      modifies this
      ensures Valid() && curenv == None
      ensures r.None? <==> old(free) == [] || space != SpaceMade
      ensures r.Some? ==> queue == [r.value] + old(queue) && r.value < NENV && envs[r.value].pri == pri
      ensures r.None? ==> Mach() == old(Mach()) && queue == old(queue)
    {
      if free == [] || space != SpaceMade {
        return None;
      }
      CreateGood(Mach(), queue, pri);
      var e := free[0];
      gen := gen + 1;
      envs := envs[e := envs[e].(id := MakeId(gen, e), parent := 0, pri := pri, status := Runnable)];
      free := free[1..];
      LinkHead(e);
      assert Mach() == LCreate(old(Mach()), pri);
      queue := [e] + queue;
      return Some(e);
    }

    /** sys_exofork: a child of the caller, not yet on the queue. */
    method Fork(space: SpaceOutcome) returns (r: Errno)
      requires Valid() && curenv.Some? && curenv.value < NENV
      modifies this`envs, this`free, this`gen
      ensures Valid() && Ready(old(Mach())) && (r, Mach()) == LExofork(old(Mach()), space)
    {
      ghost var m := Mach();
      ExoforkLinks(m, queue, space);
      ExoforkKeeps(View(m, queue), space, Exofork(View(m, queue), space).0, Exofork(View(m, queue), space).1);
      CurInRange(View(m, queue));
      if free != [] { HeadOfFree(m, queue); }
      hide Q.Linked, Q.Ranged, Q.Queued, Inv;
      if free == [] {
        return NoFreeEnv;
      }
      if space == NoFrame {
        return NoMem;
      }
      if space == NoAsid {
        return NoFreeEnv;
      }
      var e := free[0];
      gen := gen + 1;
      envs := envs[e := envs[e].(id := MakeId(gen, e), parent := envs[curenv.value].id)];
      free := free[1..];
      envs := envs[e := envs[e].(status := NotRunnable, pri := envs[curenv.value].pri)];
      assert envs == LExofork(m, space).1.envs;
      return Ok(envs[e].id);
    }

    /** sys_set_env_status on the env that envid2env found. */
    method ChangeStatus(e: nat, status: Status) returns (r: Errno)
      requires Valid() && e < |envs| && envs[e].status != Free
      modifies this
      ensures e < NENV && Ready(old(Mach())) && (r, Mach()) == LSetStatus(old(Mach()), e, status)
      ensures Rep(Mach(), queue)
      ensures old(envs)[e].status == NotRunnable && status == Runnable ==>
                QueueOk(View(Mach(), queue)) && (Valid() <==> !old(envs)[e].recving && !old(envs)[e].waiting)
    {
      ghost var m := Mach();
      StatusLinks(m, queue, e, status);
      InQueue(View(m, queue), e);
      if status == Runnable && envs[e].status == NotRunnable {
        StartKeeps(View(m, queue), e, Ok(0), SetStatus(View(m, queue), e, status).1);
      }
      hide Q.Linked, Q.Ranged, Q.Queued, Inv, QueueOk;
      if status != Runnable && status != NotRunnable {
        return Inval;
      }
      ghost var q := SetStatus(View(m, queue), e, status).1.queue;
      if envs[e].status != status {
        if status == Runnable {
          LinkTail(e);
        } else {
          CutQueued(m, queue, e);
          var _ := Unlink(e);
        }
      }
      envs := envs[e := envs[e].(status := status)];
      queue := q;
      return Ok(0);
    }

    /**
     env_destroy of any env in use. It panics exactly if the env's link is null or the last
     runnable env destroys itself; otherwise the object is valid for some queue exactly if the
     env was runnable, or its removal wrote nothing new and it was not blocked in a receive.
     */
    method Kill(e: nat) returns (r: Errno)
      requires Valid() && e < |envs| && envs[e].status != Free
      modifies this
      ensures e < NENV && Ready(old(Mach())) && |old(l).prev| == NENV
      ensures r.Panic? <==> old(l).prev[e] == Q.Null || (old(curenv) == Some(e) && |old(queue)| == 1)
      ensures !r.Panic? ==> ((exists q' :: Good(Mach(), q')) <==>
                             && RemovesCleanly(old(Mach()), old(queue), e)
                             && !old(envs)[e].recving && !old(envs)[e].waiting)
      ensures !r.Panic? && (exists q' :: Good(Mach(), q')) ==> Valid()
    {
      ghost var m := Mach();
      CurInRange(View(m, queue));
      DestroyExact(m, queue, e);
      if envs[e].status == Runnable { KilledReady(m, queue, e); }
      hide Q.Linked, Q.Ranged, Q.Queued, Inv, Good, Between;
      envs := envs[e := envs[e].(status := Free)];
      free := [e] + free;
      var ok := Unlink(e);
      if !ok {
        return Panic;
      }
      if curenv == Some(e) {
        curenv := None;
        r := Dispatch(true);
      } else {
        r := Ok(0);
      }
      ghost var m' := Mach();
      if !r.Panic? {
        assert (r, m') == LDestroy(m, e);
        if q' :| Good(m', q') { queue := q'; }
      }
      assert Mach() == m';
    }

    // ---- schedule ----

    /** The statements of schedule; a panic is the empty queue. */
    method Dispatch(yield_: bool) returns (r: Errno)
      requires Ready(Mach()) && (curenv.Some? ==> curenv.value < NENV)
      modifies this`l, this`last, this`curenv, this`count
      ensures r == LSchedule(old(Mach()), yield_).0
      ensures !r.Panic? ==> Mach() == LSchedule(old(Mach()), yield_).1
    {
      hide Q.Linked, Q.Ranged, Q.Queued;
      var e := curenv;
      if yield_ || count == 0 || e == None || envs[e.value].status != Runnable {
        if e.Some? && envs[e.value].status == Runnable {
          var ok := Unlink(e.value);
          if !ok {
            return Panic;
          }
          LinkTail(e.value);
        }
        if l.first.None? {
          return Panic;
        }
        e := l.first;
        count := envs[e.value].pri;
      }
      count := count - 1;
      curenv := e;
      return Ok(e.value);
    }

    /** schedule, from any state in which the caller has just blocked, died or yielded. */
    method Reschedule(yield_: bool) returns (r: Errno)
      requires Rep(Mach(), queue) && Between(View(Mach(), queue))
      modifies this
      ensures curenv.Some? || r.Panic?
      ensures (forall i :: 0 <= i < |old(queue)| ==> old(queue)[i] < NENV) && |old(envs)| == NENV
      ensures r == Schedule(View(old(Mach()), old(queue)), yield_).0
      ensures !r.Panic? ==> View(Mach(), queue) == Schedule(View(old(Mach()), old(queue)), yield_).1 && Valid()
    {
      ghost var m, q := Mach(), queue;
      QueueInRange(View(m, q));
      ScheduleLinks(m, q, yield_);
      ScheduleKeeps(View(m, q), yield_, Schedule(View(m, q), yield_).0, Schedule(View(m, q), yield_).1);
      hide Q.Linked, Q.Ranged, Q.Queued, Inv, Between;
      r := Dispatch(yield_);
      if !r.Panic? { queue := Schedule(View(m, q), yield_).1.queue; }
    }

    /** sys_ipc_recv (`ipc`) and sys_recv_return_value. */
    method Receive(ipc: bool) returns (r: Errno)
      requires Valid() && curenv.Some?
      modifies this
      ensures old(curenv.value) < NENV && |old(envs)| == NENV
      ensures forall i :: 0 <= i < |old(queue)| ==> old(queue)[i] < NENV
      ensures r == Block(View(old(Mach()), old(queue)), ipc).0
      ensures !r.Panic? ==> View(Mach(), queue) == Block(View(old(Mach()), old(queue)), ipc).1 && Valid()
    {
      ghost var m, q := Mach(), queue;
      QueueInRange(View(m, q));
      CurInRange(View(m, q));
      var c := curenv.value;
      InQueue(View(m, q), c);
      RemoveBounded(q, c, NENV);
      if ipc {
        envs := envs[c := envs[c].(recving := true, status := NotRunnable)];
      } else {
        envs := envs[c := envs[c].(waiting := true, status := NotRunnable)];
      }
      CutQueued(Mach(), q, c);
      hide Q.Linked, Q.Ranged, Q.Queued;
      var _ := Unlink(c);
      queue := Remove(q, c);
      BlockBetween(View(m, q), View(Mach(), queue), c);
      hide Inv, Between;
      r := Reschedule(true);
    }

    /** sys_ipc_try_send (`ipc`) and sys_send_return_value; the page is mapped after the wake-up. */
    method Deliver(ipc: bool, to: nat, value: nat, page: PageOutcome) returns (r: Errno)
      requires Valid() && curenv.Some?
      modifies this
      ensures Valid() && |old(envs)| == NENV && old(curenv.value) < NENV
      ensures (r, View(Mach(), queue)) == Send(View(old(Mach()), old(queue)), ipc, to, value, page)
    {
      ghost var m, q := Mach(), queue;
      CurInRange(View(m, q));
      ghost var sent := Send(View(m, q), ipc, to, value, page);
      SendKeeps(View(m, q), ipc, to, value, page, sent.0, sent.1);
      hide Q.Linked, Q.Ranged, Q.Queued, Inv;
      if page == IllegalVa {
        return Inval;
      }
      var t := EnvIdToEnv(Sys(envs, free, [], curenv, count, gen), to, false);
      if t.None? {
        return BadEnv;
      }
      var e := t.value;
      if ipc {
        if !envs[e].recving {
          return NotRecv;
        }
      } else if !envs[e].waiting {
        return NotRecv;
      }
      var me := envs[curenv.value].id;
      envs := envs[e := envs[e].(value := value, from := me, recving := false)];
      if !ipc {
        envs := envs[e := envs[e].(waiting := false, returned := value)];
      }
      envs := envs[e := envs[e].(status := Runnable)];
      assert envs == m.envs[e := WakeEnv(m.envs[e], ipc, value, me)];
      AppendQueued(Mach(), q, e);
      LinkTail(e);
      queue := q + [e];
      if page == Unmapped {
        return Inval;
      }
      if page == NoTable {
        return NoMem;
      }
      return Ok(0);
    }
  }

  lemma HeadOfFree(m: Machine, q: seq<nat>)
    requires Good(m, q) && m.free != [] && m.cur.Some?
    ensures m.free[0] < NENV && m.cur != Some(m.free[0])
  {
    assert m.free[0] in m.free;
    CurIsRunnable(View(m, q));
  }

  lemma KilledReady(m: Machine, q: seq<nat>, e: nat)
    requires Good(m, q) && e < NENV && m.envs[e].status == Runnable
    ensures Q.LinksInRange(m.l, e) && m.l.prev[e] != Q.Null
  {
    InQueue(View(m, q), e);
    CutQueued(m, q, e);
    InRangeLinks(m, e);
  }
}
