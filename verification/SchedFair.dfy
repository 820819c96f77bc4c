/**
 How long an env waits for the processor: bounded waiting under arbitrary blocking, waking,
 forking and killing, and exact shares under timer ticks alone (kern/sched.c).
 */
module SchedFair {
  import opened Wrappers
  import opened Sched

  // ---- bounded waiting ----

  /** The priorities of the envs queued ahead of `x`. */
  function Ahead(envs: seq<Env>, q: seq<nat>, x: nat): nat {
    if q == [] || q[0] == x then 0
    else (if q[0] < |envs| then envs[q[0]].pri else 0) + Ahead(envs, q[1..], x)
  }

  /** Calls to schedule that may pass before `x` is dispatched, less one. */
  function Wait(s: Sys, x: nat): int
    requires s.queue != []
  {
    s.count + Ahead(s.envs, s.queue[1..], x)
  }

  /** `x` waits: it is runnable and another env is current. */
  ghost predicate Waits(s: Sys, x: nat) {
    Inv(s) && s.cur.Some? && s.cur.value != x && IsRunnable(s, x)
  }

  /** The step enters schedule. */
  predicate Calls(s: Sys, st: Step) {
    st.Tick? || st.Yield? || st.Recv? || (st.Kill? && s.cur == Some(st.e))
  }

  lemma {:induction false} AheadAppend(envs: seq<Env>, q: seq<nat>, y: nat, x: nat)
    requires x in q
    ensures Ahead(envs, q + [y], x) == Ahead(envs, q, x)
  {
    if q[0] != x {
      assert (q + [y])[1..] == q[1..] + [y];
      AheadAppend(envs, q[1..], y, x);
    }
  }

  lemma {:induction false} AheadRemove(envs: seq<Env>, q: seq<nat>, y: nat, x: nat)
    requires x in q && x != y
    ensures Ahead(envs, Remove(q, y), x) <= Ahead(envs, q, x)
  {
    if q[0] != x {
      if q[0] != y {
        AheadRemove(envs, q[1..], y, x);
        assert Remove(q, y)[1..] == Remove(q[1..], y);
      }
    }
  }

  lemma {:induction false} AheadSame(envs: seq<Env>, envs': seq<Env>, q: seq<nat>, x: nat)
    requires |envs'| == |envs|
    requires forall e :: e in q && e < |envs| ==> envs'[e].pri == envs[e].pri
    ensures Ahead(envs', q, x) == Ahead(envs, q, x)
  {
    if q != [] && q[0] != x { AheadSame(envs, envs', q[1..], x); }
  }

  /** After the head has moved on, the new head is `x` or the wait has shrunk. */
  lemma NextHead(s: Sys, s': Sys, x: nat)
    requires Waits(s, x) && Inv(s') && s'.cur.Some? && |s'.envs| == |s.envs|
    requires |s.queue| > 1 && (s'.queue == s.queue[1..] || s'.queue == s.queue[1..] + [s.queue[0]])
    requires s'.cur == Some(s'.queue[0]) && s'.count == s'.envs[s'.queue[0]].pri - 1
    requires forall e :: e in s.queue && e != s.queue[0] ==> e < |s.envs| && s'.envs[e].pri == s.envs[e].pri
    ensures s'.cur == Some(x) || Wait(s', x) <= Wait(s, x) - 1
  {
    if s'.cur != Some(x) {
      var q := s.queue[1..];
      assert x in s.queue && x in q && q[0] == s.queue[1];
      assert x in q[1..];
      AheadSame(s.envs, s'.envs, q[1..], x);
      if s'.queue != q {
        assert s'.queue[1..] == q[1..] + [s.queue[0]];
        AheadAppend(s'.envs, q[1..], s.queue[0], x);
      } else {
        assert s'.queue[1..] == q[1..];
      }
    }
  }

  lemma ScheduleWait(s: Sys, yield_: bool, s': Sys, x: nat)
    requires Waits(s, x) && Enabled(s, Tick) && s' == Schedule(s, yield_).1
    ensures s'.cur == Some(x) || (Waits(s', x) && Wait(s', x) <= Wait(s, x) - 1)
  {
    ScheduleKeeps(s, yield_, Schedule(s, yield_).0, s');
    assert x in s.queue && s.cur.value in s.queue && IsRunnable(s, s.cur.value);
    assert Remove(s.queue, s.queue[0]) == s.queue[1..];
    if yield_ || s.count == 0 { NextHead(s, s', x); }
  }

  lemma BlockWait(s: Sys, ipc: bool, s': Sys, x: nat)
    requires Waits(s, x) && Enabled(s, Recv(ipc)) && s' == Block(s, ipc).1
    ensures s'.cur == Some(x) || (Waits(s', x) && Wait(s', x) <= Wait(s, x) - 1)
  {
    BlockKeeps(s, ipc, Block(s, ipc).0, s');
    assert Remove(s.queue, s.queue[0]) == s.queue[1..];
    NextHead(s, s', x);
  }

  lemma KillWait(s: Sys, e: nat, s': Sys, x: nat)
    requires Waits(s, x) && Enabled(s, Kill(e)) && s' == Destroy(s, e).1 && e != x
    ensures s'.cur == Some(x) || (Waits(s', x) && Wait(s', x) <= Wait(s, x) - if s.cur == Some(e) then 1 else 0)
  {
    DestroyKeeps(s, e, Destroy(s, e).0, s');
    if s.cur == Some(e) {
      assert Remove(s.queue, s.queue[0]) == s.queue[1..];
      NextHead(s, s', x);
    } else {
      assert x in s.queue && x in s.queue[1..];
      assert s'.queue[1..] == Remove(s.queue[1..], e);
      AheadRemove(s'.envs, s.queue[1..], e, x);
      AheadSame(s.envs, s'.envs, s.queue[1..], x);
    }
  }

  /** Sending, forking and starting leave the queue as it is but for one env at its end. */
  lemma QuietQueue(s: Sys, st: Step, s': Sys)
    requires Inv(s) && Enabled(s, st) && s' == Apply(s, st) && (st.SendTo? || st.Fork? || st.Start?)
    ensures s'.queue == s.queue || exists y :: s'.queue == s.queue + [y]
    ensures s'.cur == s.cur && s'.count == s.count && |s'.envs| == |s.envs|
    ensures forall e | e in s.queue :: e < |s.envs| && s'.envs[e].pri == s.envs[e].pri && IsRunnable(s', e)
  {
    forall e | e in s.queue
      ensures e < |s.envs| && s'.envs[e].pri == s.envs[e].pri && IsRunnable(s', e)
    {
      assert IsRunnable(s, e);
      if st.Fork? && s.free != [] { assert s.free[0] in s.free; }
    }
  }

  lemma QuietWait(s: Sys, st: Step, s': Sys, x: nat)
    requires Waits(s, x) && Enabled(s, st) && s' == Apply(s, st) && (st.SendTo? || st.Fork? || st.Start?)
    ensures Waits(s', x) && Wait(s', x) == Wait(s, x)
  {
    StepKeeps(s, st);
    QuietQueue(s, st, s');
    hide Apply, Enabled;
    assert x in s.queue && x in s.queue[1..];
    AheadSame(s.envs, s'.envs, s.queue[1..], x);
    if s'.queue != s.queue {
      var y :| s'.queue == s.queue + [y];
      assert s'.queue[1..] == s.queue[1..] + [y];
      AheadAppend(s'.envs, s.queue[1..], y, x);
    }
  }

  /** Every call to schedule either dispatches `x` or shortens its wait; nothing lengthens it. */
  lemma WaitShrinks(s: Sys, st: Step, x: nat)
    requires Waits(s, x) && Enabled(s, st) && IsRunnable(Apply(s, st), x)
    ensures var s' := Apply(s, st);
      s'.cur == Some(x) || (Waits(s', x) && Wait(s', x) <= Wait(s, x) - if Calls(s, st) then 1 else 0)
  {
    var s' := Apply(s, st);
    match st {
      case Tick => ScheduleWait(s, false, s', x);
      case Yield => ScheduleWait(s, true, s', x);
      case Recv(ipc) => BlockWait(s, ipc, s', x);
      case Kill(e) =>
        DestroyKeeps(s, e, Destroy(s, e).0, s');
        KillWait(s, e, s', x);
      case _ => QuietWait(s, st, s', x);
    }
  }

  function CallCount(states: seq<Sys>, steps: seq<Step>, n: nat, m: nat): nat
    requires n <= m <= |steps| && |states| == |steps| + 1
    decreases m - n
  {
    if n == m then 0 else (if Calls(states[n], steps[n]) then 1 else 0) + CallCount(states, steps, n + 1, m)
  }

  /**
   Bounded waiting: in any run, an env that stays runnable is dispatched within (remaining
   count of the current env + priorities of the envs queued between them) + 1 calls of schedule,
   whatever the other envs do.
   */
  lemma {:induction false} BoundedWaiting(states: seq<Sys>, steps: seq<Step>, n: nat, m: nat, x: nat)
    requires IsRun(states, steps) && n <= m <= |steps|
    requires Waits(states[n], x) && forall i :: n <= i <= m ==> IsRunnable(states[i], x)
    requires CallCount(states, steps, n, m) >= Wait(states[n], x) + 1
    ensures exists j :: n < j <= m && states[j].cur == Some(x)
    decreases m - n
  {
    var s := states[n];
    assert n < m;
    assert Next(s, steps[n], states[n + 1]);
    WaitShrinks(s, steps[n], x);
    if states[n + 1].cur != Some(x) {
      BoundedWaiting(states, steps, n + 1, m, x);
    }
  }

  // ---- exact shares under ticks ----

  function Copies(x: nat, n: nat): seq<nat> { seq(n, _ => x) }

  /** Each env of `q` in turn, as many times as its priority. */
  function Round(envs: seq<Env>, q: seq<nat>): seq<nat> {
    if q == [] then []
    else Copies(q[0], if q[0] < |envs| then envs[q[0]].pri else 0) + Round(envs, q[1..])
  }

  /** The dispatches of the next full round of ticks from a state with this queue and count. */
  function Plan(envs: seq<Env>, q: seq<nat>, count: nat): seq<nat>
    requires q != [] && q[0] < |envs| && count <= envs[q[0]].pri
  {
    Copies(q[0], count) + Round(envs, q[1..]) + Copies(q[0], envs[q[0]].pri - count)
  }

  function PlanOf(s: Sys): seq<nat>
    requires s.queue != [] && s.queue[0] < |s.envs| && 0 <= s.count <= s.envs[s.queue[0]].pri
  {
    Plan(s.envs, s.queue, s.count)
  }

  lemma {:induction false} RoundAppend(envs: seq<Env>, q: seq<nat>, y: nat)
    requires y < |envs|
    ensures Round(envs, q + [y]) == Round(envs, q) + Copies(y, envs[y].pri)
  {
    if q == [] {
      assert Round(envs, [y][1..]) == [];
      assert [] + [y] == [y];
    } else {
      RoundAppend(envs, q[1..], y);
      assert (q + [y])[1..] == q[1..] + [y];
    }
  }

  lemma CopiesSplit(x: nat, n: nat)
    requires n > 0
    ensures Copies(x, n) == [x] + Copies(x, n - 1) == Copies(x, n - 1) + [x]
  {
  }

  /** A tick dispatches the head of the plan and moves it to the plan's end. */
  lemma TickRotates(s: Sys, s': Sys)
    requires Inv(s) && Enabled(s, Tick) && s' == Apply(s, Tick)
    ensures Inv(s') && s'.envs == s.envs && s'.cur.Some?
    ensures |PlanOf(s)| > 0 && s'.cur.value == PlanOf(s)[0]
    ensures PlanOf(s') == PlanOf(s)[1..] + [PlanOf(s)[0]]
  {
    hide Plan;
    ScheduleKeeps(s, false, Schedule(s, false).0, s');
    assert s.queue[0] in s.queue;
    var c, q := s.queue[0], s.queue[1..];
    assert s.queue == [c] + q;
    if s.count > 0 {
      SliceUsed(s.envs, s.queue, s.count);
    } else {
      assert Remove(s.queue, c) == q;
      assert s'.queue == q + [c];
      forall x | x in q
        ensures x < |s.envs| && s.envs[x].pri >= 1
      {
        assert x in s.queue && IsRunnable(s, x);
      }
      HeadMoves(s.envs, c, q);
    }
  }

  lemma SliceUsed(envs: seq<Env>, q: seq<nat>, count: nat)
    requires q != [] && q[0] < |envs| && 0 < count <= envs[q[0]].pri
    ensures var plan := Plan(envs, q, count);
      && |plan| > 0 && plan[0] == q[0]
      && Plan(envs, q, count - 1) == plan[1..] + [plan[0]]
  {
    hide Copies;
    hide Round;
    var c, p := q[0], envs[q[0]].pri;
    CopiesSplit(c, count);
    CopiesSplit(c, p - count + 1);
    var rest := Copies(c, count - 1) + Round(envs, q[1..]) + Copies(c, p - count);
    assert Plan(envs, q, count) == [c] + rest;
    assert Plan(envs, q, count - 1) == rest + [c];
  }

  lemma HeadMoves(envs: seq<Env>, c: nat, q: seq<nat>)
    requires c < |envs| && envs[c].pri >= 1 && forall x :: x in q ==> x < |envs| && envs[x].pri >= 1
    ensures var plan := Plan(envs, [c] + q, 0);
      var h := (q + [c])[0];
      && |plan| > 0 && plan[0] == h
      && Plan(envs, q + [c], envs[h].pri - 1) == plan[1..] + [plan[0]]
  {
    hide Copies;
    var p := envs[c].pri;
    assert (q + [c])[|q|] == c;
    assert ([c] + q)[1..] == q;
    CopiesOne(c);
    assert Plan(envs, [c] + q, 0) == Round(envs, q) + Copies(c, p);
    if q == [] {
      assert q + [c] == [c];
      CopiesSplit(c, p);
      CopiesOne(c);
    } else {
      var h := q[0];
      assert (q + [c])[0] == h && h in q;
      var ph := envs[h].pri;
      assert (q + [c])[1..] == q[1..] + [c];
      RoundAppend(envs, q[1..], c);
      CopiesSplit(h, ph);
      CopiesOne(h);
      var rest := Copies(h, ph - 1) + Round(envs, q[1..]) + Copies(c, p);
      assert Plan(envs, [c] + q, 0) == [h] + rest;
      assert Plan(envs, q + [c], ph - 1) == rest + [h];
    }
  }

  lemma CopiesOne(x: nat)
    ensures Copies(x, 1) == [x] && Copies(x, 0) == []
  {
  }

  /** The envs that timer ticks dispatch from state `s`. */
  ghost function Ticks(s: Sys, n: nat): seq<nat>
    requires Inv(s) && s.cur.Some?
    decreases n
  {
    if n == 0 then []
    else
      QueueInRange(s);
      var s' := Apply(s, Tick);
      ScheduleKeeps(s, false, Schedule(s, false).0, s');
      if s'.cur.Some? then [s'.cur.value] + Ticks(s', n - 1) else []
  }

  lemma {:induction false} TicksFollowPlan(s: Sys, n: nat)
    requires Inv(s) && s.cur.Some? && n <= |PlanOf(s)|
    ensures Ticks(s, n) == PlanOf(s)[..n]
    decreases n
  {
    if n > 0 {
      QueueInRange(s);
      var s' := Apply(s, Tick);
      TickRotates(s, s');
      TicksFollowPlan(s', n - 1);
      assert PlanOf(s)[..n] == [PlanOf(s)[0]] + PlanOf(s)[1..][..n - 1];
      assert PlanOf(s')[..n - 1] == PlanOf(s)[1..][..n - 1];
    }
  }

  lemma {:induction false} CopiesCount(x: nat, n: nat, e: nat)
    ensures multiset(Copies(x, n))[e] == if e == x then n else 0
  {
    if n > 0 {
      CopiesSplit(x, n);
      CopiesCount(x, n - 1, e);
      assert Copies(x, n) == [x] + Copies(x, n - 1);
    } else {
      assert Copies(x, n) == [];
    }
  }

  lemma {:induction false} RoundCount(envs: seq<Env>, q: seq<nat>, e: nat)
    requires Distinct(q) && forall i :: 0 <= i < |q| ==> q[i] < |envs|
    ensures multiset(Round(envs, q))[e] == if e in q then envs[e].pri else 0
  {
    if q != [] {
      assert Distinct(q[1..]);
      RoundCount(envs, q[1..], e);
      CopiesCount(q[0], envs[q[0]].pri, e);
      assert e in q <==> e == q[0] || e in q[1..];
    }
  }

  function TotalPri(envs: seq<Env>, q: seq<nat>): nat {
    if q == [] then 0 else (if q[0] < |envs| then envs[q[0]].pri else 0) + TotalPri(envs, q[1..])
  }

  lemma {:induction false} RoundLength(envs: seq<Env>, q: seq<nat>)
    ensures |Round(envs, q)| == TotalPri(envs, q)
  {
    if q != [] { RoundLength(envs, q[1..]); }
  }

  lemma PlanCount(envs: seq<Env>, q: seq<nat>, count: nat, e: nat)
    requires q != [] && Distinct(q) && (forall i :: 0 <= i < |q| ==> q[i] < |envs|) && count <= envs[q[0]].pri
    ensures |Plan(envs, q, count)| == TotalPri(envs, q)
    ensures multiset(Plan(envs, q, count))[e] == if e in q then envs[e].pri else 0
  {
    hide Round;
    hide Copies;
    hide TotalPri;
    var c, t := q[0], q[1..];
    assert Distinct(t) && c !in t;
    PlanLength(envs, q, count);
    RoundCount(envs, t, e);
    CopiesCount(c, count, e);
    CopiesCount(c, envs[c].pri - count, e);
    ConcatCount(Copies(c, count), Round(envs, t), e);
    ConcatCount(Copies(c, count) + Round(envs, t), Copies(c, envs[c].pri - count), e);
    assert e in q <==> e == c || e in t;
  }

  lemma ConcatCount(a: seq<nat>, b: seq<nat>, e: nat)
    ensures multiset(a + b)[e] == multiset(a)[e] + multiset(b)[e]
  {
  }

  lemma PlanLength(envs: seq<Env>, q: seq<nat>, count: nat)
    requires q != [] && q[0] < |envs| && count <= envs[q[0]].pri
    ensures |Plan(envs, q, count)| == TotalPri(envs, q)
  {
    RoundLength(envs, q[1..]);
  }

  /**
   Exact shares: from any state, a window of as many timer ticks as the priorities of the
   runnable envs add up to runs each runnable env exactly its priority many times.
   */
  lemma ExactShares(s: Sys, e: nat)
    requires Inv(s) && s.cur.Some?
    ensures multiset(Ticks(s, TotalPri(s.envs, s.queue)))[e] == if IsRunnable(s, e) then s.envs[e].pri else 0
  {
    hide Ticks;
    hide Plan;
    hide Distinct;
    QueueInRange(s);
    PlanCount(s.envs, s.queue, s.count, e);
    var plan := PlanOf(s);
    TicksFollowPlan(s, |plan|);
    assert plan[..|plan|] == plan;
  }
}
