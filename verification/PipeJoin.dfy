/**
 pipe_read and pipe_write with the end-of-pipe test they really make (user/lib/pipe.c): the
 bytes of PipeStream and the mappings of PipeEof in one machine, so that the answer a call
 acts on is the one _pipe_is_closed computed from the page counts. One env reads and one
 writes; any number of envs map, share and close the ends.
 */
module PipeJoin {
  import E = PipeEof
  import S = PipeStream

  /** Env `re` reads through slot `ri`, page `r`; env `we` writes through slot `wi`, page `w`. */
  datatype Ends = Ends(re: nat, ri: nat, r: nat, we: nat, wi: nat, w: nat)

  /** `tested` records how long the stream was at the reader's latest test for an empty ring. */
  datatype Joint = Joint(eof: E.State, pipe: S.Pipe, tested: nat)

  datatype Step = Kernel(k: E.Step) | Stream(t: S.Step)

  predicate IsPipe(x: Ends, s: E.State) {
    x.r in s.pipes && x.w in s.pipes && x.r != x.w && s.pipes[x.r] == s.pipes[x.w]
  }

  /** The current env is the reader, with the read end mapped where it reads from. */
  predicate ReaderOn(x: Ends, s: E.State) {
    && IsPipe(x, s) && s.cur == x.re && s.cur in s.envs && s.envs[s.cur].pc == E.Idle
    && E.Fd(x.re, x.ri) in s.maps && s.maps[E.Fd(x.re, x.ri)] == x.r
  }

  predicate WriterOn(x: Ends, s: E.State) {
    && IsPipe(x, s) && s.cur == x.we && s.cur in s.envs && s.envs[s.cur].pc == E.Idle
    && E.Fd(x.we, x.wi) in s.maps && s.maps[E.Fd(x.we, x.wi)] == x.w
  }

  /** The call in progress is about to return from _pipe_is_closed on slot `i` with this answer. */
  predicate Answered(s: E.State, i: nat, closed: bool) {
    E.Answers(s, closed) && s.envs[s.cur].probe.i == i
  }

  /** With a byte already read, pipe_read returns without asking whether the pipe is closed. */
  predicate Asks(p: S.Pipe) { p.reader.pc == S.REmpty && p.reader.buf == [] }

  predicate IsRead(t: S.Step) {
    t.CallRead? || t.ReadLoop? || t.ReadTest? || t.ReadEmpty? || t.ReadByte?
  }

  predicate MayRead(x: Ends, j: Joint, t: S.Step) {
    && ReaderOn(x, j.eof) && (x.re == x.we ==> j.pipe.writer.pc == S.WIdle)
    && if t.ReadEmpty? && Asks(j.pipe) then Answered(j.eof, x.ri, t.closed)
       else j.eof.envs[x.re].probe == E.NoProbe
  }

  predicate MayWrite(x: Ends, j: Joint, t: S.Step) {
    && WriterOn(x, j.eof) && (x.re == x.we ==> j.pipe.reader.pc == S.RIdle)
    && if t.WriteFull? then Answered(j.eof, x.wi, t.closed)
       else j.eof.envs[x.we].probe == E.NoProbe
  }

  /** Inside a call an env only runs _pipe_is_closed, is preempted or yields. */
  predicate InCall(k: E.Step, i: nat, asks: bool) {
    k.Switch? || k.ProbeFd? || k.ProbePipe? || k.ProbeEnd? || (asks && k == E.ProbeRuns(i))
  }

  ghost predicate Enabled(x: Ends, j: Joint, st: Step) {
    match st
    case Kernel(k) =>
      && E.Enabled(j.eof, k)
      && (j.eof.cur == x.re && j.pipe.reader.pc != S.RIdle ==> InCall(k, x.ri, Asks(j.pipe)))
      && (j.eof.cur == x.we && j.pipe.writer.pc != S.WIdle ==> InCall(k, x.wi, j.pipe.writer.pc == S.WFull))
    case Stream(t) =>
      S.Enabled(j.pipe, t) && if IsRead(t) then MayRead(x, j, t) else MayWrite(x, j, t)
  }

  ghost function Apply(x: Ends, j: Joint, st: Step): Joint
    requires Enabled(x, j, st)
  {
    match st
    case Kernel(k) => j.(eof := E.Apply(j.eof, k))
    case Stream(t) =>
      Joint(if E.Enabled(j.eof, E.ProbeEnd) then E.Apply(j.eof, E.ProbeEnd) else j.eof,
            S.Apply(j.pipe, t), if t.ReadTest? then |j.pipe.sent| else j.tested)
  }

  ghost predicate Next(x: Ends, j: Joint, st: Step, j': Joint) {
    Enabled(x, j, st) && j' == Apply(x, j, st)
  }

  ghost predicate IsRun(x: Ends, states: seq<Joint>, steps: seq<Step>) {
    && |states| == |steps| + 1
    && (forall n :: 0 <= n < |steps| ==> Next(x, states[n], steps[n], states[n + 1]))
  }

  /** No descriptor is open yet and the pipe's page holds a new pipe. */
  ghost predicate Begun(j: Joint) { E.Start(j.eof) && S.Fresh(j.pipe) && j.tested == 0 }

  /** What the reader's test has seen: everything was read by then, or the counters had wrapped apart. */
  ghost predicate SawEmpty(j: Joint) {
    && |j.pipe.got| <= j.tested
    && (|j.pipe.got| == j.tested || |j.pipe.got| / S.U32 < j.tested / S.U32)
  }

  ghost predicate Inv(j: Joint) {
    && E.Inv(j.eof) && S.Inv(j.pipe) && j.tested <= |j.pipe.sent|
    && (j.pipe.reader.pc == S.REmpty ==> SawEmpty(j))
  }

  lemma StepKeeps(x: Ends, j: Joint, st: Step, j': Joint)
    requires Inv(j) && Next(x, j, st, j')
    ensures Inv(j') && j.pipe.sent <= j'.pipe.sent
  {
    hide E.Inv, E.Apply, E.Enabled, MayRead, MayWrite;
    match st
    case Kernel(k) =>
      E.StepKeeps(j.eof, j'.eof, k);
    case Stream(t) =>
      if E.Enabled(j.eof, E.ProbeEnd) { E.StepKeeps(j.eof, j'.eof, E.ProbeEnd); }
      StreamKeeps(j, t, j');
  }

  lemma StreamKeeps(j: Joint, t: S.Step, j': Joint)
    requires S.Inv(j.pipe) && S.Enabled(j.pipe, t) && j'.pipe == S.Apply(j.pipe, t)
    requires j.tested <= |j.pipe.sent| && (j.pipe.reader.pc == S.REmpty ==> SawEmpty(j))
    requires j'.tested == if t.ReadTest? then |j.pipe.sent| else j.tested
    ensures S.Inv(j'.pipe) && j.pipe.sent <= j'.pipe.sent && j'.tested <= |j'.pipe.sent|
    ensures j'.pipe.reader.pc == S.REmpty ==> SawEmpty(j')
  {
    S.StepKeeps(j.pipe, j'.pipe, t);
    S.EmptyTestExact(j.pipe);
    S.InFlight(j.pipe);
    hide S.Inv, S.SeesEmpty;
  }

  lemma BegunInv(j: Joint)
    requires Begun(j)
    ensures Inv(j)
  {
    hide E.Inv;
    E.RunKeeps([j.eof], [], 0);
    S.FreshInv(j.pipe);
  }

  lemma {:induction false} RunKeeps(x: Ends, states: seq<Joint>, steps: seq<Step>, n: nat)
    requires IsRun(x, states, steps) && n <= |steps| && Begun(states[0])
    ensures Inv(states[n])
  {
    hide Next, Inv, Begun;
    if n == 0 {
      BegunInv(states[0]);
    } else {
      RunKeeps(x, states, steps, n - 1);
      assert Next(x, states[n - 1], steps[n - 1], states[n]);
      StepKeeps(x, states[n - 1], steps[n - 1], states[n]);
    }
  }

  // ---- what a short call says about the other end ----

  /** This step makes a pipe_read for at least one byte return 0. */
  ghost predicate ReturnsZero(x: Ends, j: Joint, st: Step, j': Joint) {
    && Next(x, j, st, j') && j.pipe.reader.pc != S.RIdle && j.pipe.reader.n > 0
    && j'.pipe.reader.pc == S.RIdle && j'.pipe.reader.buf == []
  }

  /** A pipe_read for at least one byte that returns 0 has asked, and no env maps the write end. */
  lemma ZeroIsEnd(x: Ends, j: Joint, st: Step, j': Joint)
    requires Inv(j) && ReturnsZero(x, j, st, j')
    ensures st == Stream(S.ReadEmpty(true)) && Asks(j.pipe)
    ensures IsPipe(x, j.eof) && E.PageRef(j.eof, x.w) == 0 && E.PageRef(j'.eof, x.w) == 0 && IsPipe(x, j'.eof)
    ensures j'.pipe.sent == j.pipe.sent && j'.pipe.got == j.pipe.got
  {
    hide E.Inv, E.Apply, E.Enabled;
    if st.Stream? {
      S.ReadReturns(j.pipe, j'.pipe, st.t);
      assert Asks(j.pipe);
      E.ClosedIsTrue(j.eof, x.w);
      ProbeEnds(j.eof, x.w);
    }
  }

  lemma ProbeEnds(s: E.State, w: nat)
    requires E.Enabled(s, E.ProbeEnd)
    ensures var s' := E.Apply(s, E.ProbeEnd);
      s'.pipes == s.pipes && s'.maps == s.maps && E.PageRef(s', w) == E.PageRef(s, w)
  {
    assert E.Slots(E.Apply(s, E.ProbeEnd), w) == E.Slots(s, w);
  }

  /** A pipe_write that returns short has asked, and no env maps the read end. */
  lemma ShortIsEnd(x: Ends, j: Joint, st: Step, j': Joint)
    requires Inv(j) && Next(x, j, st, j') && j.pipe.writer.pc != S.WIdle
    requires j'.pipe.writer.pc == S.WIdle && j'.pipe.writer.i < |j.pipe.writer.data|
    ensures st == Stream(S.WriteFull(true))
    ensures IsPipe(x, j.eof) && E.PageRef(j'.eof, x.r) == 0 && IsPipe(x, j'.eof)
  {
    hide E.Inv, E.Apply, E.Enabled;
    if st.Stream? {
      S.WriteReturns(j.pipe, j'.pipe, st.t);
      E.ClosedIsTrue(j.eof, x.r);
      ProbeEnds(j.eof, x.r);
    }
  }

  /** With the write end mapped nowhere no step adds a byte, with the read end nowhere none takes one. */
  lemma ClosedStep(x: Ends, j: Joint, st: Step, j': Joint)
    requires Inv(j) && Next(x, j, st, j') && IsPipe(x, j.eof)
    ensures IsPipe(x, j'.eof)
    ensures E.PageRef(j.eof, x.w) == 0 ==> E.PageRef(j'.eof, x.w) == 0 && j'.pipe.sent == j.pipe.sent
    ensures E.PageRef(j.eof, x.r) == 0 ==> E.PageRef(j'.eof, x.r) == 0 && j'.pipe.got == j.pipe.got
  {
    hide E.Inv;
    PipesStay(x, j, st, j');
    forall page | page in {x.r, x.w} && E.PageRef(j.eof, page) == 0
      ensures E.PageRef(j'.eof, page) == 0
    {
      EndStays(x, j, st, j', page);
    }
    if st.Stream? && !IsRead(st.t) {
      assert E.Fd(x.we, x.wi) in E.Slots(j.eof, x.w);
    } else if st.Stream? {
      assert E.Fd(x.re, x.ri) in E.Slots(j.eof, x.r);
    }
  }

  lemma PipesStay(x: Ends, j: Joint, st: Step, j': Joint)
    requires Inv(j) && Next(x, j, st, j') && IsPipe(x, j.eof)
    ensures IsPipe(x, j'.eof)
  {
    hide S.Apply, S.Enabled;
  }

  lemma EndStays(x: Ends, j: Joint, st: Step, j': Joint, page: nat)
    requires Inv(j) && Next(x, j, st, j') && page in j.eof.pipes && E.PageRef(j.eof, page) == 0
    ensures E.PageRef(j'.eof, page) == 0
  {
    hide E.Inv, E.Apply, E.Enabled, S.Apply, S.Enabled;
    if st.Kernel? {
      E.ClosedStays(j.eof, j'.eof, st.k, page);
    } else if E.Enabled(j.eof, E.ProbeEnd) {
      E.ClosedStays(j.eof, j'.eof, E.ProbeEnd, page);
    }
  }

  lemma {:induction false} ClosedFrom(x: Ends, states: seq<Joint>, steps: seq<Step>, n: nat, m: nat)
    requires IsRun(x, states, steps) && n <= m <= |steps| && Inv(states[n]) && IsPipe(x, states[n].eof)
    ensures Inv(states[m]) && IsPipe(x, states[m].eof)
    ensures E.PageRef(states[n].eof, x.w) == 0 ==>
              E.PageRef(states[m].eof, x.w) == 0 && states[m].pipe.sent == states[n].pipe.sent
    ensures E.PageRef(states[n].eof, x.r) == 0 ==>
              E.PageRef(states[m].eof, x.r) == 0 && states[m].pipe.got == states[n].pipe.got
    decreases m - n
  {
    hide Inv, Next, IsPipe;
    if n < m {
      assert Next(x, states[n], steps[n], states[n + 1]);
      StepKeeps(x, states[n], steps[n], states[n + 1]);
      ClosedStep(x, states[n], steps[n], states[n + 1]);
      ClosedFrom(x, states, steps, n + 1, m);
    }
  }

  /**
   End of file is final in every run: once a pipe_read for at least one byte has returned 0, the
   write end is mapped by no env at any later moment and no byte is ever added to the stream.
   */
  lemma EndIsFinal(x: Ends, states: seq<Joint>, steps: seq<Step>, n: nat, m: nat)
    requires IsRun(x, states, steps) && n < m <= |steps| && Begun(states[0])
    requires ReturnsZero(x, states[n], steps[n], states[n + 1])
    ensures E.PageRef(states[m].eof, x.w) == 0 && states[m].pipe.sent == states[n].pipe.sent
  {
    hide Inv, Next, ReturnsZero, IsPipe;
    RunKeeps(x, states, steps, n);
    RunKeeps(x, states, steps, n + 1);
    ZeroIsEnd(x, states[n], steps[n], states[n + 1]);
    ClosedFrom(x, states, steps, n + 1, m);
  }

  /** After a pipe_write that returned short no env maps the read end and no byte is ever taken. */
  lemma ShortIsFinal(x: Ends, states: seq<Joint>, steps: seq<Step>, n: nat, m: nat)
    requires IsRun(x, states, steps) && n < m <= |steps| && Begun(states[0])
    requires states[n].pipe.writer.pc != S.WIdle && states[n + 1].pipe.writer.pc == S.WIdle
    requires states[n + 1].pipe.writer.i < |states[n].pipe.writer.data|
    ensures E.PageRef(states[m].eof, x.r) == 0 && states[m].pipe.got == states[n + 1].pipe.got
  {
    hide Inv, Next, IsPipe;
    RunKeeps(x, states, steps, n);
    RunKeeps(x, states, steps, n + 1);
    assert Next(x, states[n], steps[n], states[n + 1]);
    ShortIsEnd(x, states[n], steps[n], states[n + 1]);
    ClosedFrom(x, states, steps, n + 1, m);
  }

  // ---- whether 0 means that everything was read ----

  /**
   A return of 0 comes with everything read if and only if no byte was written between the
   reader's test for an empty ring and its return, and the counters have wrapped equally often.
   */
  lemma ZeroIsCompleteExact(x: Ends, j: Joint, st: Step, j': Joint)
    requires Inv(j) && ReturnsZero(x, j, st, j')
    ensures j'.pipe.got == j'.pipe.sent <==>
              j.tested == |j.pipe.sent| && |j.pipe.got| / S.U32 == |j.pipe.sent| / S.U32
  {
    ZeroIsEnd(x, j, st, j');
    S.InFlight(j.pipe);
    hide S.Inv, E.Inv, Next;
  }

  /** A reader about to return was last told "empty" about the stream as it is now. */
  ghost predicate TestIsFresh(j: Joint) { j.pipe.reader.pc == S.REmpty ==> j.tested == |j.pipe.sent| }

  lemma {:induction false} TestsStayFresh(x: Ends, states: seq<Joint>, steps: seq<Step>, n: nat, m: nat)
    requires IsRun(x, states, steps) && n <= m <= |steps| && Inv(states[n]) && IsPipe(x, states[n].eof)
    requires E.PageRef(states[n].eof, x.w) == 0 && TestIsFresh(states[n])
    ensures TestIsFresh(states[m])
    decreases m - n
  {
    hide Inv, Next, IsPipe, TestIsFresh;
    if n < m {
      assert Next(x, states[n], steps[n], states[n + 1]);
      StepKeeps(x, states[n], steps[n], states[n + 1]);
      ClosedStep(x, states[n], steps[n], states[n + 1]);
      FreshStep(x, states[n], steps[n], states[n + 1]);
      TestsStayFresh(x, states, steps, n + 1, m);
    }
  }

  lemma FreshStep(x: Ends, j: Joint, st: Step, j': Joint)
    requires Next(x, j, st, j') && TestIsFresh(j) && j'.pipe.sent == j.pipe.sent
    ensures TestIsFresh(j')
  {
    hide E.Enabled, E.Apply;
  }

  /**
   Reading on until a second 0 is enough: in every run, when a later pipe_read returns 0 as
   well, everything ever written has been read if and only if the counters have wrapped equally
   often, and the stream will not grow any more.
   */
  lemma SecondZeroIsComplete(x: Ends, states: seq<Joint>, steps: seq<Step>, n: nat, m: nat)
    requires IsRun(x, states, steps) && n < m < |steps| && Begun(states[0])
    requires ReturnsZero(x, states[n], steps[n], states[n + 1])
    requires ReturnsZero(x, states[m], steps[m], states[m + 1])
    ensures states[m + 1].pipe.got == states[m + 1].pipe.sent <==>
              |states[m].pipe.got| / S.U32 == |states[m].pipe.sent| / S.U32
    ensures states[m + 1].pipe.sent == states[n].pipe.sent
  {
    RunKeeps(x, states, steps, n);
    RunKeeps(x, states, steps, n + 1);
    RunKeeps(x, states, steps, m);
    hide Inv, Next, IsPipe;
    ZeroIsEnd(x, states[n], steps[n], states[n + 1]);
    TestsStayFresh(x, states, steps, n + 1, m);
    ZeroIsEnd(x, states[m], steps[m], states[m + 1]);
    ZeroIsCompleteExact(x, states[m], steps[m], states[m + 1]);
    EndIsFinal(x, states, steps, n, m + 1);
  }

  // ---- a run in which the first 0 comes too early ----

  ghost predicate Reached(x: Ends, j: Joint) {
    exists states, steps :: IsRun(x, states, steps) && Begun(states[0]) && states[|steps|] == j
  }

  lemma Take(x: Ends, j: Joint, st: Step) returns (j': Joint)
    requires Reached(x, j) && Enabled(x, j, st)
    ensures j' == Apply(x, j, st) && Reached(x, j')
  {
    hide Enabled, Apply;
    j' := Apply(x, j, st);
    var states, steps :| IsRun(x, states, steps) && Begun(states[0]) && states[|steps|] == j;
    var states', steps' := states + [j'], steps + [st];
    forall i | 0 <= i < |steps'|
      ensures Next(x, states'[i], steps'[i], states'[i + 1])
    {
      if i < |steps| { assert Next(x, states[i], steps[i], states[i + 1]); }
    }
    assert IsRun(x, states', steps') && states'[|steps'|] == j';
  }

  /** The pipe of the run: env 0 reads through slot 0, env 1 writes through slot 1. */
  const ENDS := Ends(0, 0, 100, 1, 1, 101)
  const PIPES: map<nat, nat> := map[100 := 102, 101 := 102]

  /** Both ends are mapped where they are used and nowhere else. */
  function Mapped(): map<E.Key, nat> {
    map[E.Fd(0, 0) := 100, E.Data(0, 0) := 102, E.Fd(1, 1) := 101, E.Data(1, 1) := 102]
  }

  function NewPipe(): S.Pipe {
    S.Pipe(0, 0, seq(S.PIPE_SIZE, _ => 0), S.Reader(S.RIdle, 0, []), S.Writer(S.WIdle, [], 0), [], [])
  }

  lemma Call(j: Joint, k: E.Step) returns (j': Joint)
    requires Reached(ENDS, j) && E.Enabled(j.eof, k)
    requires j.pipe.reader.pc == S.RIdle || j.eof.cur != 0 || InCall(k, 0, Asks(j.pipe))
    requires j.pipe.writer.pc == S.WIdle
    ensures j' == j.(eof := E.Apply(j.eof, k)) && Reached(ENDS, j')
  {
    hide E.Enabled, E.Apply, Reached;
    j' := Take(ENDS, j, Kernel(k));
  }

  /** Closing slot `i`: four system calls, after which neither of its pages is mapped there. */
  lemma CloseSlot(j: Joint, i: nat) returns (j': Joint)
    requires Reached(ENDS, j) && E.Ready(j.eof) && E.Fd(j.eof.cur, i) in j.eof.maps
    requires (j.pipe.reader.pc == S.RIdle || j.eof.cur != 0) && j.pipe.writer.pc == S.WIdle
    ensures Reached(ENDS, j') && j'.pipe == j.pipe && j'.tested == j.tested
    ensures j'.eof == j.eof.(maps := j.eof.maps - {E.Fd(j.eof.cur, i), E.Data(j.eof.cur, i)})
  {
    hide Reached;
    var e := j.eof.cur;
    var j1 := Call(j, E.StartClose(i));
    var j2 := Call(j1, E.Advance(true));
    var j3 := Call(j2, E.Advance(true));
    j' := Call(j3, E.Advance(true));
    assert j'.eof.maps == j.eof.maps - {E.Fd(e, i), E.Data(e, i)};
    assert j'.eof.envs == j.eof.envs;
  }

  lemma OpenPage(j: Joint, k: E.Key, page: nat) returns (j': Joint)
    requires Reached(ENDS, j) && E.Ready(j.eof) && j.pipe == NewPipe() && j.eof.pipes == map[] && j.eof.datas == {}
    requires k.e == j.eof.cur && k !in j.eof.maps && page !in j.eof.maps.Values
    ensures Reached(ENDS, j') && j' == j.(eof := j.eof.(maps := j.eof.maps[k := page]))
  {
    hide Reached;
    assert E.Slots(j.eof, page) == {} by {
      assert forall q :: q in j.eof.maps ==> j.eof.maps[q] in j.eof.maps.Values;
    }
    j' := Call(j, E.Alloc(k, page));
  }

  lemma SwitchTo(j: Joint, e: nat) returns (j': Joint)
    requires Reached(ENDS, j) && e in j.eof.envs && j.pipe.writer.pc == S.WIdle
    ensures Reached(ENDS, j') && j'.pipe == j.pipe && j'.tested == j.tested
    ensures j'.eof == j.eof.(cur := e, envs := j.eof.envs[e := j.eof.envs[e].(runs := j.eof.envs[e].runs + 1)])
  {
    hide Reached;
    j' := Call(j, E.Switch(e));
  }

  /** The two descriptor pages and the data page, mapped by env 0. */
  lemma OpenPages() returns (j: Joint)
    ensures Reached(ENDS, j) && j.pipe == NewPipe() && j.tested == 0 && j.eof.pipes == map[] && j.eof.datas == {}
    ensures j.eof.maps == map[E.Fd(0, 0) := 100, E.Fd(0, 1) := 101, E.Data(0, 0) := 102]
    ensures j.eof.cur == 0 && j.eof.envs == map[0 := E.Env(0, E.Idle, E.NoProbe)]
  {
    var j0 := Joint(E.State(map[], map[], {}, map[0 := E.Env(0, E.Idle, E.NoProbe)], 0), NewPipe(), 0);
    var states, steps: seq<Step> := [j0], [];
    assert IsRun(ENDS, states, steps) && Begun(states[0]) && states[|steps|] == j0;
    hide Reached;
    var j1 := OpenPage(j0, E.Fd(0, 0), 100);
    var j2 := OpenPage(j1, E.Fd(0, 1), 101);
    j := OpenPage(j2, E.Data(0, 0), 102);
  }

  /** Env 0 makes the pipe. */
  lemma MakePipe() returns (j: Joint)
    ensures Reached(ENDS, j) && j.pipe == NewPipe() && j.tested == 0 && j.eof.pipes == PIPES
    ensures j.eof.maps == map[E.Fd(0, 0) := 100, E.Fd(0, 1) := 101, E.Data(0, 0) := 102, E.Data(0, 1) := 102]
    ensures j.eof.cur == 0 && j.eof.envs == map[0 := E.Env(0, E.Idle, E.NoProbe)]
  {
    hide Reached;
    var j0 := OpenPages();
    var j1 := Call(j0, E.ShareData(0, 1));
    j := EndsMade(j1);
  }

  lemma EndsMade(j: Joint) returns (j': Joint)
    requires Reached(ENDS, j) && E.Ready(j.eof) && j.pipe == NewPipe() && j.eof.pipes == map[] && j.eof.datas == {}
    requires j.eof.maps == map[E.Fd(0, 0) := 100, E.Fd(0, 1) := 101, E.Data(0, 0) := 102, E.Data(0, 1) := 102]
    requires j.eof.cur == 0
    ensures Reached(ENDS, j') && j' == j.(eof := j.eof.(pipes := PIPES, datas := {102}))
  {
    hide Reached;
    assert E.Slots(j.eof, 100) == {E.Fd(0, 0)};
    assert E.Slots(j.eof, 101) == {E.Fd(0, 1)};
    assert E.Slots(j.eof, 102) == {E.Data(0, 0), E.Data(0, 1)};
    j' := Call(j, E.PipeMade(0, 1));
  }

  /** Env 0 forks env 1. */
  lemma SharePipe() returns (j: Joint)
    ensures Reached(ENDS, j) && j.pipe == NewPipe() && j.tested == 0 && j.eof.pipes == PIPES && j.eof.cur == 0
    ensures j.eof.maps == map[
              E.Fd(0, 0) := 100, E.Fd(0, 1) := 101, E.Data(0, 0) := 102, E.Data(0, 1) := 102,
              E.Fd(1, 0) := 100, E.Fd(1, 1) := 101, E.Data(1, 0) := 102, E.Data(1, 1) := 102]
    ensures j.eof.envs == map[0 := E.Env(0, E.Idle, E.NoProbe), 1 := E.Env(0, E.Idle, E.NoProbe)]
  {
    hide Reached, E.Inherited;
    var j0 := MakePipe();
    CopiedMaps(j0.eof.maps);
    j := Call(j0, E.Fork(1));
  }

  lemma CopiedMaps(m: map<E.Key, nat>)
    requires m == map[E.Fd(0, 0) := 100, E.Fd(0, 1) := 101, E.Data(0, 0) := 102, E.Data(0, 1) := 102]
    ensures E.Inherited(m, 0, 1) ==
            map[E.Fd(1, 0) := 100, E.Fd(1, 1) := 101, E.Data(1, 0) := 102, E.Data(1, 1) := 102]
  {
    var c := map[E.Fd(1, 0) := 100, E.Fd(1, 1) := 101, E.Data(1, 0) := 102, E.Data(1, 1) := 102];
    E.InheritedKeys(m, 0, 1);
    hide E.Inherited;
    forall k: E.Key
      ensures k in E.Inherited(m, 0, 1) <==> k in c
      ensures k in c ==> E.Inherited(m, 0, 1)[k] == c[k]
    {
    }
  }

  /** Env 0 keeps the read end and is back in control; env 1 keeps the write end. */
  lemma SplitPipe() returns (j: Joint)
    ensures Reached(ENDS, j) && j.pipe == NewPipe() && j.tested == 0 && j.eof.pipes == PIPES
    ensures j.eof.maps == Mapped() && j.eof.cur == 0
    ensures j.eof.envs == map[0 := E.Env(1, E.Idle, E.NoProbe), 1 := E.Env(1, E.Idle, E.NoProbe)]
  {
    hide Reached;
    var j1 := SharePipe();
    var j2 := CloseSlot(j1, 1);
    var j3 := SwitchTo(j2, 1);
    var j4 := CloseSlot(j3, 0);
    j := SwitchTo(j4, 0);
    assert j.eof.maps == Mapped();
  }

  /** Env 0 finds the ring empty; then env 1 writes one byte and closes its end. */
  lemma WriteAfterTest() returns (j: Joint)
    ensures Reached(ENDS, j) && j.eof.pipes == PIPES && j.eof.cur == 1
    ensures j.eof.maps == map[E.Fd(0, 0) := 100, E.Data(0, 0) := 102]
    ensures j.eof.envs == map[0 := E.Env(1, E.Idle, E.NoProbe), 1 := E.Env(2, E.Idle, E.NoProbe)]
    ensures j.pipe.reader == S.Reader(S.REmpty, 1, []) && j.pipe.writer.pc == S.WIdle && |j.pipe.buf| == S.PIPE_SIZE
    ensures j.pipe.sent == [7] && j.pipe.got == []
  {
    hide Reached;
    var j0 := SplitPipe();
    var j1 := Take(ENDS, j0, Stream(S.CallRead(1)));
    var j2 := Take(ENDS, j1, Stream(S.ReadLoop));
    var j3 := Take(ENDS, j2, Stream(S.ReadTest));
    var j4 := SwitchTo(j3, 1);
    var j5 := Take(ENDS, j4, Stream(S.CallWrite([7])));
    var j6 := Take(ENDS, j5, Stream(S.WriteLoop));
    var j7 := Take(ENDS, j6, Stream(S.WriteTest));
    var j8 := Take(ENDS, j7, Stream(S.WriteByte));
    var j9 := Take(ENDS, j8, Stream(S.WriteLoop));
    j := CloseSlot(j9, 1);
  }

  /**
   A run in which a byte that was written, and still lies in the ring, is hidden behind an end
   of file: the reader tests the ring, is preempted, the writer writes and closes, and the
   reader then finds the pipe closed and returns 0.
   */
  lemma FirstZeroTooEarly() returns (j: Joint, st: Step, j': Joint)
    ensures Reached(ENDS, j) && ReturnsZero(ENDS, j, st, j')
    ensures j'.pipe.got == [] && j'.pipe.sent == [7]
  {
    hide Reached;
    var j0 := WriteAfterTest();
    var j1 := SwitchTo(j0, 0);
    var j2 := Call(j1, E.ProbeRuns(0));
    var j3 := Call(j2, E.ProbeFd);
    assert E.Slots(j2.eof, 100) == {E.Fd(0, 0)};
    j := Call(j3, E.ProbePipe);
    assert E.Slots(j3.eof, 102) == {E.Data(0, 0)};
    st := Stream(S.ReadEmpty(true));
    j' := Take(ENDS, j, st);
  }
}
