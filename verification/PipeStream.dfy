/**
 The bytes of a pipe (pipe_read and pipe_write of user/lib/pipe.c): one reader and one writer
 on a ring buffer of 32 bytes, interleaved at every test and every byte transfer. Positions
 are 32-bit counters that wrap; the number of bytes carried is not bounded.
 */
module PipeStream {
  const PIPE_SIZE: nat := 32
  const U32: nat := 0x1_0000_0000

  /** Program counters of pipe_read: about to loop, to test, to transfer, or found it empty. */
  datatype ReaderPc = RIdle | RLoop | RTest | REmpty | RReady

  datatype WriterPc = WIdle | WLoop | WTest | WFull | WReady

  /** `buf` is what this call has read so far, `n` how much was asked for. */
  datatype Reader = Reader(pc: ReaderPc, n: nat, buf: seq<int>)

  datatype Writer = Writer(pc: WriterPc, data: seq<int>, i: nat)

  /** `sent` and `got` record every byte ever put into and taken out of the pipe. */
  datatype Pipe = Pipe(
    rpos: nat, wpos: nat, buf: seq<int>, reader: Reader, writer: Writer, sent: seq<int>, got: seq<int>)

  datatype Step =
    | CallRead(n: nat)
    | ReadLoop
    | ReadTest
    | ReadEmpty(closed: bool)
    | ReadByte
    | CallWrite(data: seq<int>)
    | WriteLoop
    | WriteTest
    | WriteFull(closed: bool)
    | WriteByte

  function Cell(pos: nat): (c: nat)
    ensures c < PIPE_SIZE
  {
    pos % PIPE_SIZE
  }

  /** The reader's test `p_rpos >= p_wpos` and the writer's `p_wpos - p_rpos >= PIPE_SIZE`. */
  predicate SeesEmpty(s: Pipe) { s.rpos >= s.wpos }

  predicate SeesFull(s: Pipe) { (s.wpos - s.rpos) % U32 >= PIPE_SIZE }

  predicate Enabled(s: Pipe, st: Step) {
    && |s.buf| == PIPE_SIZE
    && match st
       case CallRead(n) => s.reader.pc == RIdle
       case ReadLoop => s.reader.pc == RLoop
       case ReadTest => s.reader.pc == RTest
       case ReadEmpty(closed) => s.reader.pc == REmpty
       case ReadByte => s.reader.pc == RReady
       case CallWrite(data) => s.writer.pc == WIdle
       case WriteLoop => s.writer.pc == WLoop
       case WriteTest => s.writer.pc == WTest
       case WriteFull(closed) => s.writer.pc == WFull
       case WriteByte => s.writer.pc == WReady && s.writer.i < |s.writer.data|
  }

  function Apply(s: Pipe, st: Step): Pipe
    requires Enabled(s, st)
  {
    var r, w := s.reader, s.writer;
    match st
    case CallRead(n) => s.(reader := Reader(RLoop, n, []))
    case ReadLoop => s.(reader := r.(pc := if |r.buf| < r.n then RTest else RIdle))
    case ReadTest => s.(reader := r.(pc := if SeesEmpty(s) then REmpty else RReady))
    case ReadEmpty(closed) => s.(reader := r.(pc := if |r.buf| >= 1 || closed then RIdle else RTest))
    case ReadByte =>
      var b := s.buf[Cell(s.rpos)];
      s.(rpos := (s.rpos + 1) % U32, got := s.got + [b], reader := Reader(RLoop, r.n, r.buf + [b]))
    case CallWrite(data) => s.(writer := Writer(WLoop, data, 0))
    case WriteLoop => s.(writer := w.(pc := if w.i < |w.data| then WTest else WIdle))
    case WriteTest => s.(writer := w.(pc := if SeesFull(s) then WFull else WReady))
    case WriteFull(closed) => s.(writer := w.(pc := if closed then WIdle else WTest))
    case WriteByte =>
      var b := w.data[w.i];
      s.(buf := s.buf[Cell(s.wpos) := b], wpos := (s.wpos + 1) % U32, sent := s.sent + [b],
         writer := Writer(WLoop, w.data, w.i + 1))
  }

  /**
   The bytes taken out are a prefix of the bytes put in; the rest, at most 32, lie in the ring;
   the counters are the two totals modulo 2^32; and each side's latest test still permits its
   transfer.
   */
  ghost predicate Inv(s: Pipe) {
    && |s.buf| == PIPE_SIZE && s.wpos == |s.sent| % U32 && s.rpos == |s.got| % U32
    && |s.got| <= |s.sent| <= |s.got| + PIPE_SIZE
    && s.got == s.sent[..|s.got|]
    && (forall j :: |s.got| <= j < |s.sent| ==> s.buf[Cell(j)] == s.sent[j])
    && (s.reader.pc == RReady ==> |s.got| < |s.sent|)
    && (s.writer.pc == WReady ==> |s.sent| < |s.got| + PIPE_SIZE)
    && (s.reader.pc != RIdle ==> |s.reader.buf| <= s.reader.n)
    && (s.reader.pc in {RTest, REmpty, RReady} ==> |s.reader.buf| < s.reader.n)
    && |s.reader.buf| <= |s.got| && s.reader.buf == s.got[|s.got| - |s.reader.buf|..]
    && s.writer.i <= |s.writer.data| && s.writer.i <= |s.sent|
    && s.writer.data[..s.writer.i] == s.sent[|s.sent| - s.writer.i..]
    && (s.writer.pc in {WTest, WFull, WReady} ==> s.writer.i < |s.writer.data|)
  }

  // ---- 32-bit counters ----

  /** The ring's size divides 2^32, so a wrapped counter still selects the right cell. */
  lemma WrappedCell(n: nat)
    ensures Cell(n % U32) == Cell(n)
  {
    assert n == U32 * (n / U32) + n % U32;
    assert U32 * (n / U32) == PIPE_SIZE * (0x800_0000 * (n / U32));
  }

  lemma WrappedNext(n: nat)
    ensures (n % U32 + 1) % U32 == (n + 1) % U32
  {
  }

  /** The unsigned difference of the counters is the number of bytes in the ring. */
  lemma WrappedDifference(w: nat, r: nat)
    requires r <= w <= r + PIPE_SIZE
    ensures (w % U32 - r % U32) % U32 == w - r
  {
  }

  /** Comparing the counters compares the totals unless one has wrapped once more. */
  lemma WrappedOrder(w: nat, r: nat)
    requires r <= w <= r + PIPE_SIZE
    ensures r % U32 >= w % U32 <==> r == w || r / U32 < w / U32
    ensures r / U32 <= w / U32
  {
  }

  /**
   The reader's test is exact up to the wrap: it reports an empty pipe if and only if the pipe
   is empty or the write counter has wrapped once more than the read counter.
   */
  lemma EmptyTestExact(s: Pipe)
    requires Inv(s)
    ensures SeesEmpty(s) <==> |s.got| == |s.sent| || |s.got| / U32 < |s.sent| / U32
  {
    WrappedOrder(|s.sent|, |s.got|);
  }

  /** The writer's test is exact in every run. */
  lemma FullTestExact(s: Pipe)
    requires Inv(s)
    ensures SeesFull(s) <==> |s.sent| == |s.got| + PIPE_SIZE
  {
    WrappedDifference(|s.sent|, |s.got|);
  }

  // ---- every step ----

  lemma ReadByteKeeps(s: Pipe, s': Pipe)
    requires Inv(s) && Enabled(s, ReadByte) && s' == Apply(s, ReadByte)
    ensures Inv(s')
  {
    WrappedCell(|s.got|);
    WrappedNext(|s.got|);
    hide Cell;
    var b := s.buf[Cell(s.rpos)];
    assert b == s.sent[|s.got|];
    assert s'.got == s.sent[..|s.got| + 1];
    assert s'.got[|s'.got| - |s'.reader.buf|..] == s.got[|s.got| - |s.reader.buf|..] + [b];
  }

  lemma WriteByteKeeps(s: Pipe, s': Pipe)
    requires Inv(s) && Enabled(s, WriteByte) && s' == Apply(s, WriteByte)
    ensures Inv(s')
  {
    WrappedNext(|s.sent|);
    RingKeeps(s, s');
    hide Cell;
    WriteAppends(s.sent, s.got, s.writer.data, s.writer.i);
  }

  /** One byte more at the end of the stream and of the part of the data that is written. */
  lemma WriteAppends(sent: seq<int>, got: seq<int>, data: seq<int>, i: nat)
    requires i < |data| && i <= |sent| && data[..i] == sent[|sent| - i..] && |got| <= |sent| && got == sent[..|got|]
    ensures var sent' := sent + [data[i]];
      got == sent'[..|got|] && data[..i + 1] == sent'[|sent'| - (i + 1)..]
  {
    var sent' := sent + [data[i]];
    assert sent'[|sent'| - (i + 1)..] == sent[|sent| - i..] + [data[i]];
    assert data[..i + 1] == data[..i] + [data[i]];
  }

  /** The byte written goes to a cell that holds no byte still to be read. */
  lemma RingKeeps(s: Pipe, s': Pipe)
    requires Inv(s) && Enabled(s, WriteByte) && s' == Apply(s, WriteByte)
    ensures forall j :: |s'.got| <= j < |s'.sent| ==> s'.buf[Cell(j)] == s'.sent[j]
  {
    WrappedCell(|s.sent|);
    hide Cell;
    forall j | |s'.got| <= j < |s'.sent|
      ensures s'.buf[Cell(j)] == s'.sent[j]
    {
      if j < |s.sent| { DistinctCells(j, |s.sent|); }
    }
  }

  /** Positions less than 32 apart use different cells of the ring. */
  lemma DistinctCells(j: nat, k: nat)
    requires j < k < j + PIPE_SIZE
    ensures Cell(j) != Cell(k)
  {
  }

  /** Tests, calls and returns move no byte. */
  lemma QuietKeeps(s: Pipe, s': Pipe, st: Step)
    requires Inv(s) && Enabled(s, st) && s' == Apply(s, st) && !st.ReadByte? && !st.WriteByte?
    ensures Inv(s')
  {
    FullTestExact(s);
    EmptyTestExact(s);
    hide SeesFull, SeesEmpty;
  }

  lemma StepKeeps(s: Pipe, s': Pipe, st: Step)
    requires Inv(s) && Enabled(s, st) && s' == Apply(s, st)
    ensures Inv(s')
  {
    hide Inv;
    if st.ReadByte? {
      ReadByteKeeps(s, s');
    } else if st.WriteByte? {
      WriteByteKeeps(s, s');
    } else {
      QuietKeeps(s, s', st);
    }
  }

  ghost predicate IsRun(states: seq<Pipe>, steps: seq<Step>) {
    && |states| == |steps| + 1
    && (forall i :: 0 <= i < |steps| ==> Next(states[i], steps[i], states[i + 1]))
  }

  ghost predicate Next(s: Pipe, st: Step, s': Pipe) { Enabled(s, st) && s' == Apply(s, st) }

  predicate Fresh(s: Pipe) {
    && s.rpos == 0 && s.wpos == 0 && |s.buf| == PIPE_SIZE && s.sent == [] && s.got == []
    && s.reader == Reader(RIdle, 0, []) && s.writer == Writer(WIdle, [], 0)
  }

  lemma FreshInv(s: Pipe)
    requires Fresh(s)
    ensures Inv(s)
  {
  }

  lemma InFlight(s: Pipe)
    requires Inv(s)
    ensures s.got <= s.sent && (s.wpos - s.rpos) % U32 == |s.sent| - |s.got| <= PIPE_SIZE
  {
    WrappedDifference(|s.sent|, |s.got|);
    hide Cell;
  }

  /**
   Stream correctness under every interleaving: at any point the bytes read are a prefix, in
   order, of the bytes written, at most PIPE_SIZE bytes are in flight, and the unsigned
   difference of the counters is their number, however often the counters have wrapped.
   */
  lemma {:induction false} StreamIsFaithful(states: seq<Pipe>, steps: seq<Step>, n: nat)
    requires IsRun(states, steps) && n <= |steps| && Fresh(states[0])
    ensures Inv(states[n])
    ensures states[n].got <= states[n].sent
    ensures (states[n].wpos - states[n].rpos) % U32 == |states[n].sent| - |states[n].got| <= 32
  {
    if n == 0 {
      FreshInv(states[0]);
    } else {
      hide Inv, Enabled, Apply;
      StreamIsFaithful(states, steps, n - 1);
      assert Next(states[n - 1], steps[n - 1], states[n]);
      StepKeeps(states[n - 1], states[n], steps[n - 1]);
    }
    InFlight(states[n]);
  }

  /**
   A pipe_read call that returns has delivered exactly the stretch of the stream it consumed,
   at most the `n` bytes asked for, and nothing only if the pipe was reported closed.
   */
  lemma ReadReturns(s: Pipe, s': Pipe, st: Step)
    requires Inv(s) && Enabled(s, st) && s' == Apply(s, st)
    requires s.reader.pc != RIdle && s'.reader.pc == RIdle
    ensures var k, end := |s'.reader.buf|, |s'.got|;
      k <= end <= |s'.sent| && s'.reader.buf == s'.sent[end - k..end]
    ensures |s'.reader.buf| <= s.reader.n
    ensures |s'.reader.buf| == 0 && s.reader.n > 0 ==> st == ReadEmpty(true)
  {
    StepKeeps(s, s', st);
    var k, end := |s'.reader.buf|, |s'.got|;
    assert s'.sent[..end][end - k..] == s'.sent[end - k..end];
  }

  /** A pipe_write call that returns has appended exactly the bytes it counts. */
  lemma WriteReturns(s: Pipe, s': Pipe, st: Step)
    requires Inv(s) && Enabled(s, st) && s' == Apply(s, st)
    requires s.writer.pc != WIdle && s'.writer.pc == WIdle
    ensures s'.writer.i <= |s'.sent| && s'.sent[|s'.sent| - s'.writer.i..] == s.writer.data[..s'.writer.i]
    ensures s'.writer.i < |s.writer.data| ==> st == WriteFull(true)
  {
  }

  // ---- calls come to an end ----

  predicate ReaderMoves(st: Step) { st.ReadLoop? || st.ReadTest? || st.ReadEmpty? || st.ReadByte? }

  predicate WriterMoves(st: Step) { st.WriteLoop? || st.WriteTest? || st.WriteFull? || st.WriteByte? }

  /** The reader has nothing yet, finds nothing, and the pipe is open: it yields. */
  predicate ReaderWaits(s: Pipe, st: Step) { st == ReadEmpty(false) && s.reader.buf == [] }

  /** How many steps the call can still take without waiting. */
  function ReaderLeft(r: Reader): int {
    match r.pc
    case RIdle => 0
    case RLoop => 4 * (r.n - |r.buf|) + 3
    case RTest => 4 * (r.n - |r.buf|) + 2
    case REmpty => 4 * (r.n - |r.buf|) + 1
    case RReady => 4 * (r.n - |r.buf|) + 1
  }

  function WriterLeft(w: Writer): int {
    match w.pc
    case WIdle => 0
    case WLoop => 4 * (|w.data| - w.i) + 3
    case WTest => 4 * (|w.data| - w.i) + 2
    case WFull => 4 * (|w.data| - w.i) + 1
    case WReady => 4 * (|w.data| - w.i) + 1
  }

  /** Steps `n` to `m` of the reader that do not wait, less the one more test after each wait. */
  function ReaderSteps(states: seq<Pipe>, steps: seq<Step>, n: nat, m: nat): int
    requires n <= m <= |steps| < |states|
    decreases m - n
  {
    if n == m then 0
    else
      (if !ReaderMoves(steps[n]) then 0 else if ReaderWaits(states[n], steps[n]) then -1 else 1)
      + ReaderSteps(states, steps, n + 1, m)
  }

  function WriterSteps(steps: seq<Step>, n: nat, m: nat): int
    requires n <= m <= |steps|
    decreases m - n
  {
    if n == m then 0
    else
      (if !WriterMoves(steps[n]) then 0 else if steps[n] == WriteFull(false) then -1 else 1)
      + WriterSteps(steps, n + 1, m)
  }

  /** Every step of a call brings its end nearer, unless the other side has to move first. */
  lemma Progress(s: Pipe, s': Pipe, st: Step)
    requires Inv(s) && Enabled(s, st) && s' == Apply(s, st)
    ensures 0 <= ReaderLeft(s.reader) && 0 <= WriterLeft(s.writer)
    ensures s.reader.pc != RIdle && s'.reader.pc != RIdle ==>
              ReaderLeft(s'.reader) + (if !ReaderMoves(st) then 0 else if ReaderWaits(s, st) then -1 else 1)
              <= ReaderLeft(s.reader)
    ensures s.writer.pc != WIdle && s'.writer.pc != WIdle ==>
              WriterLeft(s'.writer) + (if !WriterMoves(st) then 0 else if st == WriteFull(false) then -1 else 1)
              <= WriterLeft(s.writer)
    ensures ReaderMoves(st) && s'.reader.pc == RIdle ==> ReaderLeft(s.reader) >= 1
  {
    hide Cell;
  }

  /**
   A pipe_read for `n` bytes waits only with nothing in hand and the pipe open: while it is under
   way, its other steps are at most 4n + 3, and one more test for each wait.
   */
  lemma {:induction false} ReadEnds(states: seq<Pipe>, steps: seq<Step>, n: nat, m: nat)
    requires IsRun(states, steps) && n <= m <= |steps| && Inv(states[n])
    requires forall i :: n <= i <= m ==> states[i].reader.pc != RIdle
    ensures ReaderSteps(states, steps, n, m) <= ReaderLeft(states[n].reader) <= 4 * states[n].reader.n + 3
    decreases m - n
  {
    hide Enabled, Apply;
    ReaderBound(states[n]);
    if n < m {
      assert Next(states[n], steps[n], states[n + 1]);
      StepKeeps(states[n], states[n + 1], steps[n]);
      Progress(states[n], states[n + 1], steps[n]);
      hide Inv, ReaderLeft;
      ReadEnds(states, steps, n + 1, m);
    }
  }

  lemma ReaderBound(s: Pipe)
    requires Inv(s)
    ensures 0 <= ReaderLeft(s.reader) <= 4 * s.reader.n + 3
    ensures 0 <= WriterLeft(s.writer) <= 4 * |s.writer.data| + 3
  {
  }

  /** A pipe_write waits only with the ring full and the pipe open. */
  lemma {:induction false} WriteEnds(states: seq<Pipe>, steps: seq<Step>, n: nat, m: nat)
    requires IsRun(states, steps) && n <= m <= |steps| && Inv(states[n])
    requires forall i :: n <= i <= m ==> states[i].writer.pc != WIdle
    ensures WriterSteps(steps, n, m) <= WriterLeft(states[n].writer) <= 4 * |states[n].writer.data| + 3
    decreases m - n
  {
    hide Enabled, Apply;
    ReaderBound(states[n]);
    if n < m {
      assert Next(states[n], steps[n], states[n + 1]);
      StepKeeps(states[n], states[n + 1], steps[n]);
      Progress(states[n], states[n + 1], steps[n]);
      hide Inv, WriterLeft;
      WriteEnds(states, steps, n + 1, m);
    }
  }

  // ---- what the wrap does ----

  /** The write counter is one wrap ahead and the reader is not past its test. */
  ghost predicate Stalled(s: Pipe) {
    Inv(s) && |s.got| / U32 < |s.sent| / U32 && s.reader.pc != RReady
  }

  lemma StallStep(s: Pipe, s': Pipe, st: Step)
    requires Stalled(s) && Enabled(s, st) && s' == Apply(s, st)
    ensures Stalled(s') && s'.got == s.got
  {
    StepKeeps(s, s', st);
    EmptyTestExact(s);
    assert |s.sent| / U32 <= |s'.sent| / U32 by { DivMonotone(|s.sent|, |s'.sent|); }
    hide Inv;
  }

  lemma DivMonotone(a: nat, b: nat)
    requires a <= b
    ensures a / U32 <= b / U32
  {
  }

  /**
   Once the write counter wraps before the reader has caught up, no byte is ever read again, in
   any continuation, although the pipe holds bytes.
   */
  lemma {:induction false} StallIsForever(states: seq<Pipe>, steps: seq<Step>, n: nat, m: nat)
    requires IsRun(states, steps) && n <= m <= |steps| && Stalled(states[n])
    ensures Stalled(states[m]) && states[m].got == states[n].got && |states[m].got| < |states[m].sent|
    decreases m - n
  {
    if n < m {
      assert Next(states[n], steps[n], states[n + 1]);
      StallStep(states[n], states[n + 1], steps[n]);
      StallIsForever(states, steps, n + 1, m);
    }
  }

  // ---- the stall is reached ----

  ghost predicate Reachable(s: Pipe) {
    exists states, steps :: IsRun(states, steps) && Fresh(states[0]) && states[|steps|] == s
  }

  lemma ReachStep(s: Pipe, st: Step)
    requires Reachable(s) && Enabled(s, st)
    ensures Reachable(Apply(s, st))
  {
    hide Enabled, Apply;
    var states, steps :| IsRun(states, steps) && Fresh(states[0]) && states[|steps|] == s;
    var states', steps' := states + [Apply(s, st)], steps + [st];
    forall i | 0 <= i < |steps'|
      ensures Next(states'[i], steps'[i], states'[i + 1])
    {
      if i < |steps| { assert Next(states[i], steps[i], states[i + 1]); }
    }
    assert IsRun(states', steps') && states'[|steps'|] == Apply(s, st);
  }

  /** A reachable state between calls, with everything written already read. */
  ghost predicate Drained(s: Pipe, k: nat) {
    && Reachable(s) && Inv(s) && |s.sent| == k && |s.got| == k
    && s.reader.pc == RIdle && s.writer.pc == WIdle
  }

  /** One call of pipe_write with one byte, up to its transfer. */
  lemma AboutToPut(s: Pipe, k: nat) returns (s': Pipe)
    requires Drained(s, k)
    ensures Reachable(s') && Inv(s') && s'.sent == s.sent && s'.got == s.got && |s'.buf| == PIPE_SIZE
    ensures s'.reader.pc == RIdle && s'.writer == Writer(WReady, [0], 0)
  {
    DrainedFacts(s, k);
    hide Inv, Reachable, Cell;
    var s1 := Take(s, CallWrite([0]));
    var s2 := Take(s1, WriteLoop);
    assert s2.writer == Writer(WTest, [0], 0) && SeesFull(s2) == SeesFull(s);
    s' := Take(s2, WriteTest);
  }

  /** One call of pipe_write with one byte. */
  lemma PutOne(s: Pipe, k: nat) returns (s': Pipe)
    requires Drained(s, k)
    ensures Reachable(s') && Inv(s') && |s'.sent| == k + 1 && s'.got == s.got
    ensures s'.reader.pc == RIdle && s'.writer.pc == WIdle
  {
    var s3 := AboutToPut(s, k);
    hide Inv, Reachable, SeesFull, Cell;
    var s4 := Take(s3, WriteByte);
    assert s4.writer == Writer(WLoop, [0], 1) && |s4.sent| == k + 1;
    s' := Take(s4, WriteLoop);
  }

  lemma DrainedFacts(s: Pipe, k: nat)
    requires Drained(s, k)
    ensures |s.buf| == PIPE_SIZE && !SeesFull(s)
  {
    FullTestExact(s);
  }

  lemma Take(s: Pipe, st: Step) returns (s': Pipe)
    requires Reachable(s) && Inv(s) && Enabled(s, st)
    ensures s' == Apply(s, st) && Reachable(s') && Inv(s')
  {
    s' := Apply(s, st);
    StepKeeps(s, s', st);
    ReachStep(s, st);
  }

  /** One call of pipe_read for one byte, while the counters have wrapped equally often. */
  lemma GetOne(s: Pipe, k: nat) returns (s': Pipe)
    requires Reachable(s) && Inv(s) && |s.sent| == k + 1 && |s.got| == k && k + 1 < U32
    requires s.reader.pc == RIdle && s.writer.pc == WIdle
    ensures Drained(s', k + 1)
  {
    EmptyTestExact(s);
    assert |s.buf| == PIPE_SIZE && !SeesEmpty(s);
    hide Inv, Reachable, SeesEmpty, Cell;
    var s1 := Take(s, CallRead(1));
    var s2 := Take(s1, ReadLoop);
    var s3 := Take(s2, ReadTest);
    var s4 := Take(s3, ReadByte);
    s' := Take(s4, ReadLoop);
  }

  lemma {:induction false} CarryAll(k: nat) returns (s: Pipe)
    requires k < U32
    ensures Drained(s, k)
  {
    if k == 0 {
      s := Pipe(0, 0, seq(PIPE_SIZE, _ => 0), Reader(RIdle, 0, []), Writer(WIdle, [], 0), [], []);
      var states, steps: seq<Step> := [s], [];
      assert IsRun(states, steps) && Fresh(states[0]) && states[|steps|] == s;
    } else {
      var s0 := CarryAll(k - 1);
      var s1 := PutOne(s0, k - 1);
      s := GetOne(s1, k - 1);
    }
  }

  /** A run from a new pipe that reaches the stall: 2^32 bytes written, all but the last read. */
  lemma CounterWrapStalls() returns (s: Pipe)
    ensures Reachable(s) && Stalled(s) && |s.sent| == U32 && |s.got| == U32 - 1
    ensures SeesEmpty(s) && !SeesFull(s)
  {
    var s0 := CarryAll(U32 - 1);
    s := PutOne(s0, U32 - 1);
    EmptyTestExact(s);
    FullTestExact(s);
  }
}
