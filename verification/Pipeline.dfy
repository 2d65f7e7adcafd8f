/** The command-line tool's double-buffered pipeline: a reader, a CPU loop and a
    writer that hand two input and two output buffers around with eight binary
    semaphores, and a shutdown that posts semaphores which may already be set.

    The threads' atomic steps form a transition system; a run is any sequence of
    thread choices. */
module Pipeline {
  import opened Bytes

  type Block = seq<byte>

  /** The input blocks and the transform (compression or decompression) applied to each. */
  datatype Job = Job(blocks: seq<Block>, transform: Block -> Block) {
    /** What the `k`-th read yields: past the last block, nothing. */
    function Read(k: nat): Block {
      if k < |blocks| then blocks[k] else []
    }
  }

  /** One of two alternating things, selected by parity. */
  datatype Both<T> = Both(even: T, odd: T) {
    function At(k: nat): T { if k % 2 == 0 then even else odd }
    function With(k: nat, v: T): Both<T> { if k % 2 == 0 then Both(v, odd) else Both(even, v) }
  }

  datatype ReaderPc = RWait | RCheck | RRead | RPost | RDone
  datatype CpuPc =
    | CWaitSrc | CWaitDst | CTest | CWork | CPostSrc | CPostDst           // the loop
    | CStop | CShutSrc0 | CShutDst0 | CShutSrc1 | CShutDst1               // the shutdown
    | CAwait0 | CAwait1 | CJoinReader | CJoinWriter | CDone
  datatype WriterPc = WWait | WTest | WWrite | WPost | WFin0 | WFin1 | WDone

  datatype State = State(
    reader: ReaderPc, r: nat,
    cpu: CpuPc, c: nat,
    writer: WriterPc, w: nat,
    srcDoneIO: Both<bool>, dstDoneIO: Both<bool>, srcDoneCPU: Both<bool>, dstDoneCPU: Both<bool>,
    stop: bool,
    src: Both<Block>, dst: Both<Block>,
    written: seq<Block>)

  /** State when the two background threads start. */
  predicate Init(s: State) {
    && s.reader == RWait && s.cpu == CWaitSrc && s.writer == WWait
    && s.r == 0 && s.c == 0 && s.w == 0
    && s.srcDoneIO == Both(false, false) && s.dstDoneIO == Both(true, true)
    && s.srcDoneCPU == Both(true, true) && s.dstDoneCPU == Both(false, false)
    && !s.stop && s.written == []
  }

  // ------------------------------------------------------------------- steps

  predicate ReaderEnabled(s: State) {
    s.reader != RDone && (s.reader == RWait ==> s.srcDoneCPU.At(s.r))
  }

  function ReaderStep(job: Job, s: State): State
    requires ReaderEnabled(s)
  {
    match s.reader
    case RWait => s.(reader := RCheck, srcDoneCPU := s.srcDoneCPU.With(s.r, false))
    case RCheck => s.(reader := if s.stop then RDone else RRead)
    case RRead => s.(reader := RPost, src := s.src.With(s.r, job.Read(s.r)))
    case RPost => s.(reader := RWait, r := s.r + 1, srcDoneIO := s.srcDoneIO.With(s.r, true))
    case RDone => s
  }

  predicate CpuEnabled(s: State) {
    && s.cpu != CDone
    && (s.cpu == CWaitSrc ==> s.srcDoneIO.At(s.c))
    && (s.cpu == CWaitDst ==> s.dstDoneIO.At(s.c))
    && (s.cpu == CAwait0 ==> s.dstDoneIO.At(0))
    && (s.cpu == CAwait1 ==> s.dstDoneIO.At(1))
    && (s.cpu == CJoinReader ==> s.reader == RDone)
    && (s.cpu == CJoinWriter ==> s.writer == WDone)
  }

  function CpuStep(job: Job, s: State): State
    requires CpuEnabled(s)
  {
    match s.cpu
    case CWaitSrc => s.(cpu := CWaitDst, srcDoneIO := s.srcDoneIO.With(s.c, false))
    case CWaitDst => s.(cpu := CTest, dstDoneIO := s.dstDoneIO.With(s.c, false))
    case CTest =>
      if s.src.At(s.c) == [] then s.(cpu := CStop, dst := s.dst.With(s.c, [])) else s.(cpu := CWork)
    case CWork => s.(cpu := CPostSrc, dst := s.dst.With(s.c, job.transform(s.src.At(s.c))))
    case CPostSrc => s.(cpu := CPostDst, srcDoneCPU := s.srcDoneCPU.With(s.c, true))
    case CPostDst => s.(cpu := CWaitSrc, c := s.c + 1, dstDoneCPU := s.dstDoneCPU.With(s.c, true))
    case CStop => s.(cpu := CShutSrc0, stop := true)
    case CShutSrc0 => s.(cpu := CShutDst0, srcDoneCPU := s.srcDoneCPU.With(0, true))
    case CShutDst0 => s.(cpu := CShutSrc1, dstDoneCPU := s.dstDoneCPU.With(0, true))
    case CShutSrc1 => s.(cpu := CShutDst1, srcDoneCPU := s.srcDoneCPU.With(1, true))
    case CShutDst1 => s.(cpu := CAwait0, dstDoneCPU := s.dstDoneCPU.With(1, true))
    case CAwait0 => s.(cpu := CAwait1, dstDoneIO := s.dstDoneIO.With(0, false))
    case CAwait1 => s.(cpu := CJoinReader, dstDoneIO := s.dstDoneIO.With(1, false))
    case CJoinReader => s.(cpu := CJoinWriter)
    case CJoinWriter => s.(cpu := CDone)
    case CDone => s
  }

  predicate WriterEnabled(s: State) {
    s.writer != WDone && (s.writer == WWait ==> s.dstDoneCPU.At(s.w))
  }

  function WriterStep(s: State): State
    requires WriterEnabled(s)
  {
    match s.writer
    case WWait => s.(writer := WTest, dstDoneCPU := s.dstDoneCPU.With(s.w, false))
    case WTest => s.(writer := if s.dst.At(s.w) == [] then WFin0 else WWrite)
    case WWrite => s.(writer := WPost, written := s.written + [s.dst.At(s.w)])
    case WPost => s.(writer := WWait, w := s.w + 1, dstDoneIO := s.dstDoneIO.With(s.w, true))
    case WFin0 => s.(writer := WFin1, dstDoneIO := s.dstDoneIO.With(0, true))
    case WFin1 => s.(writer := WDone, dstDoneIO := s.dstDoneIO.With(1, true))
    case WDone => s
  }

  datatype Thread = Reader | Cpu | Writer

  predicate Enabled(t: Thread, s: State) {
    match t case Reader => ReaderEnabled(s) case Cpu => CpuEnabled(s) case Writer => WriterEnabled(s)
  }

  function Step(job: Job, t: Thread, s: State): State
    requires Enabled(t, s)
  {
    match t case Reader => ReaderStep(job, s) case Cpu => CpuStep(job, s) case Writer => WriterStep(s)
  }

  /** The scheduled threads can all take their steps, in that order. */
  predicate Executable(job: Job, s: State, schedule: seq<Thread>)
    decreases |schedule|
  {
    schedule == [] ||
    (Enabled(schedule[0], s) && Executable(job, Step(job, schedule[0], s), schedule[1..]))
  }

  /** The state a schedule leads to. */
  function Run(job: Job, s: State, schedule: seq<Thread>): State
    requires Executable(job, s, schedule)
    decreases |schedule|
  {
    if schedule == [] then s else Run(job, Step(job, schedule[0], s), schedule[1..])
  }

  predicate AllDone(s: State) {
    s.reader == RDone && s.cpu == CDone && s.writer == WDone
  }

  /** No thread can move. */
  predicate Stuck(s: State) {
    !ReaderEnabled(s) && !CpuEnabled(s) && !WriterEnabled(s)
  }

  // -------------------------------------------------------- what must hold

  /** The input buffer each thread is reading or filling in this state, if any. */
  predicate ReaderUsesSrc(s: State, x: nat) { s.reader == RRead && s.r % 2 == x }
  predicate CpuUses(s: State, x: nat) { (s.cpu == CTest || s.cpu == CWork) && s.c % 2 == x }
  predicate WriterUsesDst(s: State, x: nat) { (s.writer == WTest || s.writer == WWrite) && s.w % 2 == x }

  /** No buffer is in the hands of two threads. */
  ghost predicate Exclusive(s: State) {
    forall x: nat :: !(ReaderUsesSrc(s, x) && CpuUses(s, x)) && !(WriterUsesDst(s, x) && CpuUses(s, x))
  }

  /** The transformed blocks, in order. */
  function Results(job: Job): seq<Block> {
    seq(|job.blocks|, k requires 0 <= k < |job.blocks| => job.transform(job.blocks[k]))
  }

  /** Every input block has bytes. */
  predicate Blocks(job: Job) {
    forall k :: 0 <= k < |job.blocks| ==> job.blocks[k] != []
  }

  /** Every transformed block has bytes. */
  predicate Productive(job: Job) {
    forall k :: 0 <= k < |job.blocks| ==> job.transform(job.blocks[k]) != []
  }

  // --------------------------------------------------------- the invariant

  /** A binary semaphore of parity `x` counts the tokens `lo <= k < hi` of that parity. */
  predicate Pending(lo: nat, hi: nat, x: nat) {
    (lo < hi && lo % 2 == x) || (lo + 1 < hi && (lo + 1) % 2 == x)
  }

  predicate Counts(sem: Both<bool>, lo: nat, hi: nat) {
    lo <= hi <= lo + 2 && sem.even == Pending(lo, hi, 0) && sem.odd == Pending(lo, hi, 1)
  }

  predicate Stopping(s: State) {
    s.cpu in {CStop, CShutSrc0, CShutDst0, CShutSrc1, CShutDst1, CAwait0, CAwait1,
              CJoinReader, CJoinWriter, CDone}
  }

  function ReaderTook(s: State): nat { if s.reader in {RCheck, RRead, RPost} then s.r + 1 else s.r }
  function CpuTookSrc(s: State): nat { if s.cpu == CWaitSrc then s.c else s.c + 1 }
  function CpuTookDst(s: State): nat { if s.cpu == CWaitSrc || s.cpu == CWaitDst then s.c else s.c + 1 }
  function CpuFreed(s: State): nat { if s.cpu == CPostDst then s.c + 1 else s.c }
  function WriterTook(s: State): nat { if s.writer in {WTest, WWrite, WPost} then s.w + 1 else s.w }

  /** The input side while the CPU loop runs: semaphores count blocks, buffers hold them. */
  predicate SrcLoop(job: Job, s: State) {
    && s.reader != RDone
    && Counts(s.srcDoneIO, CpuTookSrc(s), s.r)
    && Counts(s.srcDoneCPU, ReaderTook(s), CpuFreed(s) + 2)
    && (CpuFreed(s) < s.r ==> s.src.At(CpuFreed(s)) == job.Read(CpuFreed(s)))
    && (CpuFreed(s) + 1 < s.r ==> s.src.At(CpuFreed(s) + 1) == job.Read(CpuFreed(s) + 1))
    && (s.reader == RPost ==> s.src.At(s.r) == job.Read(s.r))
  }

  /** The output side while the CPU loop runs. */
  predicate DstLoop(job: Job, s: State) {
    && s.writer in {WWait, WTest, WWrite, WPost}
    && Counts(s.dstDoneIO, CpuTookDst(s), s.w + 2)
    && Counts(s.dstDoneCPU, WriterTook(s), s.c)
    && (s.cpu in {CPostSrc, CPostDst} ==> s.c < |job.blocks| && s.dst.At(s.c) == Results(job)[s.c])
  }

  /** What the finished output buffers hold, and what is in the file so far. */
  predicate Output(job: Job, s: State) {
    && s.c <= |job.blocks|
    && s.w <= s.c <= s.w + 2
    && (s.w < s.c ==> s.dst.At(s.w) == Results(job)[s.w])
    && (s.w + 1 < s.c ==> s.dst.At(s.w + 1) == Results(job)[s.w + 1])
    && (s.writer == WPost ==> s.w < s.c)
    && s.written == Results(job)[..if s.writer == WPost then s.w + 1 else s.w]
  }

  predicate LoopInvariant(job: Job, s: State) {
    && !s.stop
    && (s.cpu in {CWork, CPostSrc, CPostDst} ==> s.c < |job.blocks|)
    && Output(job, s)
    && SrcLoop(job, s)
    && DstLoop(job, s)
  }

  predicate PostedSrc(s: State, x: nat) {
    if x == 0 then s.cpu !in {CStop, CShutSrc0} else s.cpu !in {CStop, CShutSrc0, CShutDst0, CShutSrc1}
  }
  predicate PostedDst(s: State, x: nat) {
    if x == 0 then s.cpu !in {CStop, CShutSrc0, CShutDst0}
    else s.cpu !in {CStop, CShutSrc0, CShutDst0, CShutSrc1, CShutDst1}
  }
  predicate Awaited(s: State, x: nat) {
    if x == 0 then s.cpu in {CAwait1, CJoinReader, CJoinWriter, CDone}
    else s.cpu in {CJoinReader, CJoinWriter, CDone}
  }

  /** The reader during shutdown: it reads at most one block past the empty one and
      cannot miss the post that wakes it. */
  predicate SrcStopping(job: Job, s: State) {
    && (s.stop <==> s.cpu != CStop)
    && (s.reader in {RRead, RPost} ==> s.r <= |job.blocks| + 1)
    && (s.reader == RWait ==> s.r <= |job.blocks| + 2)
    && (s.reader == RCheck && !s.stop ==> s.r <= |job.blocks| + 1)
    && s.r <= |job.blocks| + 2
    && (!s.stop ==> s.reader != RDone && ReaderTook(s) <= |job.blocks| + 2
                    && Counts(s.srcDoneCPU, ReaderTook(s), |job.blocks| + 2))
    && (PostedSrc(s, 0) ==> s.srcDoneCPU.even || s.reader == RDone || (s.reader == RCheck && s.r % 2 == 0))
    && (PostedSrc(s, 1) ==> s.srcDoneCPU.odd || s.reader == RDone || (s.reader == RCheck && s.r % 2 == 1))
    && (s.cpu in {CJoinWriter, CDone} ==> s.reader == RDone)
  }

  /** The writer during shutdown: it finds its last block and then the empty one, and
      each of its farewell posts reaches the waiting CPU. */
  predicate DstStopping(job: Job, s: State) {
    var n := |job.blocks|;
    && s.c == n
    && s.dst.At(n) == []
    && n <= s.w + 1
    && (s.writer in {WFin0, WFin1, WDone} ==> s.w == n)
    && (s.writer in {WWrite, WPost} ==> s.w < n)
    && (s.writer == WWait && s.w < n ==> s.dstDoneCPU.At(s.w))
    && (PostedDst(s, n % 2) && (s.w < n || s.writer == WWait) ==> s.dstDoneCPU.At(n))
    && (s.writer in {WFin1, WDone} ==> s.dstDoneIO.even || Awaited(s, 0))
    && (s.writer == WDone ==> s.dstDoneIO.odd || Awaited(s, 1))
    && (s.cpu == CDone ==> s.writer == WDone)
  }

  predicate Invariant(job: Job, s: State) {
    if Stopping(s) then Output(job, s) && SrcStopping(job, s) && DstStopping(job, s)
    else LoopInvariant(job, s)
  }

  // -------------------------------------------------- every step keeps it

  lemma Taken(sem: Both<bool>, lo: nat, hi: nat)
    requires Counts(sem, lo, hi) && sem.At(lo)
    ensures lo < hi && Counts(sem.With(lo, false), lo + 1, hi)
  {
  }

  lemma Posted(sem: Both<bool>, lo: nat, hi: nat)
    requires Counts(sem, lo, hi) && hi < lo + 2
    ensures Counts(sem.With(hi, true), lo, hi + 1)
  {
  }

  lemma Available(sem: Both<bool>, lo: nat, hi: nat)
    requires Counts(sem, lo, hi)
    ensures sem.At(lo) == (lo < hi)
    ensures lo <= hi <= lo + 2
  {
  }

  lemma InitHolds(job: Job, s: State)
    requires Init(s)
    ensures Invariant(job, s)
  {
  }

  lemma ReaderKeepsSrcLoop(job: Job, s: State)
    requires !Stopping(s) && !s.stop && SrcLoop(job, s) && ReaderEnabled(s)
    ensures SrcLoop(job, ReaderStep(job, s))
  {
    hide Counts;
    var u := ReaderStep(job, s);
    Available(s.srcDoneCPU, ReaderTook(s), CpuFreed(s) + 2);
    Available(s.srcDoneIO, CpuTookSrc(s), s.r);
    match s.reader
    case RWait => Taken(s.srcDoneCPU, ReaderTook(s), CpuFreed(s) + 2);
    case RPost => Posted(s.srcDoneIO, CpuTookSrc(s), s.r);
    case _ =>
  }

  lemma ReaderKeepsSrcStopping(job: Job, s: State)
    requires Stopping(s) && SrcStopping(job, s) && ReaderEnabled(s)
    ensures SrcStopping(job, ReaderStep(job, s))
  {
    hide Counts;
    if !s.stop {
      Available(s.srcDoneCPU, ReaderTook(s), |job.blocks| + 2);
      if s.reader == RWait {
        Taken(s.srcDoneCPU, ReaderTook(s), |job.blocks| + 2);
      }
    }
  }

  lemma ReaderKeeps(job: Job, s: State)
    requires Invariant(job, s) && ReaderEnabled(s)
    ensures Invariant(job, ReaderStep(job, s))
  {
    hide SrcLoop, SrcStopping, Counts;
    if Stopping(s) {
      ReaderKeepsSrcStopping(job, s);
    } else {
      ReaderKeepsSrcLoop(job, s);
    }
  }

  lemma WriterKeepsOutput(job: Job, s: State)
    requires Output(job, s) && WriterEnabled(s)
    requires s.writer == WWrite ==> s.w < s.c
    ensures Output(job, WriterStep(s))
  {
  }

  lemma WriterKeepsDstLoop(job: Job, s: State)
    requires Productive(job)
    requires !Stopping(s) && Output(job, s) && DstLoop(job, s) && WriterEnabled(s)
    ensures DstLoop(job, WriterStep(s))
  {
    hide Counts;
    Available(s.dstDoneCPU, WriterTook(s), s.c);
    Available(s.dstDoneIO, CpuTookDst(s), s.w + 2);
    match s.writer
    case WWait => Taken(s.dstDoneCPU, WriterTook(s), s.c);
    case WPost => Posted(s.dstDoneIO, CpuTookDst(s), s.w + 2);
    case _ =>
  }

  lemma WriterKeepsDstStopping(job: Job, s: State)
    requires Productive(job)
    requires Stopping(s) && Output(job, s) && DstStopping(job, s) && WriterEnabled(s)
    ensures DstStopping(job, WriterStep(s))
  {
  }

  lemma WriterKeepsSrc(job: Job, s: State)
    requires WriterEnabled(s)
    ensures SrcLoop(job, s) ==> SrcLoop(job, WriterStep(s))
    ensures SrcStopping(job, s) ==> SrcStopping(job, WriterStep(s))
  {
    hide Counts;
  }

  lemma WriterWrites(job: Job, s: State)
    requires DstLoop(job, s) && s.writer == WWrite
    ensures s.w < s.c
  {
    Available(s.dstDoneCPU, WriterTook(s), s.c);
  }

  lemma WriterKeepsLoop(job: Job, s: State)
    requires Productive(job) && !Stopping(s) && LoopInvariant(job, s) && WriterEnabled(s)
    ensures LoopInvariant(job, WriterStep(s))
  {
    hide Output, DstLoop, SrcLoop, Productive;
    if s.writer == WWrite {
      WriterWrites(job, s);
    }
    WriterKeepsOutput(job, s);
    WriterKeepsDstLoop(job, s);
    WriterKeepsSrc(job, s);
  }

  lemma WriterKeeps(job: Job, s: State)
    requires Productive(job) && Invariant(job, s) && WriterEnabled(s)
    ensures Invariant(job, WriterStep(s))
  {
    hide LoopInvariant, Output, SrcStopping, Productive;
    if Stopping(s) {
      assert DstStopping(job, s) && (s.writer == WWrite ==> s.w < s.c);
      hide DstStopping;
      WriterKeepsOutput(job, s);
      WriterKeepsDstStopping(job, s);
      WriterKeepsSrc(job, s);
    } else {
      WriterKeepsLoop(job, s);
    }
  }

  lemma CpuTakesSrc(job: Job, s: State)
    requires SrcLoop(job, s) && s.cpu == CWaitSrc && CpuEnabled(s)
    ensures SrcLoop(job, CpuStep(job, s))
  {
    hide Counts;
    Taken(s.srcDoneIO, CpuTookSrc(s), s.r);
  }

  lemma CpuFreesSrc(job: Job, s: State)
    requires SrcLoop(job, s) && s.cpu == CPostSrc
    ensures SrcLoop(job, CpuStep(job, s))
  {
    hide Counts;
    Available(s.srcDoneCPU, ReaderTook(s), CpuFreed(s) + 2);
    Available(s.srcDoneIO, CpuTookSrc(s), s.r);
    Posted(s.srcDoneCPU, ReaderTook(s), CpuFreed(s) + 2);
  }

  lemma CpuKeepsSrcLoop(job: Job, s: State)
    requires !Stopping(s) && SrcLoop(job, s) && CpuEnabled(s) && s.cpu != CTest
    ensures SrcLoop(job, CpuStep(job, s))
  {
    hide Counts;
    if s.cpu == CWaitSrc {
      CpuTakesSrc(job, s);
    } else if s.cpu == CPostSrc {
      CpuFreesSrc(job, s);
    }
  }

  lemma CpuKeepsOutput(job: Job, s: State)
    requires !Stopping(s) && Output(job, s) && DstLoop(job, s) && CpuEnabled(s) && s.cpu != CTest
    ensures Output(job, CpuStep(job, s))
  {
    hide Counts, CpuEnabled;
    Available(s.dstDoneIO, CpuTookDst(s), s.w + 2);
    if s.cpu != CWork && s.cpu != CPostDst {
      var u := CpuStep(job, s);
      assert u.dst == s.dst && u.c == s.c && u.writer == s.writer && u.w == s.w && u.written == s.written;
    }
  }

  lemma CpuKeepsDstLoop(job: Job, s: State)
    requires !Stopping(s) && DstLoop(job, s) && CpuEnabled(s) && s.cpu != CTest && s.cpu != CWork
    ensures DstLoop(job, CpuStep(job, s))
  {
    hide Counts;
    Available(s.dstDoneCPU, WriterTook(s), s.c);
    Available(s.dstDoneIO, CpuTookDst(s), s.w + 2);
    if s.cpu == CWaitDst {
      Taken(s.dstDoneIO, CpuTookDst(s), s.w + 2);
    } else if s.cpu == CPostDst {
      Posted(s.dstDoneCPU, WriterTook(s), s.c);
    }
  }

  lemma CpuWorks(job: Job, s: State)
    requires LoopInvariant(job, s) && s.cpu == CWork
    ensures DstLoop(job, CpuStep(job, s))
  {
    hide Counts;
    Available(s.srcDoneIO, CpuTookSrc(s), s.r);
  }

  /** At the test the buffer holds block `c`, so the loop ends exactly at the end of input. */
  lemma CpuTests(job: Job, s: State)
    requires Blocks(job) && Invariant(job, s) && s.cpu == CTest
    ensures s.src.At(s.c) == [] <==> s.c == |job.blocks|
    ensures s.src.At(s.c) == job.Read(s.c)
  {
    hide Counts;
    Available(s.srcDoneIO, CpuTookSrc(s), s.r);
  }

  lemma CpuGoesOn(job: Job, s: State)
    requires Blocks(job) && LoopInvariant(job, s) && s.cpu == CTest && s.src.At(s.c) != []
    ensures LoopInvariant(job, CpuStep(job, s))
  {
    CpuTests(job, s);
    hide Counts;
  }

  lemma CpuStops(job: Job, s: State)
    requires Blocks(job) && LoopInvariant(job, s) && s.cpu == CTest && s.src.At(s.c) == []
    ensures SrcStopping(job, CpuStep(job, s))
  {
    CpuTests(job, s);
    hide Counts;
    Available(s.srcDoneCPU, ReaderTook(s), CpuFreed(s) + 2);
  }

  lemma CpuStopsWriting(job: Job, s: State)
    requires Blocks(job) && LoopInvariant(job, s) && s.cpu == CTest && s.src.At(s.c) == []
    ensures Output(job, CpuStep(job, s)) && DstStopping(job, CpuStep(job, s))
  {
    CpuTests(job, s);
    hide Counts, SrcLoop;
    Available(s.dstDoneCPU, WriterTook(s), s.c);
    Available(s.dstDoneIO, CpuTookDst(s), s.w + 2);
  }

  lemma CpuKeepsTest(job: Job, s: State)
    requires Blocks(job) && LoopInvariant(job, s) && s.cpu == CTest
    ensures Invariant(job, CpuStep(job, s))
  {
    hide LoopInvariant, Output, SrcStopping, DstStopping;
    if s.src.At(s.c) == [] {
      CpuStops(job, s);
      CpuStopsWriting(job, s);
    } else {
      CpuGoesOn(job, s);
    }
  }

  lemma CpuKeepsStopping(job: Job, s: State)
    requires Stopping(s) && Invariant(job, s) && CpuEnabled(s)
    ensures Invariant(job, CpuStep(job, s))
  {
    hide Counts;
  }

  lemma CpuKeeps(job: Job, s: State)
    requires Blocks(job) && Invariant(job, s) && CpuEnabled(s)
    ensures Invariant(job, CpuStep(job, s))
  {
    hide Counts, SrcLoop, DstLoop, Output, SrcStopping, DstStopping;
    if Stopping(s) {
      CpuKeepsStopping(job, s);
    } else if s.cpu == CTest {
      CpuKeepsTest(job, s);
    } else {
      CpuKeepsSrcLoop(job, s);
      CpuKeepsOutput(job, s);
      if s.cpu == CWork {
        CpuWorks(job, s);
      } else {
        CpuKeepsDstLoop(job, s);
      }
    }
  }

  lemma InvariantExcludes(job: Job, s: State)
    requires Invariant(job, s)
    ensures Exclusive(s)
  {
  }

  lemma InvariantMoves(job: Job, s: State)
    requires Invariant(job, s) && !AllDone(s)
    ensures !Stuck(s)
  {
  }
}
