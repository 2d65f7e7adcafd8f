/** All interleavings of the pipeline's threads: what its invariant means for whole runs. */
module PipelineRuns {
  import opened Pipeline

  lemma StepKeeps(job: Job, t: Thread, s: State)
    requires Blocks(job) && Productive(job) && Invariant(job, s) && Enabled(t, s)
    ensures Invariant(job, Step(job, t, s))
  {
    match t
    case Reader => ReaderKeeps(job, s);
    case Cpu => CpuKeeps(job, s);
    case Writer => WriterKeeps(job, s);
  }

  lemma {:induction false} RunKeeps(job: Job, s: State, schedule: seq<Thread>)
    requires Blocks(job) && Productive(job) && Invariant(job, s) && Executable(job, s, schedule)
    ensures Invariant(job, Run(job, s, schedule))
    decreases |schedule|
  {
    hide Invariant;
    if schedule != [] {
      StepKeeps(job, schedule[0], s);
      RunKeeps(job, Step(job, schedule[0], s), schedule[1..]);
    }
  }

  /** How many steps each thread can still take, at most. */
  function ReaderLeft(n: nat, pc: ReaderPc, k: nat): int {
    match pc
    case RWait => 4 * (n + 3 - k) + 3
    case RCheck => 4 * (n + 3 - k) + 2
    case RRead => 4 * (n + 3 - k) + 1
    case RPost => 4 * (n + 3 - k)
    case RDone => 0
  }

  function CpuLeft(n: nat, pc: CpuPc, k: nat): int {
    match pc
    case CWaitSrc => 6 * (n - k) + 15
    case CWaitDst => 6 * (n - k) + 14
    case CTest => 6 * (n - k) + 13
    case CWork => 6 * (n - k) + 12
    case CPostSrc => 6 * (n - k) + 11
    case CPostDst => 6 * (n - k) + 10
    case CStop => 9
    case CShutSrc0 => 8
    case CShutDst0 => 7
    case CShutSrc1 => 6
    case CShutDst1 => 5
    case CAwait0 => 4
    case CAwait1 => 3
    case CJoinReader => 2
    case CJoinWriter => 1
    case CDone => 0
  }

  function WriterLeft(n: nat, pc: WriterPc, k: nat): int {
    match pc
    case WWait => 4 * (n - k) + 4
    case WTest => 4 * (n - k) + 3
    case WWrite => 4 * (n - k) + 2
    case WPost => 4 * (n - k) + 1
    case WFin0 => 2
    case WFin1 => 1
    case WDone => 0
  }

  function StepsLeft(job: Job, s: State): int {
    ReaderLeft(|job.blocks|, s.reader, s.r) + CpuLeft(|job.blocks|, s.cpu, s.c)
    + WriterLeft(|job.blocks|, s.writer, s.w)
  }

  lemma InvariantBounds(job: Job, s: State)
    requires Invariant(job, s)
    ensures ReaderLeft(|job.blocks|, s.reader, s.r) >= 0 && CpuLeft(|job.blocks|, s.cpu, s.c) >= 0
    ensures WriterLeft(|job.blocks|, s.writer, s.w) >= 0
    ensures s.reader != RDone ==> s.r <= |job.blocks| + 2
    ensures s.w <= |job.blocks|
    ensures s.writer == WPost ==> s.w < |job.blocks|
  {
    hide Counts;
    if !Stopping(s) {
      Available(s.srcDoneCPU, ReaderTook(s), CpuFreed(s) + 2);
    }
  }

  lemma ReaderDecreases(job: Job, s: State)
    requires Invariant(job, s) && ReaderEnabled(s)
    ensures StepsLeft(job, ReaderStep(job, s)) < StepsLeft(job, s)
  {
    InvariantBounds(job, s);
    hide Invariant, CpuLeft, WriterLeft;
  }

  lemma CpuBound(job: Job, s: State)
    requires Invariant(job, s)
    ensures s.cpu in {CWork, CPostSrc, CPostDst} ==> s.c < |job.blocks|
    ensures s.c <= |job.blocks|
  {
    hide Counts;
  }

  lemma CpuDecreases(job: Job, s: State)
    requires Blocks(job) && Invariant(job, s) && CpuEnabled(s)
    ensures StepsLeft(job, CpuStep(job, s)) < StepsLeft(job, s)
  {
    hide Invariant, ReaderLeft, WriterLeft;
    if s.cpu == CTest {
      CpuTests(job, s);
    }
    CpuBound(job, s);
  }

  lemma WriterDecreases(job: Job, s: State)
    requires Invariant(job, s) && WriterEnabled(s)
    ensures StepsLeft(job, WriterStep(s)) < StepsLeft(job, s)
  {
    InvariantBounds(job, s);
    hide Invariant, CpuLeft, ReaderLeft;
  }

  lemma StepDecreases(job: Job, t: Thread, s: State)
    requires Blocks(job) && Invariant(job, s) && Enabled(t, s)
    ensures StepsLeft(job, Step(job, t, s)) < StepsLeft(job, s)
  {
    hide Invariant, StepsLeft, ReaderStep, CpuStep, WriterStep;
    match t
    case Reader => ReaderDecreases(job, s);
    case Cpu => CpuDecreases(job, s);
    case Writer => WriterDecreases(job, s);
  }

  lemma {:induction false} RunBounded(job: Job, s: State, schedule: seq<Thread>)
    requires Blocks(job) && Productive(job) && Invariant(job, s) && Executable(job, s, schedule)
    ensures |schedule| <= StepsLeft(job, s)
    decreases |schedule|
  {
    hide Invariant;
    if schedule == [] {
      InvariantBounds(job, s);
    } else {
      StepDecreases(job, schedule[0], s);
      StepKeeps(job, schedule[0], s);
      RunBounded(job, Step(job, schedule[0], s), schedule[1..]);
    }
  }

  /** The protocol theorem. Whatever the interleaving, at every moment no buffer is in the
      hands of two threads, the file holds an in-order prefix of the transformed blocks,
      and some thread can move unless all three have finished with the file complete.
      No run is longer than a bound linear in the number of blocks, so every run that is
      not cut short finishes. */
  lemma EveryRunIsSafeAndFinishes(job: Job, s: State, schedule: seq<Thread>)
    requires Blocks(job) && Productive(job) && Init(s) && Executable(job, s, schedule)
    ensures Exclusive(Run(job, s, schedule))
    ensures Run(job, s, schedule).written <= Results(job)
    ensures Stuck(Run(job, s, schedule)) ==> AllDone(Run(job, s, schedule))
    ensures AllDone(Run(job, s, schedule)) ==> Run(job, s, schedule).written == Results(job)
    ensures |schedule| <= 14 * |job.blocks| + 34
  {
    var u := Run(job, s, schedule);
    InitHolds(job, s);
    RunKeeps(job, s, schedule);
    RunBounded(job, s, schedule);
    InvariantExcludes(job, u);
    if !AllDone(u) {
      InvariantMoves(job, u);
    }
  }
}
