/** Why the pipeline needs every transformed block to be non-empty: the writer takes an
    empty output block for the end of the file, so one empty result leads some
    interleaving into a state where no thread can move and not all have finished. */
module PipelineStall {
  import opened Pipeline
  import opened PipelineRuns

  /** The schedule runs from `s` to `u`. */
  predicate Leads(job: Job, s: State, schedule: seq<Thread>, u: State) {
    Executable(job, s, schedule) && Run(job, s, schedule) == u
  }

  lemma LeadsFirst(job: Job, s: State, t: Thread, rest: seq<Thread>, u: State)
    requires Enabled(t, s) && Leads(job, Step(job, t, s), rest, u)
    ensures Leads(job, s, [t] + rest, u)
  {
    assert ([t] + rest)[1..] == rest;
  }

  lemma {:induction false} LeadsThen(job: Job, s: State, a: seq<Thread>, u: State, b: seq<Thread>, v: State)
    requires Leads(job, s, a, u) && Leads(job, u, b, v)
    ensures Leads(job, s, a + b, v)
    decreases |a|
  {
    if a == [] {
      assert a + b == b;
    } else {
      LeadsThen(job, Step(job, a[0], s), a[1..], u, b, v);
      LeadsFirst(job, s, a[0], a[1..] + b, v);
      assert a + b == [a[0]] + (a[1..] + b);
    }
  }

  function Repeat(t: Thread, k: nat): seq<Thread> {
    if k == 0 then [] else [t] + Repeat(t, k - 1)
  }

  /** Taking `k` steps of one thread. */
  function Steps(job: Job, t: Thread, k: nat, s: State): State
    decreases k
  {
    if k == 0 || !Enabled(t, s) then s else Steps(job, t, k - 1, Step(job, t, s))
  }

  predicate AlwaysEnabled(job: Job, t: Thread, k: nat, s: State)
    decreases k
  {
    k == 0 || (Enabled(t, s) && AlwaysEnabled(job, t, k - 1, Step(job, t, s)))
  }

  lemma {:induction false} StepsLead(job: Job, t: Thread, k: nat, s: State)
    requires AlwaysEnabled(job, t, k, s)
    ensures Leads(job, s, Repeat(t, k), Steps(job, t, k, s))
    decreases k
  {
    if k != 0 {
      StepsLead(job, t, k - 1, Step(job, t, s));
      LeadsFirst(job, s, t, Repeat(t, k - 1), Steps(job, t, k, s));
    }
  }

  // ------------------------------------------------------------- macro steps

  /** One full turn of the reader. */
  lemma ReadOne(job: Job, s: State) returns (u: State)
    requires s.reader == RWait && s.srcDoneCPU.At(s.r) && !s.stop
    ensures Leads(job, s, Repeat(Reader, 4), u)
    ensures u == s.(r := s.r + 1, srcDoneCPU := s.srcDoneCPU.With(s.r, false),
                    srcDoneIO := s.srcDoneIO.With(s.r, true), src := s.src.With(s.r, job.Read(s.r)))
  {
    var s1 := Step(job, Reader, s);
    var s2 := Step(job, Reader, s1);
    var s3 := Step(job, Reader, s2);
    u := Step(job, Reader, s3);
    assert AlwaysEnabled(job, Reader, 1, s3) && Steps(job, Reader, 1, s3) == u;
    assert AlwaysEnabled(job, Reader, 2, s2) && Steps(job, Reader, 2, s2) == u;
    assert AlwaysEnabled(job, Reader, 3, s1) && Steps(job, Reader, 3, s1) == u;
    StepsLead(job, Reader, 4, s);
  }

  lemma Thrice(job: Job, t: Thread, s: State, s1: State, s2: State, u: State)
    requires Enabled(t, s) && Step(job, t, s) == s1
    requires Enabled(t, s1) && Step(job, t, s1) == s2
    requires Enabled(t, s2) && Step(job, t, s2) == u
    ensures Leads(job, s, Repeat(t, 3), u)
  {
    hide Enabled, Step;
    assert AlwaysEnabled(job, t, 1, s2) && Steps(job, t, 1, s2) == u;
    assert AlwaysEnabled(job, t, 2, s1) && Steps(job, t, 2, s1) == u;
    StepsLead(job, t, 3, s);
  }

  /** One full turn of the CPU loop on a non-empty block. */
  lemma WorkOne(job: Job, s: State) returns (u: State)
    requires s.cpu == CWaitSrc && s.srcDoneIO.At(s.c) && s.dstDoneIO.At(s.c) && s.src.At(s.c) != []
    ensures Leads(job, s, Repeat(Cpu, 3) + Repeat(Cpu, 3), u)
    ensures u == s.(c := s.c + 1,
                    srcDoneIO := s.srcDoneIO.With(s.c, false), dstDoneIO := s.dstDoneIO.With(s.c, false),
                    srcDoneCPU := s.srcDoneCPU.With(s.c, true), dstDoneCPU := s.dstDoneCPU.With(s.c, true),
                    dst := s.dst.With(s.c, job.transform(s.src.At(s.c))))
  {
    hide Leads;
    var s1 := CpuStep(job, s);
    var s2 := CpuStep(job, s1);
    var s3 := CpuStep(job, s2);
    Thrice(job, Cpu, s, s1, s2, s3);
    var s4 := CpuStep(job, s3);
    var s5 := CpuStep(job, s4);
    u := CpuStep(job, s5);
    Thrice(job, Cpu, s3, s4, s5, u);
    LeadsThen(job, s, Repeat(Cpu, 3), s3, Repeat(Cpu, 3), u);
  }

  /** One full turn of the writer on a non-empty block. */
  lemma WriteOne(job: Job, s: State) returns (u: State)
    requires s.writer == WWait && s.dstDoneCPU.At(s.w) && s.dst.At(s.w) != []
    ensures Leads(job, s, Repeat(Writer, 4), u)
    ensures u == s.(w := s.w + 1, dstDoneCPU := s.dstDoneCPU.With(s.w, false),
                    dstDoneIO := s.dstDoneIO.With(s.w, true), written := s.written + [s.dst.At(s.w)])
  {
    var s1 := Step(job, Writer, s);
    var s2 := Step(job, Writer, s1);
    var s3 := Step(job, Writer, s2);
    u := Step(job, Writer, s3);
    assert AlwaysEnabled(job, Writer, 1, s3) && Steps(job, Writer, 1, s3) == u;
    assert AlwaysEnabled(job, Writer, 2, s2) && Steps(job, Writer, 2, s2) == u;
    assert AlwaysEnabled(job, Writer, 3, s1) && Steps(job, Writer, 3, s1) == u;
    StepsLead(job, Writer, 4, s);
  }

  /** The writer meets an empty block and leaves. */
  lemma WriterQuits(job: Job, s: State) returns (u: State)
    requires s.writer == WWait && s.dstDoneCPU.At(s.w) && s.dst.At(s.w) == []
    ensures Leads(job, s, Repeat(Writer, 4), u)
    ensures u == s.(writer := WDone, dstDoneCPU := s.dstDoneCPU.With(s.w, false), dstDoneIO := Both(true, true))
  {
    var s1 := Step(job, Writer, s);
    var s2 := Step(job, Writer, s1);
    var s3 := Step(job, Writer, s2);
    u := Step(job, Writer, s3);
    assert AlwaysEnabled(job, Writer, 1, s3) && Steps(job, Writer, 1, s3) == u;
    assert AlwaysEnabled(job, Writer, 2, s2) && Steps(job, Writer, 2, s2) == u;
    assert AlwaysEnabled(job, Writer, 3, s1) && Steps(job, Writer, 3, s1) == u;
    StepsLead(job, Writer, 4, s);
  }

  /** The CPU meets the end of input. */
  lemma SeeEnd(job: Job, s: State) returns (u: State)
    requires s.cpu == CWaitSrc && s.srcDoneIO.At(s.c) && s.dstDoneIO.At(s.c) && s.src.At(s.c) == []
    ensures Leads(job, s, Repeat(Cpu, 3), u)
    ensures u == s.(cpu := CStop, dst := s.dst.With(s.c, []),
                    srcDoneIO := s.srcDoneIO.With(s.c, false), dstDoneIO := s.dstDoneIO.With(s.c, false))
  {
    hide Leads;
    var s1 := CpuStep(job, s);
    var s2 := CpuStep(job, s1);
    u := CpuStep(job, s2);
    Thrice(job, Cpu, s, s1, s2, u);
  }

  /** The CPU runs its shutdown up to the first wait. */
  lemma ShutDown(job: Job, s: State) returns (u: State)
    requires s.cpu == CStop
    ensures Leads(job, s, Repeat(Cpu, 3) + [Cpu] + [Cpu], u)
    ensures u == s.(cpu := CAwait0, stop := true, srcDoneCPU := Both(true, true), dstDoneCPU := Both(true, true))
  {
    hide Leads;
    var s1 := CpuStep(job, s);
    var s2 := CpuStep(job, s1);
    var s3 := CpuStep(job, s2);
    Thrice(job, Cpu, s, s1, s2, s3);
    var s4 := CpuStep(job, s3);
    OneStep(job, Cpu, s3);
    LeadsThen(job, s, Repeat(Cpu, 3), s3, [Cpu], s4);
    u := CpuStep(job, s4);
    OneStep(job, Cpu, s4);
    LeadsThen(job, s, Repeat(Cpu, 3) + [Cpu], s4, [Cpu], u);
  }

  // -------------------------------------------------------- reaching the stall

  /** All threads idle with `k` blocks read and worked on. */
  predicate Idle(s: State, k: nat) {
    && s.reader == RWait && s.r == k && s.cpu == CWaitSrc && s.c == k && !s.stop
    && s.srcDoneIO == Both(false, false) && s.srcDoneCPU == Both(true, true)
    && s.dstDoneIO == Both(true, true) && s.dstDoneCPU == Both(false, false)
  }

  /** One block through reader and CPU. */
  lemma ReadAndWork(job: Job, s: State) returns (schedule: seq<Thread>, u: State)
    requires s.reader == RWait && s.cpu == CWaitSrc && s.r == s.c && !s.stop
    requires s.srcDoneCPU.At(s.r) && s.dstDoneIO.At(s.c)
    requires job.Read(s.r) != []
    ensures Leads(job, s, schedule, u)
    ensures u == s.(r := s.r + 1, c := s.c + 1,
                    srcDoneIO := s.srcDoneIO.With(s.c, false), dstDoneIO := s.dstDoneIO.With(s.c, false),
                    srcDoneCPU := s.srcDoneCPU.With(s.c, true), dstDoneCPU := s.dstDoneCPU.With(s.c, true),
                    src := s.src.With(s.r, job.Read(s.r)),
                    dst := s.dst.With(s.c, job.transform(job.Read(s.r))))
  {
    hide Leads;
    var m := ReadOne(job, s);
    u := WorkOne(job, m);
    var work := Repeat(Cpu, 3) + Repeat(Cpu, 3);
    schedule := Repeat(Reader, 4) + work;
    LeadsThen(job, s, Repeat(Reader, 4), m, work, u);
  }

  /** Any number of productive blocks can pass one at a time. */
  lemma {:induction false} ReachIdle(job: Job, s: State, k: nat) returns (schedule: seq<Thread>, u: State)
    requires Init(s) && Blocks(job) && k <= |job.blocks|
    requires forall j :: 0 <= j < k ==> job.transform(job.blocks[j]) != []
    ensures Leads(job, s, schedule, u) && Idle(u, k) && u.writer == WWait && u.w == k
  {
    if k == 0 {
      schedule, u := [], s;
    } else {
      var first, m := ReachIdle(job, s, k - 1);
      hide Leads;
      var second, m' := ReadAndWork(job, m);
      u := WriteOne(job, m');
      LeadsThen(job, s, first, m, second, m');
      LeadsThen(job, s, first + second, m', Repeat(Writer, 4), u);
      schedule := first + second + Repeat(Writer, 4);
    }
  }

  /** The writer has left although the CPU loop is still to handle block `k`. */
  lemma ReachQuit(job: Job, s: State, k: nat) returns (schedule: seq<Thread>, u: State)
    requires Init(s) && Blocks(job) && k < |job.blocks|
    requires forall j :: 0 <= j < k ==> job.transform(job.blocks[j]) != []
    requires job.transform(job.blocks[k]) == []
    ensures Leads(job, s, schedule, u) && Idle(u, k + 1) && u.writer == WDone
  {
    var first, m := ReachIdle(job, s, k);
    hide Leads;
    var second, m' := ReadAndWork(job, m);
    u := WriterQuits(job, m');
    LeadsThen(job, s, first, m, second, m');
    LeadsThen(job, s, first + second, m', Repeat(Writer, 4), u);
    schedule := first + second + Repeat(Writer, 4);
  }

  /** With two more blocks to come, the CPU uses up both output buffers and waits for ever. */
  lemma StallInLoop(job: Job, s: State, k: nat) returns (schedule: seq<Thread>, u: State)
    requires Idle(s, k) && s.writer == WDone && job.Read(k) != [] && job.Read(k + 1) != []
    ensures Leads(job, s, schedule, u) && Stuck(u) && u.cpu != CDone
  {
    hide Leads;
    var a, s1 := ReadAndWork(job, s);
    var b, s2 := ReadAndWork(job, s1);
    LeadsThen(job, s, a, s1, b, s2);
    var s3 := ReadOne(job, s2);
    LeadsThen(job, s, a + b, s2, Repeat(Reader, 4), s3);
    var s4 := ReadOne(job, s3);
    LeadsThen(job, s, a + b + Repeat(Reader, 4), s3, Repeat(Reader, 4), s4);
    u := Step(job, Cpu, s4);
    OneStep(job, Cpu, s4);
    schedule := a + b + Repeat(Reader, 4) + Repeat(Reader, 4) + [Cpu];
    LeadsThen(job, s, a + b + Repeat(Reader, 4) + Repeat(Reader, 4), s4, [Cpu], u);
  }

  lemma OneStep(job: Job, t: Thread, s: State)
    requires Enabled(t, s)
    ensures Leads(job, s, [t], Step(job, t, s))
  {
    assert [t][1..] == [];
  }

  /** At the end of input the CPU has taken an output buffer whose return nobody will post again. */
  lemma StallInShutdown(job: Job, s: State) returns (schedule: seq<Thread>, u: State)
    requires s.reader == RWait && s.cpu == CWaitSrc && s.writer == WDone && s.r == s.c && !s.stop
    requires s.srcDoneCPU == Both(true, true) && s.dstDoneIO.At(s.c) && job.Read(s.c) == []
    ensures Leads(job, s, schedule, u) && Stuck(u) && u.cpu != CDone
  {
    hide Leads;
    var s1 := ReadOne(job, s);
    var s2 := SeeEnd(job, s1);
    var s3 := ShutDown(job, s2);
    var stop := Repeat(Cpu, 3) + [Cpu] + [Cpu];
    schedule := Repeat(Reader, 4) + Repeat(Cpu, 3);
    LeadsThen(job, s, Repeat(Reader, 4), s1, Repeat(Cpu, 3), s2);
    LeadsThen(job, s, schedule, s2, stop, s3);
    schedule := schedule + stop;
    var s4 := Step(job, Reader, s3);
    OneStep(job, Reader, s3);
    u := Step(job, Reader, s4);
    OneStep(job, Reader, s4);
    LeadsThen(job, s, schedule, s3, [Reader], s4);
    LeadsThen(job, s, schedule + [Reader], s4, [Reader], u);
    schedule := schedule + [Reader] + [Reader];
    if CpuEnabled(u) {
      var v := Step(job, Cpu, u);
      OneStep(job, Cpu, u);
      LeadsThen(job, s, schedule, u, [Cpu], v);
      schedule, u := schedule + [Cpu], v;
    }
  }

  /** One empty result is enough for a stuck run. */
  lemma EmptyResultStalls(job: Job, s: State, k: nat) returns (schedule: seq<Thread>)
    requires Init(s) && Blocks(job) && k < |job.blocks|
    requires forall j :: 0 <= j < k ==> job.transform(job.blocks[j]) != []
    requires job.transform(job.blocks[k]) == []
    ensures Executable(job, s, schedule)
    ensures Stuck(Run(job, s, schedule)) && !AllDone(Run(job, s, schedule))
  {
    var first, m := ReachQuit(job, s, k);
    var rest, u;
    if k + 1 == |job.blocks| {
      rest, u := StallInShutdown(job, m);
    } else if k + 2 == |job.blocks| {
      var one, m' := ReadAndWork(job, m);
      var two, u' := StallInShutdown(job, m');
      LeadsThen(job, m, one, m', two, u');
      rest, u := one + two, u';
    } else {
      rest, u := StallInLoop(job, m, k + 1);
    }
    LeadsThen(job, s, first, m, rest, u);
    schedule := first + rest;
  }

  lemma FirstEmpty(job: Job) returns (k: nat)
    requires !Productive(job)
    ensures k < |job.blocks| && job.transform(job.blocks[k]) == []
    ensures forall j :: 0 <= j < k ==> job.transform(job.blocks[j]) != []
  {
    k := 0;
    while job.transform(job.blocks[k]) != []
      invariant k < |job.blocks|
      invariant forall j :: 0 <= j < k ==> job.transform(job.blocks[j]) != []
      decreases |job.blocks| - k
    {
      k := k + 1;
    }
  }

  /** No run gets stuck before the end. */
  ghost predicate DeadlockFree(job: Job, s: State) {
    forall schedule :: Executable(job, s, schedule) && Stuck(Run(job, s, schedule)) ==>
      AllDone(Run(job, s, schedule))
  }

  /** The pipeline is free of deadlock exactly when no block transforms to nothing. */
  lemma DeadlockFreeIffProductive(job: Job, s: State)
    requires Init(s) && Blocks(job)
    ensures DeadlockFree(job, s) <==> Productive(job)
  {
    if Productive(job) {
      forall schedule | Executable(job, s, schedule) && Stuck(Run(job, s, schedule))
        ensures AllDone(Run(job, s, schedule))
      {
        EveryRunIsSafeAndFinishes(job, s, schedule);
      }
    } else {
      var k := FirstEmpty(job);
      var schedule := EmptyResultStalls(job, s, k);
    }
  }
}
