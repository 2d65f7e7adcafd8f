/** One batch of the vectorised compressor: up to 512 chunks staged in one buffer,
    ordered by length, advanced by the vector kernel in any order and to any
    extent, and finished one at a time. */
module Jobs {
  import opened Bytes
  import opened Dictionary
  import opened CountingSort
  import opened SymbolTables
  import opened FinalTables
  import opened Compression

  const IN_SIZE := 0x40000
  const OUT_SIZE := 0x80000
  const BATCH := 512

  /** A job: input offsets `cur` and `end`, number in the batch, output offset. */
  datatype Job = Job(cur: nat, end: nat, pos: nat, out: nat)

  /** A job as stored in one 64-bit word: 18, 18, 9 and 19 bits. */
  function Packed(cur: nat, end: nat, pos: nat, out: nat): Job {
    Job(cur % IN_SIZE, end % IN_SIZE, pos % BATCH, out % OUT_SIZE)
  }

  /** Nothing is lost exactly if every field fits its bits. */
  lemma PackedIff(j: Job)
    ensures Packed(j.cur, j.end, j.pos, j.out) == j <==>
      j.cur < 0x4_0000 && j.end < 0x4_0000 && j.pos < 0x200 && j.out < 0x8_0000
  {
  }

  /** Space reserved for the codes of a chunk: two bytes each, and seven for the
      eight-byte stores of the kernel. */
  function Room(len: nat): nat { 2 * len + 7 }

  /** The jobs as registered: numbered in order, in disjoint input and output ranges. */
  ghost predicate Laid(plan: seq<Job>, pieces: seq<seq<byte>>) {
    && |plan| == |pieces| <= BATCH
    && (forall p :: 0 <= p < |plan| ==>
          && plan[p].pos == p
          && |pieces[p]| <= CHUNK
          && plan[p].end == plan[p].cur + |pieces[p]|
          && plan[p].cur <= BATCH * p
          && plan[p].out + Room(|pieces[p]|) <= OUT_SIZE)
    && (forall p, q :: 0 <= p < q < |plan| ==> plan[p].out + Room(|pieces[p]|) <= plan[q].out)
  }

  /** The chunks stand in the input half of the buffer, each ended by the terminator. */
  ghost predicate Staged(b: seq<byte>, plan: seq<Job>, pieces: seq<seq<byte>>, terminator: byte) {
    && |b| == IN_SIZE + OUT_SIZE && |plan| == |pieces|
    && forall p :: 0 <= p < |plan| && pieces[p] != [] ==>
         && plan[p].end < IN_SIZE && plan[p].cur <= plan[p].end
         && b[plan[p].cur..plan[p].end] == pieces[p]
         && b[plan[p].end] == terminator
  }

  /** Job `j` continues registered job `j.pos`: part of its chunk is encoded. */
  ghost predicate Continues(r: Symbols, b: seq<byte>, plan: seq<Job>, pieces: seq<seq<byte>>, j: Job)
    requires Encodable(r)
  {
    var p := j.pos;
    && p < |plan| == |pieces|
    && j.end == plan[p].end && plan[p].cur <= j.cur <= j.end == plan[p].cur + |pieces[p]|
    && Progress(r, false, pieces[p], j.cur - plan[p].cur, b, IN_SIZE + plan[p].out, IN_SIZE + j.out)
  }

  predicate InRoomOf(plan: seq<Job>, pieces: seq<seq<byte>>, p: nat, k: int)
    requires p < |plan| == |pieces|
  {
    IN_SIZE + plan[p].out <= k < IN_SIZE + plan[p].out + Room(|pieces[p]|)
  }

  /** Nothing changed outside the output range of job `p`. */
  ghost predicate OnlyRoomOf(before: seq<byte>, after: seq<byte>, plan: seq<Job>, pieces: seq<seq<byte>>, p: nat)
    requires p < |plan| == |pieces|
  {
    && |before| == |after|
    && forall k :: 0 <= k < |after| && !InRoomOf(plan, pieces, p, k) ==> after[k] == before[k]
  }

  lemma StagedKept(before: seq<byte>, after: seq<byte>, plan: seq<Job>, pieces: seq<seq<byte>>, p: nat,
                   terminator: byte)
    requires p < |plan| == |pieces| && OnlyRoomOf(before, after, plan, pieces, p)
    requires Staged(before, plan, pieces, terminator)
    ensures Staged(after, plan, pieces, terminator)
  {
    forall q | 0 <= q < |plan| && pieces[q] != []
      ensures after[plan[q].cur..plan[q].end] == pieces[q] && after[plan[q].end] == terminator
    {
      assert after[plan[q].cur..plan[q].end] == before[plan[q].cur..plan[q].end];
    }
  }

  lemma ContinuesKept(r: Symbols, before: seq<byte>, after: seq<byte>, plan: seq<Job>, pieces: seq<seq<byte>>,
                      p: nat, j: Job)
    requires Encodable(r) && Laid(plan, pieces) && p < |plan| && OnlyRoomOf(before, after, plan, pieces, p)
    requires Continues(r, before, plan, pieces, j) && j.pos != p
    ensures Continues(r, after, plan, pieces, j)
  {
    hide Encode;
    var q := j.pos;
    var lo, hi := IN_SIZE + plan[q].out, IN_SIZE + j.out;
    assert hi <= lo + Room(|pieces[q]|);
    if q < p {
      assert lo + Room(|pieces[q]|) <= IN_SIZE + plan[p].out;
    } else {
      assert IN_SIZE + plan[p].out + Room(|pieces[p]|) <= lo;
    }
    assert after[lo..hi] == before[lo..hi];
  }

  /** No job field ever exceeds its bits, however far the job has advanced. */
  lemma NoFieldTruncated(r: Symbols, b: seq<byte>, plan: seq<Job>, pieces: seq<seq<byte>>, j: Job)
    requires Encodable(r) && Laid(plan, pieces) && Continues(r, b, plan, pieces, j)
    ensures Packed(j.cur, j.end, j.pos, j.out) == j
  {
    hide Encode, Encodable, Packed;
    PackedIff(j);
  }

  // ------------------------------------------------------------- one greedy step

  /** The bytes of its chunk that job `j` has yet to encode. */
  function Rest(plan: seq<Job>, pieces: seq<seq<byte>>, j: Job): seq<byte> {
    if j.pos < |plan| && j.pos < |pieces| && plan[j.pos].cur <= j.cur <= plan[j.pos].cur + |pieces[j.pos]|
    then pieces[j.pos][j.cur - plan[j.pos].cur..]
    else []
  }

  /** What the eight-byte load sees at an unfinished job. */
  lemma JobWindow(r: Symbols, b: seq<byte>, plan: seq<Job>, pieces: seq<seq<byte>>, j: Job, terminator: byte)
    requires Encodable(r) && Laid(plan, pieces) && Staged(b, plan, pieces, terminator)
    requires Continues(r, b, plan, pieces, j) && j.cur < j.end
    ensures j.cur + 8 <= |b| == IN_SIZE + OUT_SIZE && Rest(plan, pieces, j) != []
    ensures Window(b[j.cur..j.cur + 8], Rest(plan, pieces, j), terminator)
  {
    hide Encode, Progress;
    var p := j.pos;
    var k, rest := j.cur - plan[p].cur, pieces[p][j.cur - plan[p].cur..];
    var w := b[j.cur..j.cur + 8];
    forall m | 0 <= m < 8 && m < |rest| ensures w[m] == rest[m] {
      assert w[m] == b[plan[p].cur..plan[p].end][k + m];
    }
  }

  /** The predicated choice is the greedy one, code and advance. */
  lemma PredicatedChoice(c: Coder, r: Symbols, w: seq<byte>, rest: seq<byte>)
    requires Final(c, r) && TerminatorFree(r, c.terminator) && Window(w, rest, c.terminator)
    ensures var ch := Variant(c, w, false, true);
      && ch.code == Emit(r, rest)[0] && 1 + ch.extra == |Emit(r, rest)|
      && (ch.extra == 1 ==> Emit(r, rest)[1] == w[0])
      && ch.advance == Step(r, rest)
  {
    VariantRight(c, r, w, rest, false, true);
    VariantAdvanceExact(c, r, w, rest, false, true);
  }

  lemma GreedyProgress(r: Symbols, piece: seq<byte>, k: nat, before: seq<byte>, after: seq<byte>, o0: nat, o: nat)
    requires Encodable(r) && k < |piece| && Progress(r, false, piece, k, before, o0, o) && |before| == |after|
    requires var z := Emit(r, piece[k..]);
      o + |z| <= |after| && after[..o] == before[..o] && after[o..o + |z|] == z
    ensures Progress(r, false, piece, k + Step(r, piece[k..]), after, o0, o + |Emit(r, piece[k..])|)
  {
    hide Encode, Emit, Step;
    ProgressStep(r, false, piece, k, before, after, o0, o, o + |Emit(r, piece[k..])|);
  }

  /** The codes of a step arrive in the job's own range; the job moves on. */
  lemma JobStep(r: Symbols, before: seq<byte>, after: seq<byte>, plan: seq<Job>, pieces: seq<seq<byte>>, j: Job)
    requires Encodable(r) && Continues(r, before, plan, pieces, j) && j.cur < j.end && |before| == |after|
    requires Rest(plan, pieces, j) != []
    requires var z, o := Emit(r, Rest(plan, pieces, j)), IN_SIZE + j.out;
      o + |z| <= |after| && after[..o] == before[..o] && after[o..o + |z|] == z
    ensures var rest := Rest(plan, pieces, j);
      Continues(r, after, plan, pieces, Job(j.cur + Step(r, rest), j.end, j.pos, j.out + |Emit(r, rest)|))
  {
    hide Encode, Emit, Encodable, Step, Progress;
    var p := j.pos;
    GreedyProgress(r, pieces[p], j.cur - plan[p].cur, before, after, IN_SIZE + plan[p].out, IN_SIZE + j.out);
  }

  /** An unfinished job has room for one more eight-byte store. */
  lemma RoomLeft(r: Symbols, b: seq<byte>, plan: seq<Job>, pieces: seq<seq<byte>>, j: Job)
    requires Encodable(r) && Laid(plan, pieces) && Continues(r, b, plan, pieces, j) && j.cur < j.end
    ensures j.pos < |plan| == |pieces|
    ensures plan[j.pos].out <= j.out && j.out + 8 <= plan[j.pos].out + Room(|pieces[j.pos]|) <= OUT_SIZE
  {
    hide Encode;
  }

  /** Writes `code`, then the input byte, then zeros if this is the kernel's scatter. */
  method Store(b: array<byte>, o: nat, code: byte, literal: byte, scatter: bool)
    requires o + 8 <= b.Length
    modifies b
    ensures b[o] == code && b[o + 1] == literal
    ensures forall k :: 0 <= k < b.Length && !(o <= k < o + 8) ==> b[k] == old(b[k])
  {
    b[o + 1] := literal;
    b[o] := code;
    if scatter {
      for k := 2 to 8
        invariant b[o] == code && b[o + 1] == literal
        invariant forall m :: 0 <= m < b.Length && !(o <= m < o + 8) ==> b[m] == old(b[m])
      {
        b[o + k] := 0;
      }
    }
  }

  /** `z` was written at `o` by one store of at most eight bytes. */
  ghost predicate Stored(before: seq<byte>, after: seq<byte>, o: nat, z: seq<byte>) {
    && |before| == |after| && o + 8 <= |after| && |z| <= 2
    && after[..o] == before[..o] && after[o..o + |z|] == z
    && forall k :: 0 <= k < |after| && !(o <= k < o + 8) ==> after[k] == before[k]
  }

  lemma StoredCodes(before: seq<byte>, after: seq<byte>, o: nat, code: byte, literal: byte, z: seq<byte>)
    requires |before| == |after| && o + 8 <= |after| && 1 <= |z| <= 2
    requires after[o] == code && after[o + 1] == literal && z[0] == code && (|z| == 2 ==> z[1] == literal)
    requires forall k :: 0 <= k < |after| && !(o <= k < o + 8) ==> after[k] == before[k]
    ensures Stored(before, after, o, z)
  {
  }

  /** Looks up the window and writes the greedy code. */
  method StoreChoice(c: Coder, b: array<byte>, cur: nat, o: nat, scatter: bool, ghost r: Symbols, ghost rest: seq<byte>)
    returns (adv: nat, n: nat)
    requires Final(c, r) && TerminatorFree(r, c.terminator)
    requires cur + 8 <= b.Length && o + 8 <= b.Length && Window(b[..][cur..cur + 8], rest, c.terminator)
    modifies b
    ensures adv == Step(r, rest) && n == |Emit(r, rest)|
    ensures Stored(old(b[..]), b[..], o, Emit(r, rest))
  {
    assert Encodable(r);
    ghost var before := b[..];
    var w := b[cur..cur + 8];
    assert w == before[cur..cur + 8];
    PredicatedChoice(c, r, w, rest);
    var ch := Variant(c, w, false, true);
    hide Variant, Final, Emit, Step, TerminatorFree, Encodable, Stored;
    Store(b, o, ch.code, w[0], scatter);
    adv, n := ch.advance, 1 + ch.extra;
    StoredCodes(before, b[..], o, ch.code, w[0], Emit(r, rest));
  }

  /** After the store, everything is where it should be. */
  lemma AfterStore(r: Symbols, before: seq<byte>, after: seq<byte>, plan: seq<Job>, pieces: seq<seq<byte>>, j: Job,
                   terminator: byte)
    requires Encodable(r) && Laid(plan, pieces) && Staged(before, plan, pieces, terminator)
    requires Continues(r, before, plan, pieces, j) && j.cur < j.end && Rest(plan, pieces, j) != []
    requires Stored(before, after, IN_SIZE + j.out, Emit(r, Rest(plan, pieces, j)))
    ensures var rest := Rest(plan, pieces, j);
      Continues(r, after, plan, pieces, Job(j.cur + Step(r, rest), j.end, j.pos, j.out + |Emit(r, rest)|))
    ensures OnlyRoomOf(before, after, plan, pieces, j.pos)
    ensures Staged(after, plan, pieces, terminator)
  {
    JobStep(r, before, after, plan, pieces, j);
    hide Encodable, Laid, Emit, Step, Rest, Staged, Progress;
    RoomLeft(r, before, plan, pieces, j);
    StagedKept(before, after, plan, pieces, j.pos, terminator);
  }

  /** One iteration of the kernel on one lane, or of the scalar loop that finishes a job. */
  method StepJob(c: Coder, b: array<byte>, j: Job, scatter: bool,
                 ghost r: Symbols, ghost plan: seq<Job>, ghost pieces: seq<seq<byte>>)
    returns (j': Job)
    requires Final(c, r) && TerminatorFree(r, c.terminator)
    requires Laid(plan, pieces) && Staged(b[..], plan, pieces, c.terminator)
    requires Continues(r, b[..], plan, pieces, j) && j.cur < j.end
    modifies b
    ensures Continues(r, b[..], plan, pieces, j') && j'.pos == j.pos && j'.end == j.end && j.cur < j'.cur
    ensures OnlyRoomOf(old(b[..]), b[..], plan, pieces, j.pos)
    ensures Staged(b[..], plan, pieces, c.terminator)
  {
    hide Encodable, Final, TerminatorFree, Laid, Staged, Continues, Emit, Step, OnlyRoomOf, Rest, Window, Stored,
         Room, Packed;
    FinalEncodable(c, r);
    ghost var before, rest := b[..], Rest(plan, pieces, j);
    JobWindow(r, before, plan, pieces, j, c.terminator);
    RoomLeft(r, before, plan, pieces, j);
    var adv, n := StoreChoice(c, b, j.cur, IN_SIZE + j.out, scatter, r, rest);
    AfterStore(r, before, b[..], plan, pieces, j, c.terminator);
    j' := Packed(j.cur + adv, j.end, j.pos, j.out + n);
    NoFieldTruncated(r, b[..], plan, pieces, Job(j.cur + adv, j.end, j.pos, j.out + n));
  }

  // ----------------------------------------------------------------- the kernel

  function Positions(jobs: seq<Job>): (ps: seq<int>)
    ensures |ps| == |jobs| && forall i :: 0 <= i < |jobs| ==> ps[i] == jobs[i].pos
  {
    seq(|jobs|, i requires 0 <= i < |jobs| => jobs[i].pos)
  }

  /** The jobs continue the registered ones, each exactly once. */
  ghost predicate Underway(r: Symbols, b: seq<byte>, plan: seq<Job>, pieces: seq<seq<byte>>, jobs: seq<Job>)
    requires Encodable(r)
  {
    && |jobs| == |plan| == |pieces|
    && IsPermutation(Positions(jobs))
    && forall i :: 0 <= i < |jobs| ==> Continues(r, b, plan, pieces, jobs[i])
  }

  lemma UnderwayStep(r: Symbols, before: seq<byte>, after: seq<byte>, plan: seq<Job>, pieces: seq<seq<byte>>,
                     jobs: seq<Job>, k: nat, j': Job)
    requires Encodable(r) && Laid(plan, pieces) && Underway(r, before, plan, pieces, jobs) && k < |jobs|
    requires j'.pos == jobs[k].pos && Continues(r, after, plan, pieces, j')
    requires OnlyRoomOf(before, after, plan, pieces, j'.pos)
    ensures Underway(r, after, plan, pieces, jobs[k := j'])
  {
    hide Laid, Continues, Encodable, OnlyRoomOf;
    var jobs' := jobs[k := j'];
    assert Positions(jobs') == Positions(jobs);
    forall i | 0 <= i < |jobs'| ensures Continues(r, after, plan, pieces, jobs'[i]) {
      if i != k {
        assert Positions(jobs)[i] != Positions(jobs)[k];
        ContinuesKept(r, before, after, plan, pieces, j'.pos, jobs[i]);
      }
    }
  }

  lemma UnderwayLengths(r: Symbols, b: seq<byte>, plan: seq<Job>, pieces: seq<seq<byte>>, jobs: seq<Job>, i: nat)
    requires Encodable(r) && Underway(r, b, plan, pieces, jobs) && i < |jobs|
    ensures |plan| == |pieces| == |jobs| && Continues(r, b, plan, pieces, jobs[i]) && jobs[i].pos < |plan|
  {
    hide Progress, Encodable;
  }

  /** One job of the batch takes one greedy step, unless it is finished. */
  method StepOne(c: Coder, b: array<byte>, jobs: seq<Job>, k: nat, scatter: bool,
                 ghost r: Symbols, ghost plan: seq<Job>, ghost pieces: seq<seq<byte>>)
    returns (jobs': seq<Job>)
    requires Final(c, r) && TerminatorFree(r, c.terminator) && Laid(plan, pieces)
    requires Staged(b[..], plan, pieces, c.terminator)
    requires Underway(r, b[..], plan, pieces, jobs) && k < |jobs| && jobs[k].cur < jobs[k].end
    modifies b
    ensures Staged(b[..], plan, pieces, c.terminator)
    ensures Underway(r, b[..], plan, pieces, jobs')
    ensures |jobs'| == |jobs| && jobs[k].cur < jobs'[k].cur && jobs'[k].end == jobs[k].end
    ensures jobs'[k].pos == jobs[k].pos
    ensures forall i :: 0 <= i < |jobs| && i != k ==> jobs'[i] == jobs[i]
  {
    hide Final, Encodable, TerminatorFree, Laid, Staged, Underway, Continues, OnlyRoomOf;
    FinalEncodable(c, r);
    ghost var before := b[..];
    UnderwayLengths(r, before, plan, pieces, jobs, k);
    var j' := StepJob(c, b, jobs[k], scatter, r, plan, pieces);
    UnderwayStep(r, before, b[..], plan, pieces, jobs, k, j');
    jobs' := jobs[k := j'];
  }

  /** What the vector unit happens to do in one call: how many jobs it takes up, in
      which order their lanes advance, and the order in which it reports them. */
  datatype Kernel = Kernel(processed: nat, steps: seq<nat>, order: seq<int>)

  ghost predicate Possible(kernel: Kernel, n: nat) {
    && kernel.processed <= n
    && (forall s :: 0 <= s < |kernel.steps| ==> kernel.steps[s] < kernel.processed)
    && |kernel.order| == kernel.processed && IsPermutation(kernel.order)
  }

  /** Moves the first `|order|` jobs as `order` says. */
  function Reported(jobs: seq<Job>, order: seq<int>): (out: seq<Job>)
    requires |order| <= |jobs| && IsPermutation(order)
    ensures |out| == |jobs|
    ensures forall k :: 0 <= k < |order| ==> out[k] == jobs[order[k]]
    ensures forall k :: |order| <= k < |jobs| ==> out[k] == jobs[k]
  {
    seq(|jobs|, k requires 0 <= k < |jobs| => if k < |order| then jobs[order[k]] else jobs[k])
  }

  lemma ReportedUnderway(r: Symbols, b: seq<byte>, plan: seq<Job>, pieces: seq<seq<byte>>, jobs: seq<Job>,
                         order: seq<int>)
    requires Encodable(r) && Underway(r, b, plan, pieces, jobs)
    requires |order| <= |jobs| && IsPermutation(order)
    ensures Underway(r, b, plan, pieces, Reported(jobs, order))
  {
    hide Continues, Encodable, Reported;
    var ps, qs := Positions(jobs), Positions(Reported(jobs, order));
    forall i, k | 0 <= i < k < |qs| ensures qs[i] != qs[k] {
      var i' := if i < |order| then order[i] else i;
      var k' := if k < |order| then order[k] else k;
      assert i' != k' && qs[i] == ps[i'] && qs[k] == ps[k'];
    }
  }

  /** The vector kernel: any jobs advance by any number of greedy steps.  Jobs it did
      not take up keep their place behind the reported ones. */
  method Compress512(c: Coder, b: array<byte>, ordered: seq<Job>, n: nat, kernel: Kernel,
                     ghost r: Symbols, ghost plan: seq<Job>, ghost pieces: seq<seq<byte>>)
    returns (output: seq<Job>)
    requires Final(c, r) && TerminatorFree(r, c.terminator) && Laid(plan, pieces)
    requires Staged(b[..], plan, pieces, c.terminator)
    requires Underway(r, b[..], plan, pieces, ordered) && n <= |ordered| && Possible(kernel, n)
    requires n >= 32 && forall k :: 0 <= k < n ==> ordered[k].cur < ordered[k].end
    modifies b
    ensures Staged(b[..], plan, pieces, c.terminator)
    ensures Underway(r, b[..], plan, pieces, output)
  {
    hide Final, Encodable, TerminatorFree, Laid, Staged, Underway;
    FinalEncodable(c, r);
    var jobs := ordered;
    for s := 0 to |kernel.steps|
      invariant |jobs| == |ordered|
      invariant Staged(b[..], plan, pieces, c.terminator)
      invariant Underway(r, b[..], plan, pieces, jobs)
    {
      var k := kernel.steps[s];
      if jobs[k].cur < jobs[k].end {
        jobs := StepOne(c, b, jobs, k, true, r, plan, pieces);
      }
    }
    ReportedUnderway(r, b[..], plan, pieces, jobs, kernel.order);
    output := Reported(jobs, kernel.order);
  }

  // ------------------------------------------------------- ordering by length

  const UNUSED_KEY := 512

  predicate ShortJobs(jobs: seq<Job>) {
    forall i :: 0 <= i < |jobs| ==> jobs[i].cur <= jobs[i].end <= jobs[i].cur + CHUNK
  }

  /** Longest chunks first. */
  function LengthKeys(jobs: seq<Job>): (ks: seq<nat>)
    requires ShortJobs(jobs)
    ensures |ks| == |jobs| && forall i :: 0 <= i < |jobs| ==> ks[i] == CHUNK - (jobs[i].end - jobs[i].cur)
  {
    seq(|jobs|, i requires 0 <= i < |jobs| => CHUNK - (jobs[i].end - jobs[i].cur))
  }

  /** The first `n` jobs stand where a stable sort by length puts them. */
  ghost predicate Distributed(jobs: seq<Job>, ordered: seq<Job>, n: nat)
    requires ShortJobs(jobs) && n <= |jobs|
  {
    && |ordered| == |jobs|
    && forall i :: 0 <= i < n ==>
         var p := Place(LengthKeys(jobs), UNUSED_KEY, i); 0 <= p < |ordered| && ordered[p] == jobs[i]
  }

  lemma DistributedStep(jobs: seq<Job>, ordered: seq<Job>, n: nat)
    requires ShortJobs(jobs) && n < |jobs| && Distributed(jobs, ordered, n)
    ensures var p := Place(LengthKeys(jobs), UNUSED_KEY, n);
      0 <= p < |jobs| && Distributed(jobs, ordered[p := jobs[n]], n + 1)
  {
    hide Place;
    var keys := LengthKeys(jobs);
    PlaceInSection(keys, UNUSED_KEY, n);
    forall k | 0 <= k < n ensures Place(keys, UNUSED_KEY, k) != Place(keys, UNUSED_KEY, n) {
      PlaceInjective(keys, UNUSED_KEY, k, n);
    }
  }

  /** `ordered` holds the jobs at the places a stable sort by length gives them. */
  ghost predicate Ordered(jobs: seq<Job>, ordered: seq<Job>)
    requires ShortJobs(jobs)
  {
    Distributed(jobs, ordered, |jobs|)
  }

  ghost predicate Histogram(keys: seq<nat>, sortpos: seq<nat>) {
    |sortpos| == 513 && sortpos[0] == 0 && forall m :: 0 <= m < 512 ==> Equal(keys, m) == sortpos[m + 1]
  }

  lemma HistogramStep(keys: seq<nat>, sortpos: seq<nat>, i: nat)
    requires i < |keys| && keys[i] <= CHUNK && Histogram(keys[..i], sortpos)
    ensures Histogram(keys[..i + 1], sortpos[keys[i] + 1 := sortpos[keys[i] + 1] + 1])
  {
    var next, sortpos' := keys[..i + 1], sortpos[keys[i] + 1 := sortpos[keys[i] + 1] + 1];
    forall m | 0 <= m < 512 ensures Equal(next, m) == sortpos'[m + 1] {
      EqualStep(keys, m, i);
      assert Equal(keys[..i], m) == sortpos[m + 1];
    }
  }

  /** The running sums are done up to `k`. */
  ghost predicate Summed(keys: seq<nat>, sortpos: seq<nat>, k: nat)
    requires k > 0
  {
    && |sortpos| == 513
    && (forall m :: 0 <= m < k && m <= 512 ==> sortpos[m] == Below(keys, m))
    && (forall m :: k - 1 <= m < 512 ==> Equal(keys, m) == sortpos[m + 1])
  }

  lemma SummedStep(keys: seq<nat>, sortpos: seq<nat>, k: nat)
    requires 1 <= k <= 512 && Summed(keys, sortpos, k)
    ensures Summed(keys, sortpos[k := sortpos[k] + sortpos[k - 1]], k + 1)
  {
    BelowNext(keys, k - 1);
  }

  /** Cursors while the first `i` jobs are placed. */
  ghost predicate Sections(keys: seq<nat>, i: nat, sortpos: seq<nat>)
    requires i <= |keys|
  {
    |sortpos| == 513 && forall m :: 0 <= m <= CHUNK ==> sortpos[m] == Below(keys, m) + Equal(keys[..i], m)
  }

  lemma SectionsStep(keys: seq<nat>, i: nat, sortpos: seq<nat>)
    requires i < |keys| && keys[i] <= CHUNK && Sections(keys, i, sortpos)
    ensures sortpos[keys[i]] == Place(keys, UNUSED_KEY, i) < |keys|
    ensures Sections(keys, i + 1, sortpos[keys[i] := sortpos[keys[i]] + 1])
  {
    PlaceInSection(keys, UNUSED_KEY, i);
    forall m | 0 <= m <= CHUNK
      ensures Equal(keys[..i + 1], m) == Equal(keys[..i], m) + (if keys[i] == m then 1 else 0)
    {
      EqualStep(keys, m, i);
    }
  }

  /** Histogram of the lengths, as running sums: where each length's section starts. */
  method SectionSums(input: seq<Job>) returns (sortpos: array<nat>)
    requires ShortJobs(input)
    ensures fresh(sortpos) && sortpos.Length == 513 && Sections(LengthKeys(input), 0, sortpos[..])
  {
    ghost var keys := LengthKeys(input);
    sortpos := new nat[513](_ => 0);
    assert Histogram(keys[..0], sortpos[..]);
    for i := 0 to |input|
      invariant Histogram(keys[..i], sortpos[..])
    {
      HistogramStep(keys, sortpos[..], i);
      var len := input[i].end - input[i].cur;
      ghost var before: seq<nat> := sortpos[..];
      sortpos[512 - len] := sortpos[512 - len] + 1;
      assert sortpos[..] == before[keys[i] + 1 := before[keys[i] + 1] + 1];
    }
    assert keys[..|input|] == keys;
    BelowZero(keys);
    for k := 1 to 513
      invariant Summed(keys, sortpos[..], k)
    {
      SummedStep(keys, sortpos[..], k);
      ghost var before: seq<nat> := sortpos[..];
      sortpos[k] := sortpos[k] + sortpos[k - 1];
      assert sortpos[..] == before[k := before[k] + before[k - 1]];
    }
  }

  /** The radix sort of the jobs: stable, longest first. */
  method SortJobs(input: seq<Job>) returns (ordered: seq<Job>)
    requires ShortJobs(input)
    ensures |ordered| == |input| && Ordered(input, ordered)
  {
    hide Place, Sections, Distributed;
    ghost var keys := LengthKeys(input);
    var sortpos := SectionSums(input);
    ordered := seq(|input|, _ => Job(0, 0, 0, 0));
    DistributedStart(input, ordered);
    for i := 0 to |input|
      invariant sortpos.Length == 513 && Sections(keys, i, sortpos[..])
      invariant |ordered| == |input| && Distributed(input, ordered, i)
    {
      SectionsStep(keys, i, sortpos[..]);
      DistributedStep(input, ordered, i);
      var len := input[i].end - input[i].cur;
      var pos := sortpos[511 - len];
      ghost var before: seq<nat> := sortpos[..];
      sortpos[511 - len] := pos + 1;
      assert sortpos[..] == before[keys[i] := before[keys[i]] + 1];
      ordered := ordered[pos := input[i]];
    }
  }

  lemma DistributedStart(jobs: seq<Job>, ordered: seq<Job>)
    requires ShortJobs(jobs) && |ordered| == |jobs|
    ensures Distributed(jobs, ordered, 0)
  {
  }

  /** The jobs handed to the kernel, those before the empty ones, are not empty. */
  lemma EmptyJobsLast(jobs: seq<Job>, ordered: seq<Job>, k: nat)
    requires ShortJobs(jobs) && Ordered(jobs, ordered)
    ensures |ordered| == |jobs|
    ensures k < |jobs| - Equal(LengthKeys(jobs), CHUNK) ==> ordered[k].cur < ordered[k].end
  {
    hide Place, Below, Equal;
    var keys := LengthKeys(jobs);
    if k < |jobs| - Equal(keys, CHUNK) {
      PlacesPermute(keys, UNUSED_KEY);
      var i := PermutationOnto(Places(keys, UNUSED_KEY), k);
      PlaceInSection(keys, UNUSED_KEY, i);
      BelowAll(keys, 512);
      BelowNext(keys, CHUNK);
    }
  }

  /** Longer chunks come first and equal ones keep their order. */
  lemma OrderedSorts(jobs: seq<Job>, ordered: seq<Job>, i: nat, k: nat)
    requires ShortJobs(jobs) && Ordered(jobs, ordered) && i < k < |jobs|
    ensures var keys := LengthKeys(jobs);
      Place(keys, UNUSED_KEY, i) < Place(keys, UNUSED_KEY, k) <==>
        jobs[k].end - jobs[k].cur <= jobs[i].end - jobs[i].cur
  {
    var keys := LengthKeys(jobs);
    if keys[i] < keys[k] {
      PlaceByKey(keys, UNUSED_KEY, i, k);
    } else if keys[k] < keys[i] {
      PlaceByKey(keys, UNUSED_KEY, k, i);
    } else {
      PlaceStable(keys, UNUSED_KEY, i, k);
    }
  }

  lemma OrderedUnderway(r: Symbols, b: seq<byte>, plan: seq<Job>, pieces: seq<seq<byte>>, ordered: seq<Job>)
    requires Encodable(r) && ShortJobs(plan) && Ordered(plan, ordered) && Underway(r, b, plan, pieces, plan)
    ensures Underway(r, b, plan, pieces, ordered)
  {
    hide Continues, Encodable, Place;
    var ps := Places(LengthKeys(plan), UNUSED_KEY);
    PlacesPermute(LengthKeys(plan), UNUSED_KEY);
    forall k | 0 <= k < |ordered|
      ensures Continues(r, b, plan, pieces, ordered[k])
    {
      var i := PermutationOnto(ps, k);
      assert ordered[k] == plan[i];
    }
    var qs := Positions(ordered);
    forall k | 0 <= k < |qs| ensures 0 <= qs[k] < |qs| {
      var i := PermutationOnto(ps, k);
      assert ordered[k] == plan[i] && Positions(plan)[i] == qs[k];
    }
    forall k, m | 0 <= k < m < |qs| ensures qs[k] != qs[m] {
      var i := PermutationOnto(ps, k);
      var l := PermutationOnto(ps, m);
      assert i != l && ordered[k] == plan[i] && ordered[m] == plan[l];
      assert Positions(plan)[i] != Positions(plan)[l];
    }
  }

  // --------------------------------------------------------- finishing the batch

  /** The codes of chunk `p` stand complete in the job's output range. */
  ghost predicate Compressed(r: Symbols, b: seq<byte>, plan: seq<Job>, pieces: seq<seq<byte>>, p: nat)
    requires Encodable(r) && p < |plan| == |pieces|
  {
    var z, o := Encode(r, pieces[p]), IN_SIZE + plan[p].out;
    o + |z| <= |b| && b[o..o + |z|] == z
  }

  lemma FinishedIsCompressed(r: Symbols, b: seq<byte>, plan: seq<Job>, pieces: seq<seq<byte>>, j: Job)
    requires Encodable(r) && Continues(r, b, plan, pieces, j) && j.cur == j.end
    ensures j.pos < |plan| == |pieces| && Compressed(r, b, plan, pieces, j.pos)
    ensures j.out == plan[j.pos].out + |Encode(r, pieces[j.pos])|
  {
    hide Encodable, Emit, Step;
    var piece := pieces[j.pos];
    assert Drop(piece, |piece|) == [];
    assert Encode(r, []) == [];
    assert j.cur - plan[j.pos].cur == |piece|;
  }

  /** A postprocessed job: compressed size in place of `end`, the output offset reset. */
  function Outcome(r: Symbols, plan: seq<Job>, pieces: seq<seq<byte>>, p: nat): Job
    requires Encodable(r) && p < |plan| == |pieces|
  {
    Job(0, |Encode(r, pieces[p])|, p, plan[p].out)
  }

  lemma OutcomeFits(r: Symbols, b: seq<byte>, plan: seq<Job>, pieces: seq<seq<byte>>, j: Job)
    requires Encodable(r) && Laid(plan, pieces) && Continues(r, b, plan, pieces, j) && j.cur == j.end
    ensures j.pos < |plan| == |pieces| && j.out >= plan[j.pos].out
    ensures Packed(0, j.out - plan[j.pos].out, j.pos, plan[j.pos].out) == Outcome(r, plan, pieces, j.pos)
  {
    hide Encodable, Encode, Compressed, Continues, Packed;
    FinishedIsCompressed(r, b, plan, pieces, j);
    assert |Encode(r, pieces[j.pos])| <= 2 * CHUNK;
    PackedIff(Outcome(r, plan, pieces, j.pos));
  }

  /** The first `i` jobs are finished and postprocessed, the others still as registered. */
  ghost predicate Finishing(r: Symbols, plan: seq<Job>, pieces: seq<seq<byte>>, jobs: seq<Job>, input: seq<Job>, i: nat)
    requires Encodable(r)
  {
    && |jobs| == |plan| == |pieces| == |input| && i <= |jobs|
    && IsPermutation(Positions(jobs))
    && forall k :: 0 <= k < |jobs| ==>
         && 0 <= jobs[k].pos < |plan|
         && (k < i ==> jobs[k].cur == jobs[k].end && input[jobs[k].pos] == Outcome(r, plan, pieces, jobs[k].pos))
         && (k >= i ==> input[jobs[k].pos] == plan[jobs[k].pos])
  }

  lemma FinishingStart(r: Symbols, b: seq<byte>, plan: seq<Job>, pieces: seq<seq<byte>>, jobs: seq<Job>)
    requires Encodable(r) && Underway(r, b, plan, pieces, jobs)
    ensures Finishing(r, plan, pieces, jobs, plan, 0)
  {
    hide Continues, Encodable, Outcome;
    forall k | 0 <= k < |jobs| ensures 0 <= jobs[k].pos < |plan| {
      assert Positions(jobs)[k] == jobs[k].pos;
    }
  }

  lemma FinishingMoves(r: Symbols, plan: seq<Job>, pieces: seq<seq<byte>>, jobs: seq<Job>, jobs': seq<Job>,
                       input: seq<Job>, i: nat)
    requires Encodable(r) && Finishing(r, plan, pieces, jobs, input, i) && i < |jobs| == |jobs'|
    requires jobs'[i].pos == jobs[i].pos && forall k :: 0 <= k < |jobs| && k != i ==> jobs'[k] == jobs[k]
    ensures Finishing(r, plan, pieces, jobs', input, i)
  {
    hide Encodable, Outcome, IsPermutation;
    assert Positions(jobs') == Positions(jobs);
  }

  lemma FinishingStep(r: Symbols, plan: seq<Job>, pieces: seq<seq<byte>>, jobs: seq<Job>, input: seq<Job>, i: nat)
    requires Encodable(r) && Finishing(r, plan, pieces, jobs, input, i) && i < |jobs| && jobs[i].cur == jobs[i].end
    ensures jobs[i].pos < |plan| == |pieces| == |input| && input[jobs[i].pos] == plan[jobs[i].pos]
    ensures Finishing(r, plan, pieces, jobs, input[jobs[i].pos := Outcome(r, plan, pieces, jobs[i].pos)], i + 1)
  {
    hide Encodable, Outcome;
    forall k | 0 <= k < |jobs| && k != i ensures jobs[k].pos != jobs[i].pos {
      assert Positions(jobs)[k] != Positions(jobs)[i];
    }
  }

  /** Every job of the batch is finished. */
  ghost predicate Done(r: Symbols, b: seq<byte>, plan: seq<Job>, pieces: seq<seq<byte>>, input: seq<Job>)
    requires Encodable(r)
  {
    && |input| == |plan| == |pieces|
    && forall p :: 0 <= p < |plan| ==> input[p] == Outcome(r, plan, pieces, p) && Compressed(r, b, plan, pieces, p)
  }

  lemma FinishingEnd(r: Symbols, b: seq<byte>, plan: seq<Job>, pieces: seq<seq<byte>>, jobs: seq<Job>, input: seq<Job>)
    requires Encodable(r) && Underway(r, b, plan, pieces, jobs) && Finishing(r, plan, pieces, jobs, input, |jobs|)
    ensures Done(r, b, plan, pieces, input)
  {
    hide Encodable, Outcome, Continues, Compressed;
    forall p | 0 <= p < |plan| ensures input[p] == Outcome(r, plan, pieces, p) && Compressed(r, b, plan, pieces, p) {
      var k := PermutationOnto(Positions(jobs), p);
      FinishedIsCompressed(r, b, plan, pieces, jobs[k]);
    }
  }

  /** The scalar loop that finishes job `i`. */
  method FinishJob(c: Coder, b: array<byte>, jobs0: seq<Job>, i: nat, ghost input: seq<Job>,
                   ghost r: Symbols, ghost plan: seq<Job>, ghost pieces: seq<seq<byte>>)
    returns (jobs: seq<Job>)
    requires Final(c, r) && TerminatorFree(r, c.terminator) && Laid(plan, pieces)
    requires Staged(b[..], plan, pieces, c.terminator)
    requires Encodable(r) && Underway(r, b[..], plan, pieces, jobs0) && i < |jobs0|
    requires Finishing(r, plan, pieces, jobs0, input, i)
    modifies b
    ensures Staged(b[..], plan, pieces, c.terminator)
    ensures |jobs| == |jobs0| && Underway(r, b[..], plan, pieces, jobs) && jobs[i].cur == jobs[i].end
    ensures Finishing(r, plan, pieces, jobs, input, i)
  {
    hide Final, Encodable, TerminatorFree, Laid, Staged, Underway, Finishing;
    jobs := jobs0;
    while jobs[i].cur < jobs[i].end
      invariant Staged(b[..], plan, pieces, c.terminator)
      invariant |jobs| == |jobs0| && Underway(r, b[..], plan, pieces, jobs)
      invariant Finishing(r, plan, pieces, jobs, input, i)
      decreases jobs[i].end - jobs[i].cur
    {
      ghost var before := jobs;
      jobs := StepOne(c, b, jobs, i, false, r, plan, pieces);
      FinishingMoves(r, plan, pieces, before, jobs, input, i);
    }
    UnderwayBounds(r, b[..], plan, pieces, jobs, i);
  }

  lemma UnderwayBounds(r: Symbols, b: seq<byte>, plan: seq<Job>, pieces: seq<seq<byte>>, jobs: seq<Job>, i: nat)
    requires Encodable(r) && Underway(r, b, plan, pieces, jobs) && i < |jobs|
    ensures jobs[i].cur <= jobs[i].end
  {
    hide Encodable, Progress;
  }

  /** Postprocesses a finished job. */
  method Postprocess(input: seq<Job>, job: Job, ghost i: nat, ghost jobs: seq<Job>, ghost b: seq<byte>,
                     ghost r: Symbols, ghost plan: seq<Job>, ghost pieces: seq<seq<byte>>)
    returns (input': seq<Job>)
    requires Encodable(r) && Laid(plan, pieces) && Underway(r, b, plan, pieces, jobs)
    requires Finishing(r, plan, pieces, jobs, input, i) && i < |jobs| && job == jobs[i] && job.cur == job.end
    ensures Finishing(r, plan, pieces, jobs, input', i + 1)
  {
    hide Encodable, Laid, Underway, Continues, Finishing, Outcome, Packed;
    UnderwayLengths(r, b, plan, pieces, jobs, i);
    FinishingStep(r, plan, pieces, jobs, input, i);
    OutcomeFits(r, b, plan, pieces, job);
    input' := input[job.pos := Packed(0, job.out - input[job.pos].out, job.pos, input[job.pos].out)];
  }

  /** Finishes all jobs with scalar code and notes their compressed sizes. */
  method FinishAll(c: Coder, b: array<byte>, output: seq<Job>, input0: seq<Job>,
                   ghost r: Symbols, ghost pieces: seq<seq<byte>>)
    returns (input: seq<Job>)
    requires Final(c, r) && TerminatorFree(r, c.terminator) && Laid(input0, pieces)
    requires Staged(b[..], input0, pieces, c.terminator)
    requires Underway(r, b[..], input0, pieces, output)
    modifies b
    ensures Done(r, b[..], input0, pieces, input)
  {
    hide Final, Encodable, TerminatorFree, Laid, Staged, Underway, Finishing, Done;
    FinalEncodable(c, r);
    ghost var plan := input0;
    var jobs := output;
    input := input0;
    FinishingStart(r, b[..], plan, pieces, jobs);
    for i := 0 to |output|
      invariant Staged(b[..], plan, pieces, c.terminator)
      invariant |jobs| == |output| && Underway(r, b[..], plan, pieces, jobs)
      invariant Finishing(r, plan, pieces, jobs, input, i)
    {
      jobs := FinishJob(c, b, jobs, i, input, r, plan, pieces);
      input := Postprocess(input, jobs[i], i, jobs, b[..], r, plan, pieces);
    }
    FinishingEnd(r, b[..], plan, pieces, jobs, input);
  }

  // ---------------------------------------------------------------- the batch

  lemma PlanUnderway(r: Symbols, b: seq<byte>, plan: seq<Job>, pieces: seq<seq<byte>>)
    requires Encodable(r) && Laid(plan, pieces) && |b| == IN_SIZE + OUT_SIZE
    ensures Underway(r, b, plan, pieces, plan)
  {
    hide Encode, Encodable;
    forall p | 0 <= p < |plan| ensures Continues(r, b, plan, pieces, plan[p]) {
      assert Drop(pieces[p], 0) == pieces[p];
      var o := IN_SIZE + plan[p].out;
      assert b[o..o] == [];
      assert [] + Encode(r, pieces[p]) == Encode(r, pieces[p]);
    }
  }

  lemma StagedSize(b: seq<byte>, plan: seq<Job>, pieces: seq<seq<byte>>, terminator: byte)
    requires Staged(b, plan, pieces, terminator)
    ensures |b| == IN_SIZE + OUT_SIZE
  {
  }

  /** Compresses a whole batch.  Whatever the kernel does, every chunk ends up as its
      greedy encoding. */
  method RunBatch(c: Coder, b: array<byte>, input: seq<Job>, empty: nat, kernel: Kernel,
                  ghost r: Symbols, ghost pieces: seq<seq<byte>>)
    returns (finished: seq<Job>)
    requires Final(c, r) && TerminatorFree(r, c.terminator) && Laid(input, pieces)
    requires Staged(b[..], input, pieces, c.terminator)
    requires ShortJobs(input) && empty == Equal(LengthKeys(input), CHUNK) && Possible(kernel, |input| - empty)
    modifies b
    ensures Done(r, b[..], input, pieces, finished)
  {
    hide Final, Encodable, TerminatorFree, Laid, Staged, Underway, Ordered, ShortJobs, Done, Possible, Equal;
    FinalEncodable(c, r);
    StagedSize(b[..], input, pieces, c.terminator);
    PlanUnderway(r, b[..], input, pieces);
    var output := input;
    if |input| - empty >= 32 {
      var ordered := SortJobs(input);
      OrderedUnderway(r, b[..], input, pieces, ordered);
      forall k | 0 <= k < |input| - empty ensures ordered[k].cur < ordered[k].end {
        EmptyJobsLast(input, ordered, k);
      }
      output := Compress512(c, b, ordered, |input| - empty, kernel, r, input, pieces);
    }
    finished := FinishAll(c, b, output, input, r, pieces);
  }
}
