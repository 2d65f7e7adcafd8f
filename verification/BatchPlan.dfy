/** Which lines the vectorised compressor completes.

    The answer depends on the lengths of the lines, on the lengths of their codes and on
    the size of the destination, and on nothing the vector unit does. */
module BatchPlan {
  import opened Bytes
  import opened Dictionary
  import opened Compression
  import opened Jobs

  type Lines = seq<seq<byte>>

  const WORD := 0x1_0000_0000_0000_0000

  /** Space left in the destination, as the unsigned difference of two pointers. */
  function SpaceLeft(size: nat, used: nat): (n: nat)
    requires size < WORD
    ensures used <= size ==> n == size - used
    ensures size < used <= size + WORD ==> n == WORD - (used - size)
    ensures n >= size - used
  {
    (size - used) % WORD
  }

  /** A batch under construction: its jobs, the room set aside for their codes, and where
      in the current line the last flush happened (-1 if it did not). */
  datatype Fill = Fill(jobs: nat, room: nat, flushed: int)

  /** The batch can take another job, if that leaves enough room. */
  predicate Open(jobs: nat, room: nat) {
    jobs < BATCH && room <= OUT_SIZE && (jobs == 0 ==> room == 0)
  }

  /** Registers the bytes of a line from `off` on, flushing whenever the batch is full. */
  function FillLine(len: nat, off: nat, f: Fill): (g: Fill)
    requires off <= len && Open(f.jobs, f.room)
    ensures Open(g.jobs, g.room) && g.jobs > 0
    ensures g.flushed == f.flushed || off <= g.flushed <= len
    decreases len - off, f.jobs > 0
  {
    var n := Min(CHUNK, len - off);
    if f.room + Room(n) > OUT_SIZE then FillLine(len, off, Fill(0, 0, off))
    else if f.jobs + 1 == BATCH then FillLine(len, off + n, Fill(0, 0, off + n))
    else if off + n < len then FillLine(len, off + n, Fill(f.jobs + 1, f.room + Room(n), f.flushed))
    else Fill(f.jobs + 1, f.room + Room(n), f.flushed)
  }

  /** One job of the plan. */
  lemma FillStep(len: nat, off: nat, f: Fill)
    requires off <= len && Open(f.jobs, f.room)
    ensures var n := Min(CHUNK, len - off); var g := FillLine(len, off, f);
      if f.room + Room(n) > OUT_SIZE then f.jobs > 0 && g == FillLine(len, off, Fill(0, 0, off))
      else if f.jobs + 1 == BATCH then g == FillLine(len, off + n, Fill(0, 0, off + n))
      else if off + n < len then g == FillLine(len, off + n, Fill(f.jobs + 1, f.room + Room(n), f.flushed))
      else g == Fill(f.jobs + 1, f.room + Room(n), f.flushed)
  {
  }

  lemma AlignedNext(len: nat, off: nat)
    requires Aligned(len, off)
    ensures off <= len && Aligned(len, off + Min(CHUNK, len - off))
  {
  }

  lemma {:induction false} FlushAligned(len: nat, off: nat, f: Fill)
    requires Aligned(len, off) && Open(f.jobs, f.room)
    ensures var g := FillLine(len, off, f).flushed; g == f.flushed || (g >= 0 && Aligned(len, g))
    decreases len - off, f.jobs > 0
  {
    hide Aligned;
    AlignedNext(len, off);
    var n := Min(CHUNK, len - off);
    if f.room + Room(n) > OUT_SIZE {
      FlushAligned(len, off, Fill(0, 0, off));
    } else if f.jobs + 1 == BATCH {
      FlushAligned(len, off + n, Fill(0, 0, off + n));
    } else if off + n < len {
      FlushAligned(len, off + n, Fill(f.jobs + 1, f.room + Room(n), f.flushed));
    }
  }

  /** Bytes of code for all lines before `k` and the first `off` bytes of line `k`. */
  function CodesAt(r: Symbols, lines: Lines, k: nat, off: nat): (n: nat)
    requires Encodable(r) && k < |lines| && off <= |lines[k]|
  {
    |EncodeLines(r, false, lines[..k])| + |EncodeLine(r, false, lines[k][..off])|
  }

  /** How far the codes of a line reach at the place of a flush. */
  lemma CodesAtBounds(r: Symbols, lines: Lines, k: nat, off: nat)
    requires Encodable(r) && k < |lines| && Aligned(|lines[k]|, off)
    ensures var whole := |EncodeLines(r, false, lines[..k + 1])|;
      CodesAt(r, lines, k, off) <= whole <= CodesAt(r, lines, k, off) + 2 * (|lines[k]| - off)
    ensures |EncodeLines(r, false, lines[..k])| <= CodesAt(r, lines, k, off)
  {
    hide EncodeLine, EncodeLines, Encodable;
    EncodeLinesStep(r, false, lines, k);
    EncodeLineCut(r, false, lines[k], off);
  }

  /** The state between two lines: the batch so far, and the space the next line may take. */
  datatype Meter = Meter(jobs: nat, room: nat, budget: nat)

  /** The next line may be started. */
  predicate Starts(lines: Lines, k: nat, budget: nat) {
    k < |lines| && Room(|lines[k]|) <= budget
  }

  /** A flush inside a line sets the budget to the space that is left, without charging it
      for the rest of the line. */
  function BudgetAfter(r: Symbols, lines: Lines, k: nat, size: nat, budget: nat, flushed: int): (n: nat)
    requires Encodable(r) && size < WORD && k < |lines| && flushed <= |lines[k]|
  {
    if flushed >= 0 then SpaceLeft(size, CodesAt(r, lines, k, flushed)) else budget
  }

  /** What starting line `k` leaves behind. */
  function NextMeter(r: Symbols, lines: Lines, k: nat, size: nat, m: Meter): (n: Meter)
    requires Encodable(r) && size < WORD && Starts(lines, k, m.budget) && Open(m.jobs, m.room)
    ensures Open(n.jobs, n.room)
  {
    var f := FillLine(|lines[k]|, 0, Fill(m.jobs, m.room, -1));
    var budget := BudgetAfter(r, lines, k, size, m.budget - 2 * |lines[k]|, f.flushed);
    if Starts(lines, k + 1, budget) then Meter(f.jobs, f.room, budget)
    else Meter(0, 0, SpaceLeft(size, |EncodeLines(r, false, lines[..k + 1])|))
  }

  /** The number of the line at which it stops, having completed all lines before it. */
  function StopsAt(r: Symbols, lines: Lines, k: nat, size: nat, m: Meter): (n: nat)
    requires Encodable(r) && size < WORD && k <= |lines| && Open(m.jobs, m.room)
    ensures k <= n <= |lines|
    decreases |lines| - k
  {
    if Starts(lines, k, m.budget) then StopsAt(r, lines, k + 1, size, NextMeter(r, lines, k, size, m)) else k
  }

  function LinesCompleted(r: Symbols, lines: Lines, size: nat): (n: nat)
    requires Encodable(r) && size < WORD
    ensures n <= |lines|
  {
    StopsAt(r, lines, 0, size, Meter(0, 0, size))
  }
}
