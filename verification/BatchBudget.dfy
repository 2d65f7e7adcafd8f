/** When the vectorised compressor stays inside its destination.

    Its budget test charges a line with twice its length, but a flush inside a line resets
    the budget to the space left and forgets the rest of that line.  Lines started after
    such a flush can therefore overrun the destination.  Whether they can is decided by the
    lengths of the lines alone. */
module BatchBudget {
  import opened Bytes
  import opened Dictionary
  import opened CountingSort
  import opened Sums
  import opened Compression
  import opened Jobs
  import opened BatchPlan

  /** The batches as they form when every line is started: the current batch, the bytes
      before the last flush, and the bytes of the lines started since. */
  datatype Account = Account(jobs: nat, room: nat, before: nat, charged: nat)

  function AccountAt(lens: seq<nat>, k: nat): (a: Account)
    requires k <= |lens|
    ensures Open(a.jobs, a.room)
    decreases k
  {
    if k == 0 then Account(0, 0, 0, 0)
    else
      var a := AccountAt(lens, k - 1);
      var f := FillLine(lens[k - 1], 0, Fill(a.jobs, a.room, -1));
      if f.flushed >= 0 then Account(f.jobs, f.room, Sum(lens[..k - 1]) + f.flushed, 0)
      else Account(f.jobs, f.room, a.before, a.charged + lens[k - 1])
  }

  /** The bytes that the budget test of line `k` accounts for. */
  function Charge(lens: seq<nat>, k: nat): (n: nat)
    requires k < |lens|
    ensures n >= AccountAt(lens, k).before + AccountAt(lens, k).charged
  {
    AccountAt(lens, k).before + AccountAt(lens, k).charged + lens[k]
  }

  /** The most that any test up to that of line `k` accounts for. */
  function MaxCharge(lens: seq<nat>, k: nat): (n: nat)
    requires k < |lens|
    decreases k
  {
    if k == 0 then Charge(lens, 0)
    else if MaxCharge(lens, k - 1) < Charge(lens, k) then Charge(lens, k)
    else MaxCharge(lens, k - 1)
  }

  lemma {:induction false} ChargeAtMost(lens: seq<nat>, k: nat, m: nat)
    requires k <= m < |lens|
    ensures Charge(lens, k) <= MaxCharge(lens, m)
    decreases m
  {
    if k < m {
      ChargeAtMost(lens, k, m - 1);
    }
  }

  /** No account misses the text so far by more than the three bytes that the seven spare
      bytes of every test allow for. */
  predicate Covered(lens: seq<nat>) {
    forall m :: 0 <= m < |lens| ==> Sum(lens[..m + 1]) <= MaxCharge(lens, m) + 3
  }

  /** The same wherever the list starts, as when a caller goes on with the rest of it. */
  predicate CoveredThroughout(lens: seq<nat>) {
    forall s :: 0 <= s <= |lens| ==> Covered(lens[s..])
  }

  function LengthsOf(lines: Lines): (lens: seq<nat>)
    ensures |lens| == |lines| && forall k :: 0 <= k < |lines| ==> lens[k] == |lines[k]|
  {
    seq(|lines|, k requires 0 <= k < |lines| => |lines[k]|)
  }

  /** The completed lines fit the destination. */
  predicate Fits(r: Symbols, lines: Lines, size: nat)
    requires Encodable(r) && size < WORD
  {
    |EncodeLines(r, false, lines[..LinesCompleted(r, lines, size)])| <= size
  }

  // ---------------------------------------------------------------- sufficiency

  function Codes(r: Symbols, lines: Lines, k: nat): (n: nat)
    requires Encodable(r) && k <= |lines|
  {
    |EncodeLines(r, false, lines[..k])|
  }

  /** The meter before line `s + g` of a run whose last flush between lines was before
      line `s`; `used` bytes were written at its last flush. */
  ghost predicate Metered(r: Symbols, lines: Lines, s: nat, g: nat, size: nat, m: Meter, used: nat)
    requires Encodable(r)
  {
    && s + g <= |lines|
    && (var lens := LengthsOf(lines)[s..];
        var a := AccountAt(lens, g);
        && m.jobs == a.jobs && m.room == a.room
        && m.budget + 2 * a.charged + used == size
        && Codes(r, lines, s + g) <= used + 2 * (Sum(lens[..g]) - a.before)
        && Codes(r, lines, s + g) <= size
        && (g > 0 ==> Codes(r, lines, s + g) + 7 <= size + 2 * (Sum(lens[..g]) - MaxCharge(lens, g - 1))))
  }

  /** What the test of a line is worth once the line is complete. */
  lemma TestedLine(r: Symbols, lines: Lines, s: nat, g: nat, size: nat, m: Meter, used: nat)
    requires Encodable(r) && Metered(r, lines, s, g, size, m, used) && Starts(lines, s + g, m.budget)
    ensures var lens := LengthsOf(lines)[s..];
      Codes(r, lines, s + g + 1) + 7 <= size + 2 * (Sum(lens[..g + 1]) - MaxCharge(lens, g))
  {
    hide EncodeLines, EncodeLine, Encodable, AccountAt;
    var lens := LengthsOf(lines)[s..];
    EncodeLinesStep(r, false, lines, s + g);
    SumNext(lens, g);
  }

  lemma CoveredLine(lens: seq<nat>, s: nat, g: nat)
    requires CoveredThroughout(lens) && s + g < |lens|
    ensures Sum(lens[s..][..g + 1]) <= MaxCharge(lens[s..], g) + 3
  {
    assert Covered(lens[s..]);
  }

  /** A started line leaves the account of one more line. */
  lemma MeteredLine(r: Symbols, lines: Lines, s: nat, g: nat, size: nat, m: Meter, used: nat) returns (used': nat)
    requires Encodable(r) && Metered(r, lines, s, g, size, m, used) && Starts(lines, s + g, m.budget) && size < WORD
    requires CoveredThroughout(LengthsOf(lines)) && Open(m.jobs, m.room)
    ensures var f := FillLine(|lines[s + g]|, 0, Fill(m.jobs, m.room, -1));
      var budget := BudgetAfter(r, lines, s + g, size, m.budget - 2 * |lines[s + g]|, f.flushed);
      Metered(r, lines, s, g + 1, size, Meter(f.jobs, f.room, budget), used')
  {
    hide EncodeLines, EncodeLine, Encodable, FillLine, Aligned, MaxCharge, Sum, CoveredThroughout, Covered, CodesAt,
         SpaceLeft;
    var lens, k := LengthsOf(lines)[s..], s + g;
    TestedLine(r, lines, s, g, size, m, used);
    SumNext(lens, g);
    EncodeLinesStep(r, false, lines, k);
    CoveredLine(LengthsOf(lines), s, g);
    var f := FillLine(lens[g], 0, Fill(m.jobs, m.room, -1));
    FlushAligned0(lens[g], Fill(m.jobs, m.room, -1));
    used' := used;
    if f.flushed >= 0 {
      CodesAtBounds(r, lines, k, f.flushed);
      used' := CodesAt(r, lines, k, f.flushed);
    }
  }

  /** A flush between two lines starts a fresh account. */
  lemma MeteredAfresh(r: Symbols, lines: Lines, s: nat, g: nat, size: nat, m: Meter, used: nat)
    requires Encodable(r) && Metered(r, lines, s, g, size, m, used) && size < WORD
    ensures var codes := Codes(r, lines, s + g);
      Metered(r, lines, s + g, 0, size, Meter(0, 0, SpaceLeft(size, codes)), codes)
  {
    hide EncodeLines, Encodable, MaxCharge;
    assert LengthsOf(lines)[s + g..][..0] == [];
  }

  lemma MeteredNext(r: Symbols, lines: Lines, s: nat, g: nat, size: nat, m: Meter, used: nat)
    returns (s': nat, g': nat, used': nat)
    requires Encodable(r) && Metered(r, lines, s, g, size, m, used) && Starts(lines, s + g, m.budget) && size < WORD
    requires CoveredThroughout(LengthsOf(lines)) && Open(m.jobs, m.room)
    ensures s' + g' == s + g + 1
    ensures Metered(r, lines, s', g', size, NextMeter(r, lines, s + g, size, m), used')
  {
    hide EncodeLines, Encodable, Metered, FillLine, BudgetAfter, SpaceLeft, CoveredThroughout, LengthsOf;
    var f := FillLine(|lines[s + g]|, 0, Fill(m.jobs, m.room, -1));
    var budget := BudgetAfter(r, lines, s + g, size, m.budget - 2 * |lines[s + g]|, f.flushed);
    used' := MeteredLine(r, lines, s, g, size, m, used);
    s', g' := s, g + 1;
    if !Starts(lines, s + g + 1, budget) {
      MeteredAfresh(r, lines, s, g + 1, size, Meter(f.jobs, f.room, budget), used');
      s', g', used' := s + g + 1, 0, Codes(r, lines, s + g + 1);
    }
  }

  lemma FlushAligned0(len: nat, f: Fill)
    requires Open(f.jobs, f.room) && f.flushed == -1
    ensures var g := FillLine(len, 0, f).flushed; g >= 0 ==> Aligned(len, g)
  {
    FlushAligned(len, 0, f);
  }

  lemma {:induction false} RunFits(r: Symbols, lines: Lines, s: nat, g: nat, size: nat, m: Meter, used: nat)
    requires Encodable(r) && Metered(r, lines, s, g, size, m, used) && size < WORD && Open(m.jobs, m.room)
    requires CoveredThroughout(LengthsOf(lines))
    ensures |EncodeLines(r, false, lines[..StopsAt(r, lines, s + g, size, m)])| <= size
    decreases |lines| - s - g
  {
    hide EncodeLines, EncodeLine, Encodable, CoveredThroughout, NextMeter, AccountAt, MaxCharge, Sum;
    if Starts(lines, s + g, m.budget) {
      var s', g', used' := MeteredNext(r, lines, s, g, size, m, used);
      RunFits(r, lines, s', g', size, NextMeter(r, lines, s + g, size, m), used');
    }
  }

  /** Whatever the text, the symbols and the size: covered lengths cannot overrun. */
  lemma CoveredFits(r: Symbols, lines: Lines, size: nat)
    requires Encodable(r) && size < WORD && CoveredThroughout(LengthsOf(lines))
    ensures Fits(r, lines, size)
  {
    hide CoveredThroughout;
    assert LengthsOf(lines)[0..][..0] == [] && lines[..0] == [];
    RunFits(r, lines, 0, 0, size, Meter(0, 0, size), 0);
  }

  // ------------------------------------------------------------------ necessity

  /** No symbol starts with `b`, so that every `b` is escaped. */
  predicate Escaped(r: Symbols, b: byte) {
    forall i :: 0 <= i < |r| && r[i] != [] ==> r[i][0] != b
  }

  ghost function FirstBytes(r: Symbols): (firsts: set<int>)
    requires Lengths(r)
    ensures |firsts| <= |r| && forall i :: 0 <= i < |r| ==> r[i][0] in firsts
  {
    if r == [] then {} else FirstBytes(r[..|r| - 1]) + {r[|r| - 1][0]}
  }

  lemma SubsetSize(a: set<int>, b: set<int>)
    ensures a <= b ==> |a| <= |b|
  {
    if a <= b {
      assert b == a + (b - a);
    }
  }

  /** 255 symbols cannot start with all 256 bytes. */
  lemma SomeByteEscaped(r: Symbols) returns (b: byte)
    requires Encodable(r)
    ensures Escaped(r, b)
  {
    var firsts := FirstBytes(r);
    SubsetSize(Range(256), firsts);
    var x :| x in Range(256) && x !in firsts;
    b := x;
  }

  function Repeat(b: byte, n: nat): (s: seq<byte>)
    ensures |s| == n && forall k :: 0 <= k < n ==> s[k] == b
  {
    seq(n, _ => b)
  }

  /** Text of given line lengths that does not compress. */
  function Incompressible(b: byte, lens: seq<nat>): (lines: Lines)
    ensures LengthsOf(lines) == lens
    ensures forall k :: 0 <= k < |lens| ==> lines[k] == Repeat(b, lens[k])
  {
    seq(|lens|, k requires 0 <= k < |lens| => Repeat(b, lens[k]))
  }

  lemma {:induction false} EscapedCodes(r: Symbols, b: byte, n: nat)
    requires Encodable(r) && Escaped(r, b)
    ensures |Encode(r, Repeat(b, n))| == 2 * n
  {
    if n > 0 {
      var s := Repeat(b, n);
      assert s[1..] == Repeat(b, n - 1);
      EscapedCodes(r, b, n - 1);
    }
  }

  lemma {:induction false} EscapedLine(r: Symbols, b: byte, n: nat)
    requires Encodable(r) && Escaped(r, b)
    ensures |EncodeLine(r, false, Repeat(b, n))| == 2 * n
  {
    hide Encode, Encodable, Escaped;
    var s := Repeat(b, n);
    if n <= CHUNK {
      EscapedCodes(r, b, n);
    } else {
      EscapedCodes(r, b, CHUNK);
      EscapedLine(r, b, n - CHUNK);
      assert s[..CHUNK] == Repeat(b, CHUNK) && s[CHUNK..] == Repeat(b, n - CHUNK);
    }
  }

  lemma {:induction false} EscapedTotal(r: Symbols, b: byte, lens: seq<nat>, k: nat)
    requires Encodable(r) && Escaped(r, b) && k <= |lens|
    ensures Codes(r, Incompressible(b, lens), k) == 2 * Sum(lens[..k])
    decreases k
  {
    hide EncodeLine, Encodable, Escaped;
    var lines := Incompressible(b, lens);
    if k > 0 {
      EscapedTotal(r, b, lens, k - 1);
      EncodeLinesStep(r, false, lines, k - 1);
      EscapedLine(r, b, lens[k - 1]);
      SumNext(lens, k - 1);
    } else {
      assert lines[..0] == [] && lens[..0] == [];
    }
  }

  lemma EscapedCodesAt(r: Symbols, b: byte, lens: seq<nat>, k: nat, off: nat)
    requires Encodable(r) && Escaped(r, b) && k < |lens| && off <= lens[k]
    ensures CodesAt(r, Incompressible(b, lens), k, off) == 2 * (Sum(lens[..k]) + off)
  {
    hide EncodeLine, Encodable, Escaped, EncodeLines;
    EscapedTotal(r, b, lens, k);
    EscapedLine(r, b, off);
    assert Incompressible(b, lens)[k][..off] == Repeat(b, off);
  }

  /** The meter before line `k` of a run on such text in which no test has failed yet. */
  function Expected(lens: seq<nat>, k: nat, size: nat): (m: Meter)
    requires k < |lens| && 2 * Charge(lens, k) + 7 <= size
    ensures Open(m.jobs, m.room)
  {
    var a := AccountAt(lens, k);
    Meter(a.jobs, a.room, size - 2 * a.before - 2 * a.charged)
  }

  lemma ExpectedNext(r: Symbols, b: byte, lens: seq<nat>, k: nat, size: nat)
    requires Encodable(r) && Escaped(r, b) && k + 1 < |lens| && size < WORD
    requires 2 * Charge(lens, k) + 7 <= size && 2 * Charge(lens, k + 1) + 7 <= size
    ensures Starts(Incompressible(b, lens), k, Expected(lens, k, size).budget)
    ensures NextMeter(r, Incompressible(b, lens), k, size, Expected(lens, k, size)) == Expected(lens, k + 1, size)
  {
    hide EncodeLine, Encodable, Escaped, EncodeLines, FillLine, Sum, CodesAt;
    var lines, a := Incompressible(b, lens), AccountAt(lens, k);
    var f := FillLine(lens[k], 0, Fill(a.jobs, a.room, -1));
    if f.flushed >= 0 {
      EscapedCodesAt(r, b, lens, k, f.flushed);
    }
    assert Starts(lines, k + 1, Expected(lens, k + 1, size).budget);
  }

  lemma {:induction false} RunsOn(r: Symbols, b: byte, lens: seq<nat>, k: nat, m: nat, size: nat)
    requires Encodable(r) && Escaped(r, b) && k <= m < |lens| && 2 * MaxCharge(lens, m) + 7 <= size < WORD
    ensures 2 * Charge(lens, k) + 7 <= size
    ensures m < StopsAt(r, Incompressible(b, lens), k, size, Expected(lens, k, size))
    decreases m - k
  {
    hide Encodable, Escaped, AccountAt, NextMeter, MaxCharge;
    ChargeAtMost(lens, k, m);
    var lines := Incompressible(b, lens);
    assert Starts(lines, k, Expected(lens, k, size).budget);
    if k < m {
      ChargeAtMost(lens, k + 1, m);
      ExpectedNext(r, b, lens, k, size);
      RunsOn(r, b, lens, k + 1, m, size);
    }
  }

  lemma {:induction false} CodesMonotone(r: Symbols, lines: Lines, k: nat, m: nat)
    requires Encodable(r) && k <= m <= |lines|
    ensures Codes(r, lines, k) <= Codes(r, lines, m)
    decreases m
  {
    hide EncodeLine, Encodable;
    if k < m {
      CodesMonotone(r, lines, k, m - 1);
      EncodeLinesStep(r, false, lines, m - 1);
    }
  }

  /** Lengths that miss the account by four bytes or more: text that does not compress
      overruns a destination of just the size that passes all tests. */
  lemma UncoveredOverruns(r: Symbols, b: byte, lens: seq<nat>, m: nat)
    requires Encodable(r) && Escaped(r, b) && m < |lens| && 2 * MaxCharge(lens, m) + 7 < WORD
    requires Sum(lens[..m + 1]) > MaxCharge(lens, m) + 3
    ensures var lines, size := Incompressible(b, lens), 2 * MaxCharge(lens, m) + 7;
      m < LinesCompleted(r, lines, size) && !Fits(r, lines, size)
  {
    hide Encodable, Escaped, EncodeLines, MaxCharge, Sum, StopsAt;
    var lines, size := Incompressible(b, lens), 2 * MaxCharge(lens, m) + 7;
    RunsOn(r, b, lens, 0, m, size);
    assert Expected(lens, 0, size) == Meter(0, 0, size);
    CodesMonotone(r, lines, m + 1, LinesCompleted(r, lines, size));
    EscapedTotal(r, b, lens, m + 1);
  }

  lemma {:induction false} MaxChargeBounded(lens: seq<nat>, m: nat)
    requires m < |lens|
    ensures MaxCharge(lens, m) <= Sum(lens[..m + 1])
    decreases m
  {
    hide Sum, AccountAt;
    AccountBounded(lens, m);
    SumNext(lens, m);
    if m > 0 {
      MaxChargeBounded(lens, m - 1);
    }
  }

  lemma {:induction false} AccountBounded(lens: seq<nat>, k: nat)
    requires k <= |lens|
    ensures AccountAt(lens, k).before + AccountAt(lens, k).charged <= Sum(lens[..k])
    decreases k
  {
    hide Sum, FillLine;
    if k > 0 {
      AccountBounded(lens, k - 1);
      SumNext(lens, k - 1);
    }
  }

  /** Every call on the lines, or on the rest of them from some line on, keeps inside its
      destination. */
  ghost predicate AlwaysFits(r: Symbols, lens: seq<nat>)
    requires Encodable(r)
  {
    forall s, lines, size :: 0 <= s <= |lens| && LengthsOf(lines) == lens[s..] && 0 <= size < WORD ==>
      Fits(r, lines, size)
  }

  /** The exact condition, for any symbols and lengths whose worst case can be addressed:
      text of those line lengths never overruns, whatever its bytes and the size of the
      destination, if and only if the lengths are covered. */
  lemma AlwaysFitsIff(r: Symbols, lens: seq<nat>)
    requires Encodable(r) && 2 * Sum(lens) + 7 < WORD
    ensures AlwaysFits(r, lens) <==> CoveredThroughout(lens)
  {
    hide Encodable, Escaped, Fits, Sum, MaxCharge;
    var b := SomeByteEscaped(r);
    if CoveredThroughout(lens) {
      forall s, lines, size | 0 <= s <= |lens| && LengthsOf(lines) == lens[s..] && 0 <= size < WORD
        ensures Fits(r, lines, size)
      {
        RestCovered(lens, s);
        CoveredFits(r, lines, size);
      }
    }
    if AlwaysFits(r, lens) {
      forall s, m | 0 <= s <= |lens| && 0 <= m < |lens[s..]|
        ensures Sum(lens[s..][..m + 1]) <= MaxCharge(lens[s..], m) + 3
      {
        var rest := lens[s..];
        SumOfRest(lens, s, m + 1);
        MaxChargeBounded(rest, m);
        if Sum(rest[..m + 1]) > MaxCharge(rest, m) + 3 {
          UncoveredOverruns(r, b, rest, m);
        }
      }
    }
  }

  lemma RestCovered(lens: seq<nat>, s: nat)
    requires CoveredThroughout(lens) && s <= |lens|
    ensures CoveredThroughout(lens[s..])
  {
    hide Covered;
    var rest := lens[s..];
    forall t | 0 <= t <= |rest| ensures Covered(rest[t..]) {
      assert rest[t..] == lens[s + t..];
    }
  }

  // -------------------------------------------------------------------- one batch

  /** Jobs that a line of `len` bytes is cut into. */
  function JobsOf(len: nat): (n: nat)
    ensures n > 0
  {
    if len <= CHUNK then 1 else 1 + JobsOf(len - CHUNK)
  }

  function RoomOf(len: nat): (n: nat) { 2 * len + 7 * JobsOf(len) }

  function JobsNeeded(lens: seq<nat>): (n: nat) {
    if lens == [] then 0 else JobsNeeded(lens[..|lens| - 1]) + JobsOf(lens[|lens| - 1])
  }

  function RoomNeeded(lens: seq<nat>): (n: nat) { 2 * Sum(lens) + 7 * JobsNeeded(lens) }

  /** All lines fit one batch. */
  predicate OneBatch(lens: seq<nat>) {
    JobsNeeded(lens) <= BATCH && RoomNeeded(lens) <= OUT_SIZE
  }

  lemma {:induction false} FillsUp(len: nat, off: nat, f: Fill)
    requires off <= len && Open(f.jobs, f.room)
    requires f.jobs + JobsOf(len - off) < BATCH && f.room + RoomOf(len - off) <= OUT_SIZE
    ensures FillLine(len, off, f) == Fill(f.jobs + JobsOf(len - off), f.room + RoomOf(len - off), f.flushed)
    decreases len - off
  {
    if len - off > CHUNK {
      FillsUp(len, off + CHUNK, Fill(f.jobs + 1, f.room + Room(CHUNK), f.flushed));
    }
  }

  lemma NeededNext(lens: seq<nat>, k: nat)
    requires k < |lens|
    ensures JobsNeeded(lens[..k + 1]) == JobsNeeded(lens[..k]) + JobsOf(lens[k])
    ensures RoomNeeded(lens[..k + 1]) == RoomNeeded(lens[..k]) + RoomOf(lens[k])
  {
    SumNext(lens, k);
    assert lens[..k + 1][..k] == lens[..k];
  }

  lemma {:induction false} NeededMonotone(lens: seq<nat>, k: nat, m: nat)
    requires k <= m <= |lens|
    ensures JobsNeeded(lens[..k]) + (m - k) <= JobsNeeded(lens[..m])
    ensures RoomNeeded(lens[..k]) <= RoomNeeded(lens[..m])
    decreases m
  {
    if k < m {
      NeededMonotone(lens, k, m - 1);
      NeededNext(lens, m - 1);
    }
  }

  lemma {:induction false} OneBatchAccount(lens: seq<nat>, k: nat)
    requires OneBatch(lens) && k < |lens|
    ensures AccountAt(lens, k) == Account(JobsNeeded(lens[..k]), RoomNeeded(lens[..k]), 0, Sum(lens[..k]))
    decreases k
  {
    hide FillLine, JobsOf, RoomOf;
    assert lens[..|lens|] == lens;
    if k > 0 {
      OneBatchAccount(lens, k - 1);
      NeededMonotone(lens, k, |lens|);
      NeededNext(lens, k - 1);
      SumNext(lens, k - 1);
      var a := AccountAt(lens, k - 1);
      FillsUp(lens[k - 1], 0, Fill(a.jobs, a.room, -1));
    }
  }

  lemma OneBatchCovered(lens: seq<nat>)
    requires OneBatch(lens)
    ensures Covered(lens)
  {
    forall m | 0 <= m < |lens| ensures Sum(lens[..m + 1]) <= MaxCharge(lens, m) + 3 {
      OneBatchAccount(lens, m);
      SumNext(lens, m);
      ChargeAtMost(lens, m, m);
    }
  }

  lemma {:induction false} NeededSplit(lens: seq<nat>, s: nat, m: nat)
    requires s + m <= |lens|
    ensures JobsNeeded(lens[..s + m]) == JobsNeeded(lens[..s]) + JobsNeeded(lens[s..][..m])
    decreases m
  {
    hide JobsOf;
    if m > 0 {
      NeededSplit(lens, s, m - 1);
      NeededNext(lens, s + m - 1);
      NeededNext(lens[s..], m - 1);
    }
  }

  /** Lines that fit one batch never overrun. */
  lemma OneBatchCoveredThroughout(lens: seq<nat>)
    requires OneBatch(lens)
    ensures CoveredThroughout(lens)
  {
    forall s | 0 <= s <= |lens| ensures Covered(lens[s..]) {
      var m := |lens| - s;
      NeededSplit(lens, s, m);
      SumSplit(lens, s, m);
      assert lens[..s + m] == lens && lens[s..][..m] == lens[s..];
      OneBatchCovered(lens[s..]);
    }
  }

  // ------------------------------------------------------------------ an overrun

  function Same(n: nat, len: nat): (lens: seq<nat>)
    ensures |lens| == n && forall k :: 0 <= k < n ==> lens[k] == len
  {
    seq(n, _ => len)
  }

  lemma {:induction false} SumSame(n: nat, len: nat, k: nat)
    requires k <= n
    ensures Sum(Same(n, len)[..k]) == k * len
    decreases k
  {
    if k > 0 {
      SumSame(n, len, k - 1);
      SumNext(Same(n, len), k - 1);
    }
  }

  lemma FullLineFills(k: nat)
    requires k <= 509
    ensures FillLine(CHUNK, 0, Fill(k, 1029 * k, -1)) ==
      if k < 509 then Fill(k + 1, 1029 * (k + 1), -1) else Fill(1, 1029, 0)
  {
    if k == 509 {
      assert FillLine(CHUNK, 0, Fill(k, 1029 * k, -1)) == FillLine(CHUNK, 0, Fill(0, 0, 0));
    }
  }

  /** 509 lines of 511 bytes fill a batch; the next one causes a flush before its first byte. */
  lemma {:induction false} FullLinesAccount(k: nat)
    requires k <= 510
    ensures AccountAt(Same(511, CHUNK), k) ==
      if k <= 509 then Account(k, 1029 * k, 0, 511 * k) else Account(1, 1029, 511 * 509, 0)
    decreases k
  {
    hide Sum, FillLine;
    if k > 0 {
      FullLinesAccount(k - 1);
      FullLineFills(k - 1);
      SumSame(511, CHUNK, k - 1);
    }
  }

  lemma {:induction false} FullLinesCharge(k: nat)
    requires k <= 510
    ensures MaxCharge(Same(511, CHUNK), k) == if k <= 509 then 511 * (k + 1) else 511 * 510
    decreases k
  {
    hide AccountAt;
    FullLinesAccount(k);
    if k > 0 {
      FullLinesCharge(k - 1);
    }
  }

  /** 511 lines of 511 bytes each, into 521227 bytes: for every dictionary there is such a
      text of which all lines are completed, with 522242 bytes of code. */
  lemma FullLinesOverrun(r: Symbols) returns (lines: Lines)
    requires Encodable(r)
    ensures LengthsOf(lines) == Same(511, CHUNK)
    ensures LinesCompleted(r, lines, 521227) == |lines|
    ensures |EncodeLines(r, false, lines)| == 522242 && !Fits(r, lines, 521227)
  {
    hide Encodable, Escaped, EncodeLines, StopsAt, MaxCharge, Sum;
    var b := SomeByteEscaped(r);
    var lens := Same(511, CHUNK);
    lines := Incompressible(b, lens);
    FullLinesCharge(510);
    SumSame(511, CHUNK, 511);
    UncoveredOverruns(r, b, lens, 510);
    EscapedTotal(r, b, lens, 511);
    assert lines[..511] == lines;
  }
}
