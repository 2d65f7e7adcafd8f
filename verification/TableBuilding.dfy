/** Building a symbol table from a sample (`buildSymbolTable`): five rounds of counting and
    choosing, and a last choice from the best of them.

    Making the terminator artificially frequent puts it first in every table, which is what
    zero-terminated mode relies on. */
module TableBuilding {
  import opened Bytes
  import opened Dictionary
  import opened Sums
  import opened SymbolTables
  import opened TableUpdates
  import opened Compression
  import opened TrainingCounters
  import opened SampleCount
  import opened Training

  // ------------------------------------------------------------ what gains can reach

  /** The counts of the visits, except the one at `skip`. */
  function VisitSum(v: Visits, skip: int): (n: nat) {
    if v == [] then 0
    else VisitSum(v[..|v| - 1], skip) + (if v[|v| - 1].0 == skip then 0 else v[|v| - 1].1)
  }

  /** The pair counts in the rows of the visited codes. */
  function RowSum(v: Visits, n2: seq<nat>): (n: nat)
    requires Positions(v) && |n2| == PAIRS
  {
    if v == [] then 0 else RowSum(v[..|v| - 1], n2) + Sum(Row(n2, v[|v| - 1].0))
  }

  lemma {:induction false} VisitSumAppend(a: Visits, b: Visits, skip: int)
    ensures VisitSum(a + b, skip) == VisitSum(a, skip) + VisitSum(b, skip)
    decreases |b|
  {
    if b == [] {
      assert a + b == a;
    } else {
      VisitSumAppend(a, b[..|b| - 1], skip);
      assert (a + b)[..|a + b| - 1] == a + b[..|b| - 1];
    }
  }

  lemma {:induction false} RowSumAppend(a: Visits, b: Visits, n2: seq<nat>)
    requires Positions(a) && Positions(b) && |n2| == PAIRS
    ensures Positions(a + b) && RowSum(a + b, n2) == RowSum(a, n2) + RowSum(b, n2)
    decreases |b|
  {
    if b == [] {
      assert a + b == a;
    } else {
      RowSumAppend(a, b[..|b| - 1], n2);
      assert (a + b)[..|a + b| - 1] == a + b[..|b| - 1];
    }
  }

  lemma HereSum(counts: seq<nat>, m: seq<nat>, skip: int, p: nat)
    requires |m| == |counts| && p < |counts| && (p != skip ==> m[p] == counts[p])
    ensures VisitSum(Here(counts, p), skip) <= m[p]
  {
  }

  /** A scan visits no counter twice. */
  lemma {:induction false} ScannedSum(counts: seq<nat>, m: seq<nat>, pairs: bool, skip: int, pos: nat, limit: nat)
    requires |m| == |counts| && forall p :: 0 <= p < |m| && p != skip ==> m[p] == counts[p]
    ensures Sum(m[..Min(pos, |m|)]) + VisitSum(Scanned(counts, pairs, pos, limit), skip) <= Sum(m)
    decreases if pos < limit then limit - pos else 0
  {
    hide Scanned, Jump, Width, Sum;
    assert m[..|m|] == m;
    SumMonotone(m, Min(pos, |m|), |m|);
    if pos >= limit {
      ScannedEnds(counts, pairs, pos, limit);
    } else {
      var p := Jump(counts, pos, Width(pairs, pos));
      ScannedStep(counts, pairs, pos, limit);
      ScannedSum(counts, m, pairs, skip, p + 1, limit);
      VisitSumAppend(Here(counts, p), Scanned(counts, pairs, p + 1, limit), skip);
      SumMonotone(m, Min(pos, |m|), Min(p, |m|));
      if p < |m| {
        HereSum(counts, m, skip, p);
        SumNext(m, p);
      }
    }
  }

  lemma RowIsSlice(n2: seq<nat>, p: nat)
    requires |n2| == PAIRS && p < CODES
    ensures CODES * p + CODES <= PAIRS && Sum(n2[..CODES * p + CODES]) == Sum(n2[..CODES * p]) + Sum(Row(n2, p))
  {
    hide Sum;
    SumSplit(n2, CODES * p, CODES);
    assert Row(n2, p) == n2[CODES * p..][..CODES];
  }

  lemma {:induction false} ScannedRows(counts: seq<nat>, n2: seq<nat>, pos: nat, limit: nat)
    requires |counts| == CODES && |n2| == PAIRS
    ensures Positions(Scanned(counts, false, pos, limit))
    ensures Sum(n2[..CODES * Min(pos, CODES)]) + RowSum(Scanned(counts, false, pos, limit), n2) <= Sum(n2)
    decreases if pos < limit then limit - pos else 0
  {
    hide Scanned, Jump, Width, Sum, Row;
    assert n2[..PAIRS] == n2;
    SumMonotone(n2, CODES * Min(pos, CODES), PAIRS);
    if pos >= limit {
      ScannedEnds(counts, false, pos, limit);
    } else {
      var p := Jump(counts, pos, Width(false, pos));
      ScannedStep(counts, false, pos, limit);
      ScannedRows(counts, n2, p + 1, limit);
      RowSumAppend(Here(counts, p), Scanned(counts, false, p + 1, limit), n2);
      SumMonotone(n2, CODES * Min(pos, CODES), CODES * Min(p, CODES));
      if p < CODES {
        RowIsSlice(n2, p);
        HereRow(counts, n2, p);
      }
    }
  }

  lemma HereRow(counts: seq<nat>, n2: seq<nat>, p: nat)
    requires |counts| == CODES && |n2| == PAIRS && p < CODES
    ensures Positions(Here(counts, p)) && RowSum(Here(counts, p), n2) <= Sum(Row(n2, p))
  {
    hide Sum, Row;
  }

  lemma SingleGain(symbols: seq<Symbol>, visit: (nat, nat), x: seq<byte>, frac: nat)
    requires SymbolArray(symbols) && visit.0 < CODE_MAX && |x| <= MAX_LENGTH
    ensures var gain := GainOf([SingleBid(symbols, visit)], x, frac);
      gain <= 8 * visit.1 && (symbols[visit.0].bytes != x ==> gain == 0)
  {
    hide SymbolArray, Qualifies;
    SymbolArrayAt(symbols, visit.0);
    var b := SingleBid(symbols, visit);
    AtMostEight(visit.1, |x|);
    assert [b][..0] == [];
  }

  lemma {:induction false} PairGain(symbols: seq<Symbol>, pos1: nat, row: Visits, terminator: byte, charSigned: bool,
                                    x: seq<byte>, frac: nat)
    requires SymbolArray(symbols) && pos1 < CODE_MAX && Positions(row) && |x| <= MAX_LENGTH
    ensures GainOf(PairBids(symbols, pos1, row, terminator, charSigned), x, frac) <= 8 * VisitSum(row, -1)
    decreases |row|
  {
    hide SymbolArray, GainOf;
    if row == [] {
      NothingGained(x, frac);
    } else {
      var init, last := row[..|row| - 1], row[|row| - 1];
      PairGain(symbols, pos1, init, terminator, charSigned, x, frac);
      SymbolArrayAt(symbols, pos1);
      SymbolArrayAt(symbols, last.0);
      var bids := PairBid(symbols, pos1, last, terminator, charSigned);
      GainAppend(PairBids(symbols, pos1, init, terminator, charSigned), bids, x, frac);
      if bids == [] {
        NothingGained(x, frac);
      } else {
        OneBid(bids[0], x, frac);
        assert bids == [bids[0]];
      }
    }
  }

  /** What one counted symbol can add to the gain of `x`. */
  lemma BidsFromGain(symbols: seq<Symbol>, visit: (nat, nat), n2: seq<nat>, limit: nat, frac: nat,
                     terminator: byte, charSigned: bool, x: seq<byte>)
    requires SymbolArray(symbols) && visit.0 < CODE_MAX && |n2| == PAIRS && |x| <= MAX_LENGTH
    ensures GainOf(BidsFrom(symbols, visit, n2, limit, frac, terminator, charSigned), x, frac)
              <= (if symbols[visit.0].bytes == x then 8 * visit.1 else 0)
                 + (if frac < 128 then 8 * Sum(Row(n2, visit.0)) else 0)
  {
    hide SymbolArray, GainOf, PairBids, Sum, Row, Scanned, SingleBid;
    SymbolArrayAt(symbols, visit.0);
    SingleGain(symbols, visit, x, frac);
    if Extensible(symbols[visit.0].bytes, frac, terminator, charSigned) {
      var counts, row := Row(n2, visit.0), RowVisits(n2, visit.0, limit);
      PairGain(symbols, visit.0, row, terminator, charSigned, x, frac);
      ScannedSum(counts, counts, true, -1, 0, limit);
      GainAppend([SingleBid(symbols, visit)], PairBids(symbols, visit.0, row, terminator, charSigned), x, frac);
    } else {
      assert [SingleBid(symbols, visit)] + [] == [SingleBid(symbols, visit)];
    }
  }

  /** What a whole round can: eight times everything counted that may breed `x`. */
  lemma {:induction false} BidsGain(symbols: seq<Symbol>, v: Visits, n2: seq<nat>, limit: nat, frac: nat,
                                    terminator: byte, charSigned: bool, x: seq<byte>, skip: int)
    requires SymbolArray(symbols) && Positions(v) && |n2| == PAIRS && |x| <= MAX_LENGTH
    requires 0 <= skip < CODE_MAX ==> symbols[skip].bytes != x
    ensures GainOf(Bids(symbols, v, n2, limit, frac, terminator, charSigned), x, frac)
              <= 8 * VisitSum(v, skip) + (if frac < 128 then 8 * RowSum(v, n2) else 0)
    decreases |v|
  {
    hide SymbolArray, GainOf, BidsFrom, Sum, Row;
    if v == [] {
      NothingGained(x, frac);
    } else {
      var init, last := v[..|v| - 1], v[|v| - 1];
      SymbolArrayAt(symbols, last.0);
      BidsGain(symbols, init, n2, limit, frac, terminator, charSigned, x, skip);
      BidsFromGain(symbols, last, n2, limit, frac, terminator, charSigned, x);
      GainAppend(Bids(symbols, init, n2, limit, frac, terminator, charSigned),
                 BidsFrom(symbols, last, n2, limit, frac, terminator, charSigned), x, frac);
    }
  }

  // ------------------------------------------------------------- the terminator leads

  /** A visited symbol gains at least what it bids for itself. */
  lemma {:induction false} VisitGains(symbols: seq<Symbol>, v: Visits, n2: seq<nat>, limit: nat, frac: nat,
                                      terminator: byte, charSigned: bool, k: nat)
    requires SymbolArray(symbols) && Positions(v) && |n2| == PAIRS && k < |v|
    requires Qualifies(SingleBid(symbols, v[k]), frac)
    ensures var bids, b := Bids(symbols, v, n2, limit, frac, terminator, charSigned), SingleBid(symbols, v[k]);
      Offered(bids, b.bytes, frac) && GainOf(bids, b.bytes, frac) >= b.count * |b.bytes|
    decreases |v|
  {
    hide SymbolArray, GainOf, BidsFrom, Qualifies, Row;
    var init, last := v[..|v| - 1], v[|v| - 1];
    var b := SingleBid(symbols, v[k]);
    var before, more := Bids(symbols, init, n2, limit, frac, terminator, charSigned),
                        BidsFrom(symbols, last, n2, limit, frac, terminator, charSigned);
    GainAppend(before, more, b.bytes, frac);
    if k < |init| {
      VisitGains(symbols, init, n2, limit, frac, terminator, charSigned, k);
      OfferedAppend(before, more, b.bytes, frac);
    } else {
      FirstBidGains(symbols, last, n2, limit, frac, terminator, charSigned);
      OfferedAppend(before, more, b.bytes, frac);
    }
  }

  lemma OfferedAppend(a: seq<Bid>, b: seq<Bid>, x: seq<byte>, frac: nat)
    ensures Offered(a, x, frac) || Offered(b, x, frac) ==> Offered(a + b, x, frac)
  {
    hide Qualifies;
    if Offered(a, x, frac) {
      var i :| 0 <= i < |a| && a[i].bytes == x && Qualifies(a[i], frac);
      assert (a + b)[i] == a[i];
    } else if Offered(b, x, frac) {
      var i :| 0 <= i < |b| && b[i].bytes == x && Qualifies(b[i], frac);
      assert (a + b)[|a| + i] == b[i];
    }
  }

  lemma FirstBidGains(symbols: seq<Symbol>, visit: (nat, nat), n2: seq<nat>, limit: nat, frac: nat,
                      terminator: byte, charSigned: bool)
    requires SymbolArray(symbols) && visit.0 < CODE_MAX && |n2| == PAIRS
    requires Qualifies(SingleBid(symbols, visit), frac)
    ensures var bids, b := BidsFrom(symbols, visit, n2, limit, frac, terminator, charSigned), SingleBid(symbols, visit);
      Offered(bids, b.bytes, frac) && GainOf(bids, b.bytes, frac) >= b.count * |b.bytes|
  {
    hide SymbolArray, GainOf, Qualifies, PairBids, RowVisits;
    SymbolArrayAt(symbols, visit.0);
    var bids, b := BidsFrom(symbols, visit, n2, limit, frac, terminator, charSigned), SingleBid(symbols, visit);
    assert bids == [b] + bids[1..] && bids[0] == b;
    GainAppend([b], bids[1..], b.bytes, frac);
    OneBid(b, b.bytes, frac);
  }

  /** A candidate that precedes every other one. */
  ghost predicate Leads(all: Candidates, x: seq<byte>) {
    x in all && forall y :: y in all && y != x ==> Before(all, x, y)
  }

  /** Half of what the terminator gains, by which all other counts together fall short. */
  const SAMPLE_LIMIT := 32639

  lemma OtherGains(symbols: seq<Symbol>, nSymbols: nat, n1: seq<nat>, n2: seq<nat>, frac: nat,
                   terminator: byte, charSigned: bool, x: seq<byte>)
    requires SymbolArray(symbols) && |n1| == CODES && |n2| == PAIRS && |x| <= MAX_LENGTH
    requires Sum(n1) <= SAMPLE_LIMIT && (frac < 128 ==> Sum(n2) <= SAMPLE_LIMIT)
    ensures var gain := GainOf(RoundBids(symbols, nSymbols, n1, n2, frac, terminator, charSigned), x, frac);
      gain < GAIN_RANGE && (x != symbols[TerminatorCode(nSymbols, terminator)].bytes ==> gain < 8 * TERMINATOR_COUNT)
  {
    hide SymbolArray, GainOf, Bids, Sum, Scanned, Row;
    var code := TerminatorCode(nSymbols, terminator);
    SymbolArrayAt(symbols, code);
    var counts: seq<nat>, limit := n1[code := TERMINATOR_COUNT], CODE_BASE + nSymbols;
    var v := RoundVisits(nSymbols, terminator, n1);
    SumNothing();
    assert n1[..0] == [] && n2[..0] == [] && counts[..0] == [];
    ScannedRows(counts, n2, 0, limit);
    if x != symbols[code].bytes {
      var m: seq<nat> := n1[code := 0];
      assert m[..0] == [];
      SumUpdate(n1, code, 0);
      ScannedSum(counts, m, false, code, 0, limit);
      BidsGain(symbols, v, n2, limit, frac, terminator, charSigned, x, code);
    } else {
      SumUpdate(n1, code, TERMINATOR_COUNT);
      ScannedSum(counts, counts, false, -1, 0, limit);
      BidsGain(symbols, v, n2, limit, frac, terminator, charSigned, x, -1);
    }
  }

  lemma TerminatorOffered(symbols: seq<Symbol>, nSymbols: nat, n1: seq<nat>, n2: seq<nat>, frac: nat,
                          terminator: byte, charSigned: bool)
    requires SymbolArray(symbols) && |n1| == CODES && |n2| == PAIRS && nSymbols <= CODE_MAX - CODE_BASE && frac <= 128
    requires symbols[TerminatorCode(nSymbols, terminator)].bytes == [terminator]
    ensures var bids := RoundBids(symbols, nSymbols, n1, n2, frac, terminator, charSigned);
      Offered(bids, [terminator], frac) && GainOf(bids, [terminator], frac) >= 8 * TERMINATOR_COUNT
  {
    hide SymbolArray, GainOf, Bids, Scanned, Offered;
    var code := TerminatorCode(nSymbols, terminator);
    SymbolArrayAt(symbols, code);
    var counts: seq<nat>, v := n1[code := TERMINATOR_COUNT], RoundVisits(nSymbols, terminator, n1);
    var k := ScannedVisits(counts, false, 0, CODE_BASE + nSymbols, code);
    assert SingleBid(symbols, v[k]) == Bid([terminator], 8 * TERMINATOR_COUNT);
    VisitGains(symbols, v, n2, CODE_BASE + nSymbols, frac, terminator, charSigned, k);
  }

  /** With a sample of that size the terminator leads the candidates of every round,
      whatever else was counted and even where counters overran. */
  lemma TerminatorLeads(symbols: seq<Symbol>, nSymbols: nat, n1: seq<nat>, n2: seq<nat>, frac: nat,
                        terminator: byte, charSigned: bool)
    requires SymbolArray(symbols) && |n1| == CODES && |n2| == PAIRS && nSymbols <= CODE_MAX - CODE_BASE && frac <= 128
    requires Sum(n1) <= SAMPLE_LIMIT && (frac < 128 ==> Sum(n2) <= SAMPLE_LIMIT)
    requires symbols[TerminatorCode(nSymbols, terminator)].bytes == [terminator]
    requires Healthy(symbols, terminator, charSigned)
    ensures Leads(CandidatesOf(RoundBids(symbols, nSymbols, n1, n2, frac, terminator, charSigned), frac), [terminator])
  {
    hide SymbolArray, GainOf, RoundBids, Sum, Healthy, Fit, Load, Offered;
    var bids := RoundBids(symbols, nSymbols, n1, n2, frac, terminator, charSigned);
    TerminatorOffered(symbols, nSymbols, n1, n2, frac, terminator, charSigned);
    OtherGains(symbols, nSymbols, n1, n2, frac, terminator, charSigned, [terminator]);
    CandidatesFit(symbols, nSymbols, n1, n2, frac, terminator, charSigned);
    var all := CandidatesOf(bids, frac);
    forall y | y in all && y != [terminator] ensures Before(all, [terminator], y) {
      FitLength(symbols, y, terminator, charSigned);
      OtherGains(symbols, nSymbols, n1, n2, frac, terminator, charSigned, y);
    }
  }

  lemma FitLength(symbols: seq<Symbol>, x: seq<byte>, terminator: byte, charSigned: bool)
    requires Fit(symbols, x, terminator, charSigned)
    ensures |x| <= MAX_LENGTH
  {
  }

  /** A leading candidate without a hash slot is the first symbol chosen. */
  lemma LeaderFirst(all: Candidates, d: Symbols, x: seq<byte>)
    requires Outcome(all, d) && Leads(all, x) && |x| <= 2
    ensures d != [] && d[0] == x
  {
    if x in d {
      var i :| 0 <= i < |d| && d[i] == x;
      assert i > 0 ==> !Before(all, d[i], d[0]);
    } else {
      assert d != [] && d[0] in all;
      assert !Before(all, x, d[0]);
    }
  }

  // ------------------------------------------------------------------------ rounds

  /** A trained table, what it gains on the lines its round visits, and what the counters
      read as afterwards. */
  datatype Trial = Trial(symbols: seq<Symbol>, chosen: Symbols, gain: int, singles: seq<nat>, pairs: seq<nat>)

  /** The part of the sample that each of the five rounds visits, in 128ths. */
  function Fraction(k: nat): nat { 8 + 30 * k }

  /** Gain and counters are those of the greedy parse of the visited lines. */
  ghost predicate Tried(lines: seq<seq<byte>>, random: (nat, nat) -> nat, frac: nat, t: Trial) {
    && SymbolArray(t.symbols) && Lengths(t.chosen) && |t.chosen| <= CODE_MAX - CODE_BASE
    && (var visit := (i: nat) => Visited(frac, j => random(frac, j), i);
        var events := TotalEvents(t.chosen, lines, visit, frac < 128, |lines|);
        && t.gain == TotalGain(t.chosen, lines, visit, |lines|)
        && AllInRange(events)
        && t.singles == Singles(AfterEvents(Cleared(), events)) && t.pairs == Pairs(AfterEvents(Cleared(), events)))
  }

  /** The candidates bred from a trial with the pair counts `pairs`. */
  function NextCandidates(t: Trial, pairs: seq<nat>, frac: nat, terminator: byte, charSigned: bool): Candidates
    requires SymbolArray(t.symbols) && |t.singles| == CODES && |pairs| == PAIRS
  {
    CandidatesOf(RoundBids(t.symbols, |t.chosen|, t.singles, pairs, frac, terminator, charSigned), frac)
  }

  /** The terminator is the first symbol, if there is any. */
  predicate Led(d: Symbols, terminator: byte) { d != [] ==> d[0] == [terminator] }

  lemma {:induction false} ParsedAtMost(d: Symbols, s: seq<byte>)
    requires Lengths(d)
    ensures ParsedSize(d, s) <= 2 * |s|
    decreases |s|
  {
    if s != [] {
      ParsedAtMost(d, s[Step(d, s)..]);
    }
  }

  lemma {:induction false} VisitedBytes(d: Symbols, lines: seq<seq<byte>>, visit: nat -> bool, n: nat)
    requires Lengths(d) && n <= |lines|
    ensures Consumed(lines, visit, n) <= TotalLength(lines[..n])
    ensures TotalGain(d, lines, visit, n) + TotalLength(lines[..n]) >= 0
    decreases n
  {
    if n > 0 {
      VisitedBytes(d, lines, visit, n - 1);
      ParsedAtMost(d, lines[n - 1]);
      assert lines[..n][..n - 1] == lines[..n - 1];
    }
  }

  /** What a trial counts and gains is bounded by the sample. */
  lemma TrialBounds(lines: seq<seq<byte>>, random: (nat, nat) -> nat, frac: nat, t: Trial)
    requires Tried(lines, random, frac, t)
    ensures |t.singles| == CODES && |t.pairs| == PAIRS
    ensures Sum(t.singles) <= TotalLength(lines) && Sum(t.pairs) <= TotalLength(lines)
    ensures t.gain + TotalLength(lines) >= 0
  {
    hide TotalEvents, TotalGain, AfterEvents, Sum, Singles, Pairs, Consumed, SymbolArray;
    var visit := (i: nat) => Visited(frac, j => random(frac, j), i);
    EventsAtMost(t.chosen, lines, visit, frac < 128, |lines|);
    VisitedBytes(t.chosen, lines, visit, |lines|);
    assert lines[..|lines|] == lines;
    ReadsAtMostCounted(TotalEvents(t.chosen, lines, visit, frac < 128, |lines|));
  }

  /** Counts a round. */
  method CountTrial(st: SymbolTable, lines: seq<seq<byte>>, random: (nat, nat) -> nat, frac: nat, c: Counters)
    returns (gain: int, ghost t: Trial)
    requires st.Valid() && c.Valid() && SymbolArray(st.symbols[..])
    modifies c.mem
    ensures st.Valid() && Tried(lines, random, frac, t) && t.symbols == st.symbols[..] && t.chosen == st.Symbols()
    ensures gain == t.gain && Singles(c.mem[..]) == t.singles && Pairs(c.mem[..]) == t.pairs
  {
    hide Indexed, SymbolArray, Singles, Pairs, AfterEvents, TotalEvents, TotalGain;
    ghost var symbols := st.symbols[..];
    c.Reset();
    ghost var events;
    gain, events := CompressCount(st, lines, frac, j => random(frac, j), c);
    t := Trial(symbols, st.Symbols(), gain, Singles(c.mem[..]), Pairs(c.mem[..]));
  }

  lemma TerminatorStored(symbols: seq<Symbol>, t: Table, d: Symbols, terminator: byte)
    requires Indexed(t, d) && symbols == t.symbols && Led(d, terminator)
    ensures symbols[TerminatorCode(|d|, terminator)].bytes == [terminator]
  {
  }

  /** Makes the next table; it is led by the terminator again. */
  method NextTable(st: SymbolTable, c: Counters, frac: nat, charSigned: bool, ghost t: Trial)
    requires st.Valid() && Healthy(st.symbols[..], st.terminator, charSigned) && c.Valid()
    requires t.symbols == st.symbols[..] && t.chosen == st.Symbols() && Led(t.chosen, st.terminator) && frac <= 128
    requires SymbolArray(t.symbols) && Singles(c.mem[..]) == t.singles
    requires Sum(t.singles) <= SAMPLE_LIMIT && (frac < 128 ==> Sum(Pairs(c.mem[..])) <= SAMPLE_LIMIT)
    modifies st`nSymbols, st.shortCodes, st.byteCodes, st.symbols, st.hashTab, st.lenHisto, c.mem
    ensures st.Valid() && Healthy(st.symbols[..], st.terminator, charSigned) && SymbolArray(st.symbols[..])
    ensures st.Symbols() != [] && st.Symbols()[0] == [st.terminator] && st.nSymbols <= 255 && Distinct(st.Symbols())
    ensures Outcome(NextCandidates(t, old(Pairs(c.mem[..])), frac, st.terminator, charSigned), st.Symbols())
  {
    hide Indexed, Healthy, SymbolArray, Singles, Pairs, Sum, CandidatesOf, RoundBids, Outcome, Leads, Bred;
    ghost var table, n2 := st.Contents(), Pairs(c.mem[..]);
    TerminatorStored(st.symbols[..], table, t.chosen, st.terminator);
    TerminatorLeads(t.symbols, |t.chosen|, t.singles, n2, frac, st.terminator, charSigned);
    MakeTable(st, c, frac, charSigned);
    HealthyArray(st.symbols[..], st.terminator, charSigned);
    ghost var all := NextCandidates(t, n2, frac, st.terminator, charSigned);
    LeaderFirst(all, st.Symbols(), [st.terminator]);
    OutcomeDistinct(all, st.Symbols());
  }

  lemma OutcomeDistinct(all: Candidates, d: Symbols)
    requires Outcome(all, d)
    ensures Distinct(d)
  {
  }

  /** The best trial so far is the last one with the greatest gain. */
  ghost predicate BestOf(trials: seq<Trial>, b: nat) {
    && b < |trials|
    && (forall k :: 0 <= k < |trials| ==> trials[k].gain <= trials[b].gain)
    && (forall k :: b < k < |trials| ==> trials[k].gain < trials[b].gain)
  }

  /** Every trial after the first was chosen from what the one before it bred. */
  ghost predicate Succession(lines: seq<seq<byte>>, random: (nat, nat) -> nat, trials: seq<Trial>,
                             terminator: byte, charSigned: bool) {
    && (forall k :: 0 <= k < |trials| ==> Tried(lines, random, Fraction(k), trials[k]))
    && (forall k :: 0 <= k < |trials| ==> |trials[k].singles| == CODES && |trials[k].pairs| == PAIRS)
    && (|trials| > 0 ==> trials[0].chosen == [])
    && (forall k, m :: 0 <= k && m == k + 1 < |trials| ==>
          Outcome(NextCandidates(trials[k], trials[k].pairs, Fraction(k), terminator, charSigned), trials[m].chosen))
  }

  lemma SuccessionNext(lines: seq<seq<byte>>, random: (nat, nat) -> nat, trials: seq<Trial>, t: Trial,
                       terminator: byte, charSigned: bool)
    requires Succession(lines, random, trials, terminator, charSigned)
    requires Tried(lines, random, Fraction(|trials|), t) && |t.singles| == CODES && |t.pairs| == PAIRS
    requires trials == [] ==> t.chosen == []
    requires trials != [] ==>
      var last := trials[|trials| - 1];
      Outcome(NextCandidates(last, last.pairs, Fraction(|trials| - 1), terminator, charSigned), t.chosen)
    ensures Succession(lines, random, trials + [t], terminator, charSigned)
  {
    hide Tried, NextCandidates, Outcome;
    var all := trials + [t];
    forall k | 0 <= k < |all| ensures Tried(lines, random, Fraction(k), all[k]) {
      assert k < |trials| ==> all[k] == trials[k];
    }
  }

  lemma BestOfNext(trials: seq<Trial>, b: nat, t: Trial)
    requires trials != [] ==> BestOf(trials, b)
    ensures BestOf(trials + [t], if trials == [] || t.gain >= trials[b].gain then |trials| else b)
  {
  }

  /** Keeps a table and its single counts as the best so far. */
  method Keep(st: SymbolTable, best: SymbolTable, c: Counters, buf: array<byte>)
    requires st.Valid() && c.Valid() && best.Shaped() && best.Apart(st) && buf.Length == 2 * CODES && buf != c.mem
    modifies best, best.shortCodes, best.byteCodes, best.symbols, best.hashTab, best.lenHisto, buf
    ensures best.Valid() && best.symbols[..] == st.symbols[..] && best.Symbols() == st.Symbols()
    ensures best.terminator == st.terminator && best.zeroTerminated == st.zeroTerminated
    ensures buf[..] == c.mem[..2 * CODES] && c.mem[..] == old(c.mem[..])
  {
    hide Indexed;
    ghost var t := st.Contents();
    c.Backup1(buf);
    best.CopyFrom(st);
    assert best.Contents().symbols == t.symbols;
  }

  /** What is kept between rounds is the best trial: its table, and its single counts. */
  ghost predicate Record(trials: seq<Trial>, b: nat, bestGain: int, symbols: seq<Symbol>, chosen: Symbols,
                         buf: seq<byte>, mem: Memory, terminator: byte) {
    if trials == [] then bestGain == -32768
    else
      && BestOf(trials, b) && bestGain == trials[b].gain
      && symbols == trials[b].symbols && chosen == trials[b].chosen
      && SymbolArray(symbols) && Led(chosen, terminator)
      && buf == mem[..2 * CODES] && Singles(mem) == trials[b].singles && Sum(trials[b].singles) <= SAMPLE_LIMIT
  }

  lemma RecordKept(trials: seq<Trial>, b: nat, bestGain: int, symbols: seq<Symbol>, chosen: Symbols,
                   buf: seq<byte>, mem: Memory, terminator: byte, t: Trial, mem': Memory)
    requires Record(trials, b, bestGain, symbols, chosen, buf, mem, terminator) && t.gain >= -32768
    requires SymbolArray(t.symbols) && Led(t.chosen, terminator) && Singles(mem') == t.singles
    requires Sum(t.singles) <= SAMPLE_LIMIT
    ensures if t.gain >= bestGain then
              Record(trials + [t], |trials|, t.gain, t.symbols, t.chosen, mem'[..2 * CODES], mem', terminator)
            else
              Record(trials + [t], b, bestGain, symbols, chosen, buf, mem, terminator)
  {
    hide SymbolArray, Singles, Sum, Led;
    BestOfNext(trials, b, t);
  }

  /** What the last trial bred is the table of the next one. */
  ghost predicate Ready(trials: seq<Trial>, d: Symbols, terminator: byte, charSigned: bool) {
    if trials == [] then d == []
    else
      var last := trials[|trials| - 1];
      && SymbolArray(last.symbols) && |last.singles| == CODES && |last.pairs| == PAIRS
      && Outcome(NextCandidates(last, last.pairs, Fraction(|trials| - 1), terminator, charSigned), d)
  }

  lemma ReadyNext(trials: seq<Trial>, t: Trial, d: Symbols, terminator: byte, charSigned: bool)
    requires SymbolArray(t.symbols) && |t.singles| == CODES && |t.pairs| == PAIRS
    requires Outcome(NextCandidates(t, t.pairs, Fraction(|trials|), terminator, charSigned), d)
    ensures Ready(trials + [t], d, terminator, charSigned)
  {
    hide SymbolArray, NextCandidates, Outcome;
  }

  /** A table in training. */
  ghost predicate Growing(st: SymbolTable, zeroTerminated: bool, terminator: byte, charSigned: bool)
    reads st, st.shortCodes, st.byteCodes, st.symbols, st.hashTab, st.lenHisto
  {
    && st.Valid() && Healthy(st.symbols[..], terminator, charSigned)
    && st.terminator == terminator && st.zeroTerminated == zeroTerminated
  }

  /** The counters read as in the trial. */
  ghost predicate Holds(c: Counters, t: Trial)
    reads c, c.mem
  {
    c.Valid() && Singles(c.mem[..]) == t.singles && Pairs(c.mem[..]) == t.pairs
  }

  /** Counts a round and keeps its table if none before it gained more. */
  method TryTable(st: SymbolTable, best: SymbolTable, lines: seq<seq<byte>>, random: (nat, nat) -> nat, frac: nat,
                  c: Counters, buf: array<byte>, bestGain0: int, zeroTerminated: bool, terminator: byte,
                  charSigned: bool, ghost trials0: seq<Trial>, ghost b0: nat, ghost mem0: Memory)
    returns (bestGain: int, ghost t: Trial, ghost b: nat, ghost mem: Memory)
    requires TotalLength(lines) <= SAMPLE_LIMIT && frac == Fraction(|trials0|)
    requires c.Valid() && buf.Length == 2 * CODES && buf != c.mem && best.Apart(st)
    requires st.Shaped() && best.Shaped()
    requires Growing(st, zeroTerminated, terminator, charSigned) && Led(st.Symbols(), terminator)
    requires Growing(best, zeroTerminated, terminator, charSigned)
    requires Succession(lines, random, trials0, terminator, charSigned)
    requires Ready(trials0, st.Symbols(), terminator, charSigned)
    requires Record(trials0, b0, bestGain0, best.symbols[..], best.Symbols(), buf[..], mem0, terminator)
    modifies c.mem, best, best.shortCodes, best.byteCodes, best.symbols, best.hashTab, best.lenHisto, buf
    ensures st.Shaped() && best.Shaped()
    ensures Growing(st, zeroTerminated, terminator, charSigned) && st.Symbols() == old(st.Symbols())
    ensures Growing(best, zeroTerminated, terminator, charSigned)
    ensures Succession(lines, random, trials0 + [t], terminator, charSigned)
    ensures Record(trials0 + [t], b, bestGain, best.symbols[..], best.Symbols(), buf[..], mem, terminator)
    ensures t.symbols == st.symbols[..] && t.chosen == st.Symbols()
    ensures SymbolArray(t.symbols) && |t.singles| == CODES && |t.pairs| == PAIRS
    ensures Holds(c, t)
    ensures Sum(t.singles) <= SAMPLE_LIMIT && Sum(t.pairs) <= SAMPLE_LIMIT
  {
    hide Indexed, Healthy, SymbolArray, Singles, Pairs, Sum, TotalLength, Tried, NextCandidates, Outcome, Succession,
         Record;
    HealthyArray(st.symbols[..], terminator, charSigned);
    var gain;
    gain, t := CountTrial(st, lines, random, frac, c);
    TrialBounds(lines, random, frac, t);
    SuccessionNext(lines, random, trials0, t, terminator, charSigned);
    RecordKept(trials0, b0, bestGain0, best.symbols[..], best.Symbols(), buf[..], mem0, terminator, t, c.mem[..]);
    bestGain, b, mem := bestGain0, b0, mem0;
    if gain >= bestGain0 {
      Keep(st, best, c, buf);
      bestGain, b, mem := gain, |trials0|, c.mem[..];
    }
  }

  /** One round: counts, keeps the best, and unless it is the last makes the next table. */
  method OneRound(st: SymbolTable, best: SymbolTable, lines: seq<seq<byte>>, random: (nat, nat) -> nat, frac: nat,
                  c: Counters, buf: array<byte>, bestGain0: int, zeroTerminated: bool, terminator: byte,
                  charSigned: bool, ghost trials0: seq<Trial>, ghost b0: nat, ghost mem0: Memory)
    returns (bestGain: int, ghost trials: seq<Trial>, ghost b: nat, ghost mem: Memory)
    requires TotalLength(lines) <= SAMPLE_LIMIT && frac == Fraction(|trials0|) <= 128
    requires c.Valid() && buf.Length == 2 * CODES && buf != c.mem && best.Apart(st)
    requires st.Shaped() && best.Shaped()
    requires Growing(st, zeroTerminated, terminator, charSigned) && Led(st.Symbols(), terminator)
    requires Growing(best, zeroTerminated, terminator, charSigned)
    requires Succession(lines, random, trials0, terminator, charSigned)
    requires Ready(trials0, st.Symbols(), terminator, charSigned)
    requires Record(trials0, b0, bestGain0, best.symbols[..], best.Symbols(), buf[..], mem0, terminator)
    modifies c.mem, best, best.shortCodes, best.byteCodes, best.symbols, best.hashTab, best.lenHisto, buf
    modifies st`nSymbols, st.shortCodes, st.byteCodes, st.symbols, st.hashTab, st.lenHisto
    ensures st.Shaped() && best.Shaped()
    ensures Growing(st, zeroTerminated, terminator, charSigned) && Led(st.Symbols(), terminator)
    ensures Growing(best, zeroTerminated, terminator, charSigned)
    ensures |trials| == |trials0| + 1 && Succession(lines, random, trials, terminator, charSigned)
    ensures frac < 128 ==> Ready(trials, st.Symbols(), terminator, charSigned)
    ensures frac >= 128 ==> Pairs(c.mem[..]) == trials[|trials0|].pairs
    ensures Record(trials, b, bestGain, best.symbols[..], best.Symbols(), buf[..], mem, terminator)
  {
    hide Indexed, Healthy, SymbolArray, Singles, Pairs, Sum, TotalLength, NextCandidates, Outcome, Succession,
         Record, Ready, Distinct;
    ghost var t;
    bestGain, t, b, mem := TryTable(st, best, lines, random, frac, c, buf, bestGain0, zeroTerminated, terminator,
                                    charSigned, trials0, b0, mem0);
    trials := trials0 + [t];
    if frac < 128 {
      NextTable(st, c, frac, charSigned, t);
      ReadyNext(trials0, t, st.Symbols(), terminator, charSigned);
    }
  }

  /** The last choice: bred from the best trial, with its counters put back. */
  method LastTable(best: SymbolTable, c: Counters, buf: array<byte>, zeroTerminated: bool, terminator: byte,
                   charSigned: bool, ghost trials: seq<Trial>, ghost b: nat, ghost bestGain: int, ghost mem: Memory)
    requires best.Shaped() && Growing(best, zeroTerminated, terminator, charSigned)
    requires c.Valid() && buf.Length == 2 * CODES && buf != c.mem && trials != []
    requires Record(trials, b, bestGain, best.symbols[..], best.Symbols(), buf[..], mem, terminator)
    modifies best`nSymbols, best.shortCodes, best.byteCodes, best.symbols, best.hashTab, best.lenHisto, c.mem
    ensures best.Shaped() && Growing(best, zeroTerminated, terminator, charSigned)
    ensures b < |trials| && SymbolArray(trials[b].symbols) && |trials[b].singles| == CODES
    ensures Outcome(NextCandidates(trials[b], old(Pairs(c.mem[..])), 128, terminator, charSigned), best.Symbols())
    ensures best.Symbols() != [] && best.Symbols()[0] == [terminator] && Encodable(best.Symbols())
    ensures BestOf(trials, b)
  {
    hide Indexed, Healthy, SymbolArray, Singles, Pairs, Sum, NextCandidates, Outcome, Record, BestOf, Distinct;
    RecordParts(trials, b, bestGain, best.symbols[..], best.Symbols(), buf[..], mem, terminator);
    RestoredReads(mem, c.mem[..]);
    ghost var last := c.mem[..];
    c.Restore1(buf);
    assert c.mem[..] == mem[..2 * CODES] + last[2 * CODES..];
    NextTable(best, c, 128, charSigned, trials[b]);
    ValidLengths(best);
  }

  method EmptyTable(zeroTerminated: bool, terminator: byte, charSigned: bool) returns (st: SymbolTable)
    ensures fresh(st) && fresh(st.shortCodes) && fresh(st.byteCodes) && fresh(st.symbols)
            && fresh(st.hashTab) && fresh(st.lenHisto)
    ensures st.Shaped() && Growing(st, zeroTerminated, terminator, charSigned) && st.Symbols() == []
  {
    hide Indexed, Healthy, Fresh;
    st := new SymbolTable();
    st.zeroTerminated, st.terminator := zeroTerminated, terminator;
    FreshHealthy(st.symbols[..], terminator, charSigned);
  }

  /** The five passes: over 8, 38, 68, 98 and all 128 of 128 lines. */
  ghost predicate FiveTried(lines: seq<seq<byte>>, random: (nat, nat) -> nat, trials: seq<Trial>) {
    && |trials| == 5
    && Tried(lines, random, 8, trials[0]) && Tried(lines, random, 38, trials[1])
    && Tried(lines, random, 68, trials[2]) && Tried(lines, random, 98, trials[3])
    && Tried(lines, random, 128, trials[4])
  }

  /** Trains a table on a sample: five rounds, and a last choice bred from the best of them,
      with that round's counters put back.  Every table is led by the terminator. */
  method Train(lines: seq<seq<byte>>, random: (nat, nat) -> nat, zeroTerminated: bool, terminator: byte,
               charSigned: bool)
    returns (best: SymbolTable, ghost trials: seq<Trial>, ghost b: nat)
    requires TotalLength(lines) <= SAMPLE_LIMIT
    ensures fresh(best) && fresh(best.shortCodes) && fresh(best.byteCodes) && fresh(best.symbols)
            && fresh(best.hashTab) && fresh(best.lenHisto)
    ensures best.Shaped() && Growing(best, zeroTerminated, terminator, charSigned)
    ensures |trials| == 5 && Succession(lines, random, trials, terminator, charSigned) && BestOf(trials, b)
    ensures b < 5 && SymbolArray(trials[b].symbols) && |trials[b].singles| == CODES && |trials[4].pairs| == PAIRS
    ensures Outcome(NextCandidates(trials[b], trials[4].pairs, 128, terminator, charSigned), best.Symbols())
    ensures best.Symbols() != [] && best.Symbols()[0] == [terminator] && Encodable(best.Symbols())
    ensures FiveTried(lines, random, trials)
  {
    hide Indexed, Healthy, SymbolArray, Singles, Pairs, Sum, TotalLength, NextCandidates, Outcome, Succession,
         Record, Ready, Encodable, Growing, BestOf, FiveTried;
    var st := EmptyTable(zeroTerminated, terminator, charSigned);
    best := EmptyTable(zeroTerminated, terminator, charSigned);
    var c := new Counters();
    var buf := new byte[2 * CODES](_ => 0);
    var bestGain, frac := -32768, 8;
    trials, b := [], 0;
    ghost var mem: Memory := c.mem[..];
    NoTrials(lines, random, terminator, charSigned, best.symbols[..], best.Symbols(), buf[..], mem);
    while true
      invariant fresh(st) && fresh(st.shortCodes) && fresh(st.byteCodes) && fresh(st.symbols)
                && fresh(st.hashTab) && fresh(st.lenHisto)
      invariant fresh(best) && fresh(best.shortCodes) && fresh(best.byteCodes) && fresh(best.symbols)
                && fresh(best.hashTab) && fresh(best.lenHisto)
      invariant fresh(c) && fresh(c.mem) && fresh(buf) && c.Valid() && c.mem != buf && best.Apart(st)
      invariant st.Shaped() && best.Shaped()
      invariant Growing(st, zeroTerminated, terminator, charSigned) && Led(st.Symbols(), terminator)
      invariant Growing(best, zeroTerminated, terminator, charSigned)
      invariant |trials| <= 4 && frac == Fraction(|trials|)
      invariant Succession(lines, random, trials, terminator, charSigned)
      invariant Ready(trials, st.Symbols(), terminator, charSigned)
      invariant Record(trials, b, bestGain, best.symbols[..], best.Symbols(), buf[..], mem, terminator)
      decreases 4 - |trials|
    {
      bestGain, trials, b, mem := OneRound(st, best, lines, random, frac, c, buf, bestGain, zeroTerminated, terminator,
                                           charSigned, trials, b, mem);
      if frac >= 128 {
        break;
      }
      frac := frac + 30;
    }
    FiveRounds(lines, random, trials, terminator, charSigned);
    LastTable(best, c, buf, zeroTerminated, terminator, charSigned, trials, b, bestGain, mem);
  }

  lemma FiveRounds(lines: seq<seq<byte>>, random: (nat, nat) -> nat, trials: seq<Trial>, terminator: byte,
                   charSigned: bool)
    requires Succession(lines, random, trials, terminator, charSigned) && |trials| == 5
    ensures FiveTried(lines, random, trials)
  {
    hide Tried, NextCandidates, Outcome;
    assert Fraction(0) == 8 && Fraction(1) == 38 && Fraction(2) == 68 && Fraction(3) == 98 && Fraction(4) == 128;
  }

  lemma RecordParts(trials: seq<Trial>, b: nat, bestGain: int, symbols: seq<Symbol>, chosen: Symbols,
                    buf: seq<byte>, mem: Memory, terminator: byte)
    requires Record(trials, b, bestGain, symbols, chosen, buf, mem, terminator) && trials != []
    ensures BestOf(trials, b) && b < |trials| && symbols == trials[b].symbols && chosen == trials[b].chosen
    ensures SymbolArray(symbols) && Led(chosen, terminator)
    ensures buf == mem[..2 * CODES] && Singles(mem) == trials[b].singles && Sum(trials[b].singles) <= SAMPLE_LIMIT
  {
  }

  lemma NoTrials(lines: seq<seq<byte>>, random: (nat, nat) -> nat, terminator: byte, charSigned: bool,
                 symbols: seq<Symbol>, chosen: Symbols, buf: seq<byte>, mem: Memory)
    ensures Succession(lines, random, [], terminator, charSigned) && Ready([], [], terminator, charSigned)
    ensures Record([], 0, -32768, symbols, chosen, buf, mem, terminator)
  {
  }

  // ---------------------------------------------------------------------- the sample

  const SAMPLE_TARGET := 16384
  const SAMPLE_LINE := 512

  /** The first line from `start` on, going around, that is not empty. */
  ghost predicate NextLine(lines: seq<seq<byte>>, start: nat, l: nat) {
    && start < |lines| && l < |lines| && lines[l] != []
    && (forall k :: 0 <= k < |lines| && (if start <= l then start <= k < l else start <= k || k < l) ==> lines[k] == [])
  }

  /** The 512 bytes of a line that start at a multiple of 512, fewer at its end. */
  function SamplePiece(line: seq<byte>, j: nat): (s: seq<byte>)
    requires SAMPLE_LINE * j < |line|
  {
    line[SAMPLE_LINE * j..Min(SAMPLE_LINE * j + SAMPLE_LINE, |line|)]
  }

  /** The number of the piece that a random number chooses. */
  function PieceNumber(line: seq<byte>, n: nat): (j: nat)
    requires line != []
    ensures SAMPLE_LINE * j < |line|
  {
    ChunkInside(|line|, n % (1 + (|line| - 1) / SAMPLE_LINE));
    n % (1 + (|line| - 1) / SAMPLE_LINE)
  }

  /** Piece `k` of the sample: two random numbers choose its line and its place there. */
  ghost predicate Drawn(lines: seq<seq<byte>>, random: nat -> nat, k: nat, s: seq<byte>)
    requires lines != []
  {
    exists l: nat :: NextLine(lines, random(2 * k) % |lines|, l)
      && s == SamplePiece(lines[l], PieceNumber(lines[l], random(2 * k + 1)))
  }

  lemma {:induction false} SomeLine(lines: seq<seq<byte>>) returns (l: nat)
    requires TotalLength(lines) > 0
    ensures l < |lines| && lines[l] != []
  {
    if lines[|lines| - 1] != [] {
      l := |lines| - 1;
    } else {
      l := SomeLine(lines[..|lines| - 1]);
    }
  }

  /** The next line that is not empty, from `start` on and around. */
  method NonEmptyLine(lines: seq<seq<byte>>, start: nat) returns (l: nat)
    requires start < |lines| && TotalLength(lines) > 0
    ensures NextLine(lines, start, l)
  {
    ghost var some := SomeLine(lines);
    l := start;
    ghost var around := false;
    while lines[l] == []
      invariant l < |lines| && (around ==> l <= some < start) && (!around ==> start <= l)
      invariant !around ==> forall k :: start <= k < l ==> lines[k] == []
      invariant around ==> forall k :: (start <= k < |lines| || 0 <= k < l) ==> lines[k] == []
      decreases if around then 0 else 1, |lines| - l
    {
      l := l + 1;
      if l == |lines| {
        l, around := 0, true;
      }
    }
  }

  method TotalOf(lines: seq<seq<byte>>) returns (n: nat)
    ensures n == TotalLength(lines)
  {
    n := 0;
    for i := 0 to |lines|
      invariant n == TotalLength(lines[..i])
    {
      assert lines[..i + 1][..i] == lines[..i];
      n := n + |lines[i]|;
    }
    assert lines[..|lines|] == lines;
  }

  lemma LengthAppended(sample: seq<seq<byte>>, s: seq<byte>)
    ensures TotalLength(sample + [s]) == TotalLength(sample) + |s| && (sample + [s])[..|sample|] == sample
  {
    assert (sample + [s])[..|sample|] == sample;
  }

  lemma PieceAdded(lines: seq<seq<byte>>, random: nat -> nat, sample: seq<seq<byte>>, l: nat, s: seq<byte>)
    requires lines != [] && NextLine(lines, random(2 * |sample|) % |lines|, l)
    requires s == SamplePiece(lines[l], PieceNumber(lines[l], random(2 * |sample| + 1)))
    requires forall k :: 0 <= k < |sample| ==> Drawn(lines, random, k, sample[k])
    ensures var more := sample + [s];
      && TotalLength(more) == TotalLength(sample) + |s| && more[..|sample|] == sample
      && forall k :: 0 <= k < |more| ==> Drawn(lines, random, k, more[k])
  {
    hide NextLine, SamplePiece, PieceNumber;
    assert Drawn(lines, random, |sample|, s);
    hide Drawn;
    LengthAppended(sample, s);
  }

  /** Chooses the sample: all lines if they are short, and otherwise random pieces of at
      most 512 bytes until there are enough of them.  It is always small enough for the
      terminator to lead. */
  method MakeSample(lines: seq<seq<byte>>, random: nat -> nat) returns (sample: seq<seq<byte>>)
    requires lines != []
    ensures TotalLength(sample) < SAMPLE_TARGET + SAMPLE_LINE
    ensures TotalLength(lines) < SAMPLE_TARGET ==> sample == lines
    ensures TotalLength(lines) >= SAMPLE_TARGET ==>
      && (forall k :: 0 <= k < |sample| ==> Drawn(lines, random, k, sample[k]))
      && (TotalLength(sample) >= SAMPLE_TARGET || |sample| == |lines| + 64) && 0 < |sample| <= |lines| + 64
      && TotalLength(sample[..|sample| - 1]) < SAMPLE_TARGET
  {
    hide Drawn, TotalLength, NextLine;
    var total := TotalOf(lines);
    if total < SAMPLE_TARGET {
      return lines;
    }
    var size := 0;
    sample := [];
    NoLength();
    while size < SAMPLE_TARGET && |sample| < |lines| + 64
      invariant size == TotalLength(sample) < SAMPLE_TARGET + SAMPLE_LINE && |sample| <= |lines| + 64
      invariant forall k :: 0 <= k < |sample| ==> Drawn(lines, random, k, sample[k])
      invariant sample != [] ==> TotalLength(sample[..|sample| - 1]) < SAMPLE_TARGET
      decreases |lines| + 64 - |sample|
    {
      var t := 2 * |sample|;
      var l := NonEmptyLine(lines, random(t) % |lines|);
      NextLineInside(lines, random(t) % |lines|, l);
      var chunks := 1 + (|lines[l]| - 1) / SAMPLE_LINE;
      var chunk := SAMPLE_LINE * (random(t + 1) % chunks);
      ChunkInside(|lines[l]|, random(t + 1) % chunks);
      var n := Min(|lines[l]| - chunk, SAMPLE_LINE);
      PieceAdded(lines, random, sample, l, lines[l][chunk..chunk + n]);
      sample, size := sample + [lines[l][chunk..chunk + n]], size + n;
    }
  }

  lemma NextLineInside(lines: seq<seq<byte>>, start: nat, l: nat)
    requires NextLine(lines, start, l)
    ensures l < |lines| && lines[l] != []
  {
  }

  lemma ChunkInside(len: nat, k: nat)
    requires len > 0 && k < 1 + (len - 1) / SAMPLE_LINE
    ensures SAMPLE_LINE * k < len
  {
  }

  lemma NoLength()
    ensures TotalLength([]) == 0
  {
  }
}
