/** Growing a symbol table (`makeTable`): counted symbols and concatenations of counted
    pairs become candidates, the best of which make the next table. */
module Training {
  import opened Bytes
  import opened Dictionary
  import opened SymbolTables
  import opened TableUpdates
  import opened Compression
  import opened TrainingCounters
  import opened Sums

  // ------------------------------------------------------------- concatenation

  /** Bitwise or. */
  function Or(a: nat, b: nat): nat
    decreases a + b
  {
    if a == 0 && b == 0 then 0 else (if a % 2 == 1 || b % 2 == 1 then 1 else 0) + 2 * Or(a / 2, b / 2)
  }

  lemma OrDouble(a: nat, b: nat, bit: nat)
    requires bit < 2
    ensures Or(2 * a, 2 * b + bit) == 2 * Or(a, b) + bit
  {
    if 2 * a == 0 && 2 * b + bit == 0 {
      assert a == 0 && b == 0;
    } else {
      assert (2 * b + bit) / 2 == b && (2 * b + bit) % 2 == bit;
    }
  }

  lemma OrQuad(a: nat, b: nat, x: nat)
    requires x < 4
    ensures Or(4 * a, 4 * b + x) == 4 * Or(a, b) + x
  {
    OrDouble(a, b, x / 2);
    OrDouble(2 * a, 2 * b + x / 2, x % 2);
  }

  lemma OrSixteen(a: nat, b: nat, x: nat)
    requires x < 16
    ensures Or(16 * a, 16 * b + x) == 16 * Or(a, b) + x
  {
    OrQuad(a, b, x / 4);
    OrQuad(4 * a, 4 * b + x / 4, x % 4);
  }

  /** A byte below a shifted word passes through. */
  lemma OrByte(a: nat, b: nat, x: byte)
    ensures Or(256 * a, 256 * b + x) == 256 * Or(a, b) + x
  {
    OrSixteen(a, b, x / 16);
    OrSixteen(16 * a, 16 * b + x / 16, x % 16);
  }

  lemma {:induction false} OrZero(a: nat)
    ensures Or(a, 0) == a
  {
    if a > 0 {
      OrZero(a / 2);
    }
  }

  /** A left shift by `k` bytes. */
  function Shl8(n: nat, k: nat): nat {
    if k == 0 then n else 256 * Shl8(n, k - 1)
  }

  /** First bytes of a concatenation: what a combined symbol should be. */
  function Concat(a: seq<byte>, b: seq<byte>): (c: seq<byte>)
    ensures |c| == Min(MAX_LENGTH, |a| + |b|) && c <= a + b
  {
    (a + b)[..Min(MAX_LENGTH, |a| + |b|)]
  }

  lemma {:induction false} MaskedWhole(s: seq<byte>, w: nat)
    requires |s| <= w
    ensures Masked(Load(s), w) == Load(s)
    decreases w
  {
    if w > 0 {
      if s == [] {
        MaskedWhole(s, w - 1);
      } else {
        MaskedWhole(s[1..], w - 1);
      }
    }
  }

  /** The word arithmetic, in a register of `w` bytes, gives the bytes of the
      concatenation: what does not fit is lost and what is not used is zero. */
  lemma {:induction false} ConcatWord(a: seq<byte>, b: seq<byte>, w: nat)
    requires |a| <= w
    ensures Or(Masked(Shl8(Load(b), |a|), w), Load(a)) == Load((a + b)[..Min(w, |a| + |b|)])
    decreases |a|
  {
    hide Or, Masked;
    if a == [] {
      LoadEmpty();
      assert a + b == b;
      if w <= |b| {
        MaskedLoad(b, w);
      } else {
        MaskedWhole(b, w);
        assert b[..|b|] == b;
      }
      OrZero(Masked(Load(b), w));
    } else {
      var a' := a[1..];
      ConcatWord(a', b, w - 1);
      MaskedShift(Shl8(Load(b), |a'|), w);
      OrByte(Masked(Shl8(Load(b), |a'|), w - 1), Load(a'), a[0]);
      var c := (a + b)[..Min(w, |a| + |b|)];
      assert c[1..] == (a' + b)[..Min(w - 1, |a'| + |b|)];
      assert Load(a) == a[0] + 256 * Load(a') && Load(c) == c[0] + 256 * Load(c[1..]);
    }
  }

  lemma LoadEmpty()
    ensures Load([]) == 0
  {
  }

  lemma MaskedShift(n: nat, w: nat)
    requires w > 0
    ensures Masked(256 * n, w) == 256 * Masked(n, w - 1)
  {
    var m := 256 * n;
    assert m % 256 == 0 && m / 256 == n;
    assert Masked(m, w) == m % 256 + 256 * Masked(m / 256, w - 1);
  }

  /** `concat`: the bytes of the combined symbol, zero-padded to eight, are the word the
      code computes. */
  lemma ConcatIsConcatenation(a: seq<byte>, b: seq<byte>)
    requires |a| < MAX_LENGTH
    ensures Or(Masked(Shl8(Load(b), |a|), 8), Load(a)) == Load(Concat(a, b) + Zeros(8 - |Concat(a, b)|))
  {
    ConcatWord(a, b, 8);
    LoadPadded(Concat(a, b), 8 - |Concat(a, b)|);
  }

  /** Candidates are compared as word and length, which is comparison of their bytes. */
  lemma SameWordSameBytes(a: seq<byte>, b: seq<byte>)
    ensures Load(a) == Load(b) && |a| == |b| <==> a == b
  {
    if Load(a) == Load(b) && |a| == |b| {
      LoadInjective(a, b);
    }
  }

  // --------------------------------------------------------------- candidates

  /** A plain `char` compared with an unsigned number: where `char` is signed, bytes from
      128 on are negative. */
  function CharValue(b: byte, charSigned: bool): int {
    if charSigned && b >= 128 then b - 256 else b
  }

  /** The first-byte tests recognise the terminator exactly when it is an unsigned or
      small byte. */
  predicate FilterExact(terminator: byte, charSigned: bool) {
    !charSigned || terminator < 128
  }

  lemma FilterExactIff(terminator: byte, charSigned: bool)
    ensures FilterExact(terminator, charSigned) <==>
              forall b: byte :: CharValue(b, charSigned) == terminator <==> b == terminator
  {
    if !FilterExact(terminator, charSigned) {
      var b: byte := terminator;
      assert CharValue(b, charSigned) != terminator;
    }
  }

  /** One to eight bytes, and no terminator in a symbol of several bytes. */
  predicate SoundSymbol(x: seq<byte>, terminator: byte) {
    1 <= |x| <= MAX_LENGTH && (|x| >= 2 ==> terminator !in x)
  }

  predicate Sound(symbols: seq<Symbol>, terminator: byte) {
    forall k :: 0 <= k < |symbols| ==> SoundSymbol(symbols[k].bytes, terminator)
  }

  /** What every round keeps of the symbol array, used entries and stale ones alike. */
  predicate Healthy(symbols: seq<Symbol>, terminator: byte, charSigned: bool) {
    && (forall k :: 0 <= k < |symbols| ==> 1 <= |symbols[k].bytes| <= MAX_LENGTH)
    && (FilterExact(terminator, charSigned) ==> Sound(symbols, terminator))
  }

  /** What the two filters let through for extension. */
  predicate Extends(a: seq<byte>, b: seq<byte>, terminator: byte, charSigned: bool)
    requires a != [] && b != []
  {
    && |a| < MAX_LENGTH
    && CharValue(a[0], charSigned) != terminator && CharValue(b[0], charSigned) != terminator
  }

  /** Extending a sound symbol by a sound symbol keeps the terminator out of every such
      extension if and only if the filters are exact. */
  lemma ExtensionsSoundIff(terminator: byte, charSigned: bool)
    ensures FilterExact(terminator, charSigned) <==>
      forall a: seq<byte>, b: seq<byte> ::
        SoundSymbol(a, terminator) && SoundSymbol(b, terminator) && Extends(a, b, terminator, charSigned)
        ==> SoundSymbol(Concat(a, b), terminator)
  {
    if FilterExact(terminator, charSigned) {
      forall a: seq<byte>, b: seq<byte> |
        SoundSymbol(a, terminator) && SoundSymbol(b, terminator) && Extends(a, b, terminator, charSigned)
        ensures SoundSymbol(Concat(a, b), terminator)
      {
        ExtensionSound(a, b, terminator, charSigned);
      }
    } else {
      var a: seq<byte>, b: seq<byte> := [terminator], [0];
      assert SoundSymbol(a, terminator) && SoundSymbol(b, terminator) && Extends(a, b, terminator, charSigned);
      assert Concat(a, b)[0] == terminator;
    }
  }

  lemma ExtensionSound(a: seq<byte>, b: seq<byte>, terminator: byte, charSigned: bool)
    requires FilterExact(terminator, charSigned) && SoundSymbol(a, terminator) && SoundSymbol(b, terminator)
    requires Extends(a, b, terminator, charSigned)
    ensures SoundSymbol(Concat(a, b), terminator)
  {
    assert terminator !in a && terminator !in b;
    assert forall k :: 0 <= k < |Concat(a, b)| ==> Concat(a, b)[k] == (a + b)[k];
  }

  // -------------------------------------------------------------------------- bids

  /** One way to breed a candidate, and how often it was counted. */
  datatype Bid = Bid(bytes: seq<byte>, count: nat)

  predicate Positions(visits: Visits) {
    forall i :: 0 <= i < |visits| ==> visits[i].0 < CODE_MAX
  }

  /** The symbol array of a table, stale entries included. */
  predicate SymbolArray(symbols: seq<Symbol>) {
    |symbols| == CODE_MAX && forall k :: 0 <= k < CODE_MAX ==> 1 <= |symbols[k].bytes| <= MAX_LENGTH
  }

  /** A counted symbol bids for itself; single bytes are promoted. */
  function SingleBid(symbols: seq<Symbol>, visit: (nat, nat)): (b: Bid)
    requires SymbolArray(symbols) && visit.0 < CODE_MAX
  {
    var x := symbols[visit.0].bytes;
    Bid(x, if |x| == 1 then 8 * visit.1 else visit.1)
  }

  /** A counted pair bids for the concatenation, unless its second symbol starts with the
      terminator. */
  function PairBid(symbols: seq<Symbol>, pos1: nat, visit: (nat, nat), terminator: byte,
                   charSigned: bool): (bs: seq<Bid>)
    requires SymbolArray(symbols) && pos1 < CODE_MAX && visit.0 < CODE_MAX
  {
    var a, b := symbols[pos1].bytes, symbols[visit.0].bytes;
    if CharValue(b[0], charSigned) != terminator then [Bid(Concat(a, b), visit.1)] else []
  }

  function PairBids(symbols: seq<Symbol>, pos1: nat, row: Visits, terminator: byte, charSigned: bool): (bs: seq<Bid>)
    requires SymbolArray(symbols) && pos1 < CODE_MAX && Positions(row)
  {
    if row == [] then []
    else PairBids(symbols, pos1, row[..|row| - 1], terminator, charSigned)
         + PairBid(symbols, pos1, row[|row| - 1], terminator, charSigned)
  }

  /** A symbol that the round extends: not in the last round, not at full length, and not
      starting with the terminator. */
  predicate Extensible(x: seq<byte>, sampleFrac: nat, terminator: byte, charSigned: bool)
    requires x != []
  {
    sampleFrac < 128 && |x| != MAX_LENGTH && CharValue(x[0], charSigned) != terminator
  }

  /** What the scan of a row of pair counters reports. */
  function RowVisits(n2: seq<nat>, pos1: nat, limit: nat): (v: Visits)
    requires |n2| == PAIRS && pos1 < CODES
    ensures Positions(v)
  {
    ScannedInRange(Row(n2, pos1), true, limit);
    Scanned(Row(n2, pos1), true, 0, limit)
  }

  lemma ScannedInRange(counts: seq<nat>, pairs: bool, limit: nat)
    requires |counts| == CODES
    ensures Positions(Scanned(counts, pairs, 0, limit))
  {
    forall i | 0 <= i < |Scanned(counts, pairs, 0, limit)| ensures Scanned(counts, pairs, 0, limit)[i].0 < CODE_MAX {
      ScannedPositions(counts, pairs, 0, limit, i);
    }
  }

  /** The bids of one counted symbol. */
  function BidsFrom(symbols: seq<Symbol>, visit: (nat, nat), n2: seq<nat>, limit: nat, sampleFrac: nat,
                    terminator: byte, charSigned: bool): (bs: seq<Bid>)
    requires SymbolArray(symbols) && visit.0 < CODE_MAX && |n2| == PAIRS
  {
    [SingleBid(symbols, visit)] +
    if Extensible(symbols[visit.0].bytes, sampleFrac, terminator, charSigned) then
      PairBids(symbols, visit.0, RowVisits(n2, visit.0, limit), terminator, charSigned)
    else []
  }

  /** All bids of a round, in the order the code makes them. */
  function Bids(symbols: seq<Symbol>, singles: Visits, n2: seq<nat>, limit: nat, sampleFrac: nat,
                terminator: byte, charSigned: bool): (bs: seq<Bid>)
    requires SymbolArray(symbols) && Positions(singles) && |n2| == PAIRS
  {
    if singles == [] then []
    else Bids(symbols, singles[..|singles| - 1], n2, limit, sampleFrac, terminator, charSigned)
         + BidsFrom(symbols, singles[|singles| - 1], n2, limit, sampleFrac, terminator, charSigned)
  }

  /** A candidate is an existing symbol, or the first bytes of two existing symbols' concatenation. */
  ghost predicate Bred(symbols: seq<Symbol>, x: seq<byte>) {
    || (exists i :: 0 <= i < |symbols| && x == symbols[i].bytes)
    || (exists i, j :: 0 <= i < |symbols| && 0 <= j < |symbols| && |symbols[i].bytes| < MAX_LENGTH
          && x == Concat(symbols[i].bytes, symbols[j].bytes))
  }

  /** Bred from the symbols, of one to eight bytes, and sound if the filters are exact. */
  ghost predicate Fit(symbols: seq<Symbol>, x: seq<byte>, terminator: byte, charSigned: bool) {
    Bred(symbols, x) && 1 <= |x| <= MAX_LENGTH && (FilterExact(terminator, charSigned) ==> SoundSymbol(x, terminator))
  }

  lemma SingleFit(symbols: seq<Symbol>, i: nat, terminator: byte, charSigned: bool)
    requires Healthy(symbols, terminator, charSigned) && i < |symbols|
    ensures Fit(symbols, symbols[i].bytes, terminator, charSigned)
  {
    hide SoundSymbol, FilterExact;
    assert Bred(symbols, symbols[i].bytes);
  }

  lemma PairFit(symbols: seq<Symbol>, i: nat, j: nat, terminator: byte, charSigned: bool)
    requires Healthy(symbols, terminator, charSigned) && i < |symbols| && j < |symbols|
    requires symbols[i].bytes != [] && symbols[j].bytes != []
    requires Extends(symbols[i].bytes, symbols[j].bytes, terminator, charSigned)
    ensures Fit(symbols, Concat(symbols[i].bytes, symbols[j].bytes), terminator, charSigned)
  {
    hide SoundSymbol, FilterExact;
    if FilterExact(terminator, charSigned) {
      ExtensionSound(symbols[i].bytes, symbols[j].bytes, terminator, charSigned);
    }
    assert Bred(symbols, Concat(symbols[i].bytes, symbols[j].bytes));
  }

  lemma {:induction false} PairBidsFit(symbols: seq<Symbol>, pos1: nat, row: Visits, terminator: byte,
                                       charSigned: bool, k: nat)
    requires SymbolArray(symbols) && Healthy(symbols, terminator, charSigned) && pos1 < CODE_MAX && Positions(row)
    requires |symbols[pos1].bytes| < MAX_LENGTH && CharValue(symbols[pos1].bytes[0], charSigned) != terminator
    requires k < |PairBids(symbols, pos1, row, terminator, charSigned)|
    ensures Fit(symbols, PairBids(symbols, pos1, row, terminator, charSigned)[k].bytes, terminator, charSigned)
    decreases |row|
  {
    hide Fit, Healthy, FilterExact;
    var init, last := row[..|row| - 1], row[|row| - 1];
    if k < |PairBids(symbols, pos1, init, terminator, charSigned)| {
      PairBidsFit(symbols, pos1, init, terminator, charSigned, k);
    } else {
      PairFit(symbols, pos1, last.0, terminator, charSigned);
    }
  }

  lemma BidsFromFit(symbols: seq<Symbol>, visit: (nat, nat), n2: seq<nat>, limit: nat, sampleFrac: nat,
                    terminator: byte, charSigned: bool, k: nat)
    requires SymbolArray(symbols) && Healthy(symbols, terminator, charSigned) && visit.0 < CODE_MAX && |n2| == PAIRS
    requires k < |BidsFrom(symbols, visit, n2, limit, sampleFrac, terminator, charSigned)|
    ensures Fit(symbols, BidsFrom(symbols, visit, n2, limit, sampleFrac, terminator, charSigned)[k].bytes,
                terminator, charSigned)
  {
    hide Fit, Healthy, PairBids, RowVisits, SymbolArray;
    SymbolArrayAt(symbols, visit.0);
    if k == 0 {
      SingleFit(symbols, visit.0, terminator, charSigned);
    } else {
      PairBidsFit(symbols, visit.0, RowVisits(n2, visit.0, limit), terminator, charSigned, k - 1);
    }
  }

  lemma SymbolArrayAt(symbols: seq<Symbol>, k: nat)
    requires SymbolArray(symbols) && k < CODE_MAX
    ensures k < |symbols| && 1 <= |symbols[k].bytes| <= MAX_LENGTH
  {
  }

  /** Whatever the counters hold, every bid is for something bred from the symbols. */
  lemma {:induction false} BidsFit(symbols: seq<Symbol>, singles: Visits, n2: seq<nat>, limit: nat, sampleFrac: nat,
                                   terminator: byte, charSigned: bool, k: nat)
    requires SymbolArray(symbols) && Healthy(symbols, terminator, charSigned) && Positions(singles) && |n2| == PAIRS
    requires k < |Bids(symbols, singles, n2, limit, sampleFrac, terminator, charSigned)|
    ensures Fit(symbols, Bids(symbols, singles, n2, limit, sampleFrac, terminator, charSigned)[k].bytes,
                terminator, charSigned)
    decreases |singles|
  {
    hide Fit, Healthy, BidsFrom, SymbolArray;
    var init, last := singles[..|singles| - 1], singles[|singles| - 1];
    var before := |Bids(symbols, init, n2, limit, sampleFrac, terminator, charSigned)|;
    if k < before {
      BidsFit(symbols, init, n2, limit, sampleFrac, terminator, charSigned, k);
    } else {
      BidsFromFit(symbols, last, n2, limit, sampleFrac, terminator, charSigned, k - before);
    }
  }

  // -------------------------------------------------------------------- candidates

  /** Candidates and their gains. */
  type Candidates = map<seq<byte>, nat>

  const GAIN_RANGE := 0x1_0000_0000

  /** A bid that is counted often enough. */
  predicate Qualifies(b: Bid, sampleFrac: nat) { b.count >= 5 * sampleFrac / 128 }

  predicate Offered(bids: seq<Bid>, x: seq<byte>, sampleFrac: nat) {
    exists i :: 0 <= i < |bids| && bids[i].bytes == x && Qualifies(bids[i], sampleFrac)
  }

  /** Count times length, over all ways to breed the symbol. */
  function GainOf(bids: seq<Bid>, x: seq<byte>, sampleFrac: nat): (n: nat) {
    if bids == [] then 0
    else
      var b := bids[|bids| - 1];
      GainOf(bids[..|bids| - 1], x, sampleFrac)
      + (if b.bytes == x && Qualifies(b, sampleFrac) then b.count * |x| else 0)
  }

  /** `addOrInc`: a candidate counted often enough is added, or its gain increased. */
  function AddOrInc(cands: Candidates, b: Bid, sampleFrac: nat): (r: Candidates) {
    if !Qualifies(b, sampleFrac) then cands
    else
      var gain := b.count * |b.bytes| % GAIN_RANGE;
      cands[b.bytes := if b.bytes in cands then (gain + cands[b.bytes]) % GAIN_RANGE else gain]
  }

  /** The candidates that result from a list of bids: those with a qualifying bid, each
      with the gain of all of them in 32 bits. */
  function CandidatesOf(bids: seq<Bid>, sampleFrac: nat): (cands: Candidates)
    ensures forall x :: x in cands <==> Offered(bids, x, sampleFrac)
    ensures forall x :: x in cands ==> cands[x] == GainOf(bids, x, sampleFrac) % GAIN_RANGE
  {
    if bids == [] then map[]
    else
      var init, b := bids[..|bids| - 1], bids[|bids| - 1];
      OfferedNext(bids, sampleFrac);
      GainNext(bids, sampleFrac);
      AddOrInc(CandidatesOf(init, sampleFrac), b, sampleFrac)
  }

  lemma OfferedNext(bids: seq<Bid>, sampleFrac: nat)
    requires bids != []
    ensures var init, b := bids[..|bids| - 1], bids[|bids| - 1];
      forall x :: Offered(bids, x, sampleFrac) <==>
        Offered(init, x, sampleFrac) || (b.bytes == x && Qualifies(b, sampleFrac))
  {
    hide Qualifies;
    var init, b := bids[..|bids| - 1], bids[|bids| - 1];
    forall x ensures Offered(bids, x, sampleFrac) <==>
        Offered(init, x, sampleFrac) || (b.bytes == x && Qualifies(b, sampleFrac))
    {
      if Offered(bids, x, sampleFrac) {
        var i :| 0 <= i < |bids| && bids[i].bytes == x && Qualifies(bids[i], sampleFrac);
        assert i < |init| ==> init[i] == bids[i];
      }
      if Offered(init, x, sampleFrac) {
        var i :| 0 <= i < |init| && init[i].bytes == x && Qualifies(init[i], sampleFrac);
        assert bids[i] == init[i];
      }
    }
  }

  lemma ModSum(a: nat, b: nat)
    ensures (a % GAIN_RANGE + b % GAIN_RANGE) % GAIN_RANGE == (a + b) % GAIN_RANGE
  {
  }

  lemma {:induction false} NoGain(bids: seq<Bid>, x: seq<byte>, sampleFrac: nat)
    ensures !Offered(bids, x, sampleFrac) ==> GainOf(bids, x, sampleFrac) == 0
  {
    hide Qualifies;
    if bids != [] {
      OfferedNext(bids, sampleFrac);
      NoGain(bids[..|bids| - 1], x, sampleFrac);
    }
  }

  lemma GainNext(bids: seq<Bid>, sampleFrac: nat)
    requires bids != []
    ensures var init, b := bids[..|bids| - 1], bids[|bids| - 1];
      var x, gain := b.bytes, b.count * |b.bytes|;
      && (Qualifies(b, sampleFrac) ==>
            GainOf(bids, x, sampleFrac) % GAIN_RANGE
              == (gain % GAIN_RANGE + GainOf(init, x, sampleFrac) % GAIN_RANGE) % GAIN_RANGE)
      && (!Offered(init, x, sampleFrac) ==> GainOf(init, x, sampleFrac) == 0)
  {
    hide Qualifies, Offered;
    var init, b := bids[..|bids| - 1], bids[|bids| - 1];
    NoGain(init, b.bytes, sampleFrac);
    ModSum(b.count * |b.bytes|, GainOf(init, b.bytes, sampleFrac));
  }

  lemma AtMostEight(a: nat, n: nat)
    requires n <= 8
    ensures a * n <= 8 * a
  {
  }

  lemma {:induction false} GainAppend(a: seq<Bid>, b: seq<Bid>, x: seq<byte>, frac: nat)
    ensures GainOf(a + b, x, frac) == GainOf(a, x, frac) + GainOf(b, x, frac)
    decreases |b|
  {
    hide Qualifies;
    if b == [] {
      assert a + b == a;
    } else {
      GainAppend(a, b[..|b| - 1], x, frac);
      assert (a + b)[..|a + b| - 1] == a + b[..|b| - 1];
    }
  }

  lemma OneBid(b: Bid, x: seq<byte>, frac: nat)
    requires |x| <= MAX_LENGTH
    ensures GainOf([b], x, frac) <= 8 * b.count
    ensures b.bytes != x ==> GainOf([b], x, frac) == 0
    ensures b.bytes == x && Qualifies(b, frac) ==> GainOf([b], x, frac) == b.count * |x|
  {
    AtMostEight(b.count, |x|);
    assert [b][..0] == [];
  }

  lemma NothingGained(x: seq<byte>, frac: nat)
    ensures GainOf([], x, frac) == 0
  {
  }

  // ---------------------------------------------------- gains, from the counters alone

  /** What the count of code `i` adds to the gain of `x`: single bytes count eightfold. */
  function OwnGain(symbols: seq<Symbol>, n1: seq<nat>, i: nat, x: seq<byte>, sampleFrac: nat): (n: nat)
    requires SymbolArray(symbols) && |n1| == CODES && i < CODES
  {
    var count := if |x| == 1 then 8 * n1[i] else n1[i];
    if symbols[i].bytes == x && count >= 5 * sampleFrac / 128 then count * |x| else 0
  }

  /** What the count of the pair `i`, `j` adds: the pair breeds the leading bytes of its
      concatenation, unless one of the two starts with the terminator. */
  function JoinGain(symbols: seq<Symbol>, n2: seq<nat>, i: nat, j: nat, x: seq<byte>, sampleFrac: nat,
                    terminator: byte, charSigned: bool): (n: nat)
    requires SymbolArray(symbols) && |n2| == PAIRS && i < CODES && j < CODES
  {
    var a, b, count := symbols[i].bytes, symbols[j].bytes, n2[Cell(i, j)];
    if CharValue(b[0], charSigned) != terminator && Concat(a, b) == x && count >= 5 * sampleFrac / 128
    then count * |x| else 0
  }

  /** The gains of the visited codes, by code. */
  function OwnGains(symbols: seq<Symbol>, n1: seq<nat>, v: Visits, x: seq<byte>, sampleFrac: nat): (g: seq<nat>)
    requires SymbolArray(symbols) && |n1| == CODES
    ensures |g| == CODES
    ensures forall i :: 0 <= i < CODES ==> g[i] == if In(v, i) then OwnGain(symbols, n1, i, x, sampleFrac) else 0
  {
    seq(CODES, i requires 0 <= i < CODES => if In(v, i) then OwnGain(symbols, n1, i, x, sampleFrac) else 0)
  }

  /** The gains of the visited pairs that start with code `i`, by second code. */
  function RowGains(symbols: seq<Symbol>, n2: seq<nat>, i: nat, row: Visits, x: seq<byte>, sampleFrac: nat,
                    terminator: byte, charSigned: bool): (g: seq<nat>)
    requires SymbolArray(symbols) && |n2| == PAIRS && i < CODES
    ensures |g| == CODES
    ensures forall j :: 0 <= j < CODES ==>
      g[j] == if In(row, j) then JoinGain(symbols, n2, i, j, x, sampleFrac, terminator, charSigned) else 0
  {
    seq(CODES, j requires 0 <= j < CODES =>
      if In(row, j) then JoinGain(symbols, n2, i, j, x, sampleFrac, terminator, charSigned) else 0)
  }

  /** The gains of all pairs of one extensible code. */
  function CodeGain(symbols: seq<Symbol>, n2: seq<nat>, i: nat, limit: nat, x: seq<byte>, sampleFrac: nat,
                    terminator: byte, charSigned: bool): (n: nat)
    requires SymbolArray(symbols) && |n2| == PAIRS && i < CODES
  {
    if Extensible(symbols[i].bytes, sampleFrac, terminator, charSigned) then
      Sum(RowGains(symbols, n2, i, RowVisits(n2, i, limit), x, sampleFrac, terminator, charSigned))
    else 0
  }

  function JoinGains(symbols: seq<Symbol>, n2: seq<nat>, limit: nat, v: Visits, x: seq<byte>, sampleFrac: nat,
                     terminator: byte, charSigned: bool): (g: seq<nat>)
    requires SymbolArray(symbols) && |n2| == PAIRS
    ensures |g| == CODES
    ensures forall i :: 0 <= i < CODES ==>
      g[i] == if In(v, i) then CodeGain(symbols, n2, i, limit, x, sampleFrac, terminator, charSigned) else 0
  {
    seq(CODES, i requires 0 <= i < CODES =>
      if In(v, i) then CodeGain(symbols, n2, i, limit, x, sampleFrac, terminator, charSigned) else 0)
  }

  /** Visits at different positions, with the counts found there. */
  ghost predicate Faithful(v: Visits, counts: seq<nat>) {
    && (forall k :: 0 <= k < |v| ==> v[k].0 < |counts| && v[k].1 == counts[v[k].0] > 0)
    && (forall k, m :: 0 <= k < m < |v| ==> v[k].0 != v[m].0)
  }

  lemma ScannedFaithful(counts: seq<nat>, pairs: bool, limit: nat)
    ensures Faithful(Scanned(counts, pairs, 0, limit), counts)
  {
    hide Scanned;
    var v := Scanned(counts, pairs, 0, limit);
    forall k | 0 <= k < |v|
      ensures v[k].0 < |counts| && v[k].1 == counts[v[k].0] > 0
      ensures forall m :: 0 <= m < k ==> v[m].0 != v[k].0
    {
      ScannedPositions(counts, pairs, 0, limit, k);
      ScannedUpwards(counts, pairs, 0, limit, k);
    }
  }

  /** The last visit is new. */
  lemma InInit(v: Visits, counts: seq<nat>)
    requires v != [] && Faithful(v, counts)
    ensures var init, p := v[..|v| - 1], v[|v| - 1].0;
      && Faithful(init, counts) && !In(init, p) && In(v, p)
      && forall i: nat :: i != p ==> (In(v, i) <==> In(init, i))
  {
    var init, p := v[..|v| - 1], v[|v| - 1].0;
    forall i: nat | i != p ensures In(v, i) <==> In(init, i) {
      if In(v, i) {
        var k :| 0 <= k < |v| && v[k].0 == i;
        assert init[k].0 == i;
      }
      if In(init, i) {
        var k :| 0 <= k < |init| && init[k].0 == i;
        assert v[k].0 == i;
      }
    }
    assert v[|v| - 1].0 == p;
  }

  lemma NoneIn(i: nat)
    ensures !In([], i)
  {
  }

  lemma OneBidExact(b: Bid, x: seq<byte>, sampleFrac: nat)
    ensures GainOf([b], x, sampleFrac) == if b.bytes == x && Qualifies(b, sampleFrac) then b.count * |x| else 0
  {
    assert [b][..0] == [];
  }

  lemma {:induction false} PairBidsGain(symbols: seq<Symbol>, n2: seq<nat>, i: nat, row: Visits, x: seq<byte>,
                                        sampleFrac: nat, terminator: byte, charSigned: bool)
    requires SymbolArray(symbols) && |n2| == PAIRS && i < CODES && Positions(row) && Faithful(row, Row(n2, i))
    ensures GainOf(PairBids(symbols, i, row, terminator, charSigned), x, sampleFrac)
              == Sum(RowGains(symbols, n2, i, row, x, sampleFrac, terminator, charSigned))
    decreases |row|
  {
    hide SymbolArray, GainOf, Sum, In, Row;
    var g := RowGains(symbols, n2, i, row, x, sampleFrac, terminator, charSigned);
    if row == [] {
      NothingGained(x, sampleFrac);
      forall j | 0 <= j < CODES ensures g[j] == 0 {
        NoneIn(j);
      }
      SumZeros(g);
    } else {
      var init, last := row[..|row| - 1], row[|row| - 1];
      InInit(row, Row(n2, i));
      PairBidsGain(symbols, n2, i, init, x, sampleFrac, terminator, charSigned);
      PairBidGain(symbols, n2, i, last, x, sampleFrac, terminator, charSigned);
      GainAppend(PairBids(symbols, i, init, terminator, charSigned),
                 PairBid(symbols, i, last, terminator, charSigned), x, sampleFrac);
      var g0 := RowGains(symbols, n2, i, init, x, sampleFrac, terminator, charSigned);
      var more := JoinGain(symbols, n2, i, last.0, x, sampleFrac, terminator, charSigned);
      assert g == g0[last.0 := more];
      SumUpdate(g0, last.0, more);
    }
  }

  lemma PairBidGain(symbols: seq<Symbol>, n2: seq<nat>, i: nat, visit: (nat, nat), x: seq<byte>, sampleFrac: nat,
                    terminator: byte, charSigned: bool)
    requires SymbolArray(symbols) && |n2| == PAIRS && i < CODES && visit.0 < CODES && visit.1 == Row(n2, i)[visit.0]
    ensures GainOf(PairBid(symbols, i, visit, terminator, charSigned), x, sampleFrac)
              == JoinGain(symbols, n2, i, visit.0, x, sampleFrac, terminator, charSigned)
  {
    hide SymbolArray, GainOf;
    SymbolArrayAt(symbols, i);
    SymbolArrayAt(symbols, visit.0);
    var bs := PairBid(symbols, i, visit, terminator, charSigned);
    if bs == [] {
      NothingGained(x, sampleFrac);
    } else {
      OneBidExact(bs[0], x, sampleFrac);
      assert bs == [bs[0]];
    }
  }

  /** The bids of one counted symbol: its own count, and those of its pairs. */
  lemma BidsFromExact(symbols: seq<Symbol>, n1: seq<nat>, n2: seq<nat>, visit: (nat, nat), limit: nat, x: seq<byte>,
                      sampleFrac: nat, terminator: byte, charSigned: bool)
    requires SymbolArray(symbols) && |n1| == CODES && |n2| == PAIRS
    requires visit.0 < CODES && visit.1 == n1[visit.0]
    ensures GainOf(BidsFrom(symbols, visit, n2, limit, sampleFrac, terminator, charSigned), x, sampleFrac)
              == OwnGain(symbols, n1, visit.0, x, sampleFrac)
                 + CodeGain(symbols, n2, visit.0, limit, x, sampleFrac, terminator, charSigned)
  {
    hide SymbolArray, GainOf, PairBids, RowGains, Sum, Scanned;
    var i := visit.0;
    SymbolArrayAt(symbols, i);
    var b := SingleBid(symbols, visit);
    OneBidExact(b, x, sampleFrac);
    if Extensible(symbols[i].bytes, sampleFrac, terminator, charSigned) {
      var row := RowVisits(n2, i, limit);
      ScannedFaithful(Row(n2, i), true, limit);
      PairBidsGain(symbols, n2, i, row, x, sampleFrac, terminator, charSigned);
      GainAppend([b], PairBids(symbols, i, row, terminator, charSigned), x, sampleFrac);
    } else {
      assert [b] + [] == [b];
    }
  }

  lemma {:induction false} BidsExact(symbols: seq<Symbol>, n1: seq<nat>, n2: seq<nat>, v: Visits, limit: nat,
                                     x: seq<byte>, sampleFrac: nat, terminator: byte, charSigned: bool)
    requires SymbolArray(symbols) && |n1| == CODES && |n2| == PAIRS && Positions(v) && Faithful(v, n1)
    ensures GainOf(Bids(symbols, v, n2, limit, sampleFrac, terminator, charSigned), x, sampleFrac)
              == Sum(OwnGains(symbols, n1, v, x, sampleFrac))
                 + Sum(JoinGains(symbols, n2, limit, v, x, sampleFrac, terminator, charSigned))
    decreases |v|
  {
    hide SymbolArray, GainOf, Sum, In, BidsFrom, CodeGain, OwnGain;
    var own, join := OwnGains(symbols, n1, v, x, sampleFrac),
                     JoinGains(symbols, n2, limit, v, x, sampleFrac, terminator, charSigned);
    if v == [] {
      NothingGained(x, sampleFrac);
      forall i | 0 <= i < CODES ensures own[i] == 0 && join[i] == 0 {
        NoneIn(i);
      }
      SumZeros(own);
      SumZeros(join);
    } else {
      var init, last := v[..|v| - 1], v[|v| - 1];
      InInit(v, n1);
      BidsExact(symbols, n1, n2, init, limit, x, sampleFrac, terminator, charSigned);
      BidsFromExact(symbols, n1, n2, last, limit, x, sampleFrac, terminator, charSigned);
      GainAppend(Bids(symbols, init, n2, limit, sampleFrac, terminator, charSigned),
                 BidsFrom(symbols, last, n2, limit, sampleFrac, terminator, charSigned), x, sampleFrac);
      var own0, join0 := OwnGains(symbols, n1, init, x, sampleFrac),
                         JoinGains(symbols, n2, limit, init, x, sampleFrac, terminator, charSigned);
      var a, b := OwnGain(symbols, n1, last.0, x, sampleFrac),
                  CodeGain(symbols, n2, last.0, limit, x, sampleFrac, terminator, charSigned);
      assert own == own0[last.0 := a] && join == join0[last.0 := b];
      SumUpdate(own0, last.0, a);
      SumUpdate(join0, last.0, b);
    }
  }

  /** What the reported pairs that start with code `i` add. */
  function RowGain(symbols: seq<Symbol>, n2: seq<nat>, limit: nat, i: nat, x: seq<byte>, sampleFrac: nat,
                   terminator: byte, charSigned: bool): (n: nat)
    requires SymbolArray(symbols) && |n2| == PAIRS && i < CODES
  {
    Sum(seq(CODES, j requires 0 <= j < CODES =>
      if Reported(Row(n2, i), true, limit, j)
      then JoinGain(symbols, n2, i, j, x, sampleFrac, terminator, charSigned) else 0))
  }

  /** The gain of `x`: the sum over all reported codes of what they add by themselves, and
      over all reported pairs with an extensible first code of what those add. */
  function Gain(symbols: seq<Symbol>, n1: seq<nat>, n2: seq<nat>, limit: nat, x: seq<byte>, sampleFrac: nat,
                terminator: byte, charSigned: bool): (n: nat)
    requires SymbolArray(symbols) && |n1| == CODES && |n2| == PAIRS
  {
    Sum(seq(CODES, i requires 0 <= i < CODES =>
      if Reported(n1, false, limit, i) then OwnGain(symbols, n1, i, x, sampleFrac) else 0))
    + Sum(seq(CODES, i requires 0 <= i < CODES =>
        if Reported(n1, false, limit, i) && Extensible(symbols[i].bytes, sampleFrac, terminator, charSigned)
        then RowGain(symbols, n2, limit, i, x, sampleFrac, terminator, charSigned) else 0))
  }

  lemma CodeGainIs(symbols: seq<Symbol>, n2: seq<nat>, i: nat, limit: nat, x: seq<byte>, sampleFrac: nat,
                   terminator: byte, charSigned: bool)
    requires SymbolArray(symbols) && |n2| == PAIRS && i < CODES
    ensures CodeGain(symbols, n2, i, limit, x, sampleFrac, terminator, charSigned) ==
      if Extensible(symbols[i].bytes, sampleFrac, terminator, charSigned)
      then RowGain(symbols, n2, limit, i, x, sampleFrac, terminator, charSigned) else 0
  {
    hide SymbolArray, Sum, In, Reported, Row, JoinGain, Scanned, Extensible;
    SymbolArrayAt(symbols, i);
    forall j: nat ensures In(RowVisits(n2, i, limit), j) <==> Reported(Row(n2, i), true, limit, j) {
      ReportedIff(Row(n2, i), true, limit, j);
    }
    assert RowGains(symbols, n2, i, RowVisits(n2, i, limit), x, sampleFrac, terminator, charSigned) ==
      seq(CODES, j requires 0 <= j < CODES =>
        if Reported(Row(n2, i), true, limit, j)
        then JoinGain(symbols, n2, i, j, x, sampleFrac, terminator, charSigned) else 0);
  }

  /** The bids of a round add up to the gain. */
  lemma GainIs(symbols: seq<Symbol>, n1: seq<nat>, n2: seq<nat>, limit: nat, x: seq<byte>, sampleFrac: nat,
               terminator: byte, charSigned: bool)
    requires SymbolArray(symbols) && |n1| == CODES && |n2| == PAIRS && Positions(Scanned(n1, false, 0, limit))
    ensures GainOf(Bids(symbols, Scanned(n1, false, 0, limit), n2, limit, sampleFrac, terminator, charSigned),
                   x, sampleFrac)
              == Gain(symbols, n1, n2, limit, x, sampleFrac, terminator, charSigned)
  {
    hide SymbolArray, Sum, In, Reported, OwnGain, CodeGain, RowGain, Scanned, Bids, GainOf, Extensible;
    var v := Scanned(n1, false, 0, limit);
    ScannedFaithful(n1, false, limit);
    BidsExact(symbols, n1, n2, v, limit, x, sampleFrac, terminator, charSigned);
    forall i: nat ensures In(v, i) <==> Reported(n1, false, limit, i) {
      ReportedIff(n1, false, limit, i);
    }
    SymbolArrayAt(symbols, CODES - 1);
    forall i | 0 <= i < CODES
      ensures symbols[i].bytes != []
      ensures CodeGain(symbols, n2, i, limit, x, sampleFrac, terminator, charSigned) ==
        if Extensible(symbols[i].bytes, sampleFrac, terminator, charSigned)
        then RowGain(symbols, n2, limit, i, x, sampleFrac, terminator, charSigned) else 0
    {
      SymbolArrayAt(symbols, i);
      CodeGainIs(symbols, n2, i, limit, x, sampleFrac, terminator, charSigned);
    }
    assert OwnGains(symbols, n1, v, x, sampleFrac) ==
      seq(CODES, i requires 0 <= i < CODES =>
        if Reported(n1, false, limit, i) then OwnGain(symbols, n1, i, x, sampleFrac) else 0);
    assert JoinGains(symbols, n2, limit, v, x, sampleFrac, terminator, charSigned) ==
      seq(CODES, i requires 0 <= i < CODES =>
        if Reported(n1, false, limit, i) && Extensible(symbols[i].bytes, sampleFrac, terminator, charSigned)
        then RowGain(symbols, n2, limit, i, x, sampleFrac, terminator, charSigned) else 0);
  }

  /** Every bid was counted. */
  ghost predicate Earnest(bids: seq<Bid>) {
    forall i :: 0 <= i < |bids| ==> bids[i].bytes != [] && bids[i].count > 0
  }

  lemma {:induction false} OfferedGains(bids: seq<Bid>, x: seq<byte>, sampleFrac: nat)
    requires Earnest(bids)
    ensures Offered(bids, x, sampleFrac) <==> GainOf(bids, x, sampleFrac) > 0
  {
    hide Qualifies;
    if bids != [] {
      OfferedNext(bids, sampleFrac);
      OfferedGains(bids[..|bids| - 1], x, sampleFrac);
      var b := bids[|bids| - 1];
      ProductPositive(b.count, |b.bytes|);
    }
  }

  lemma ProductPositive(a: nat, b: nat)
    requires a > 0 && b > 0
    ensures a * b > 0
  {
  }

  lemma {:induction false} PairBidsEarnest(symbols: seq<Symbol>, i: nat, row: Visits, terminator: byte,
                                           charSigned: bool)
    requires SymbolArray(symbols) && i < CODE_MAX && Positions(row)
    requires forall k :: 0 <= k < |row| ==> row[k].1 > 0
    ensures Earnest(PairBids(symbols, i, row, terminator, charSigned))
    decreases |row|
  {
    if row != [] {
      PairBidsEarnest(symbols, i, row[..|row| - 1], terminator, charSigned);
    }
  }

  lemma {:induction false} BidsEarnest(symbols: seq<Symbol>, n2: seq<nat>, v: Visits, limit: nat, sampleFrac: nat,
                                       terminator: byte, charSigned: bool)
    requires SymbolArray(symbols) && |n2| == PAIRS && Positions(v) && forall k :: 0 <= k < |v| ==> v[k].1 > 0
    ensures Earnest(Bids(symbols, v, n2, limit, sampleFrac, terminator, charSigned))
    decreases |v|
  {
    hide PairBids, Scanned, SymbolArray;
    if v != [] {
      var last := v[|v| - 1];
      BidsEarnest(symbols, n2, v[..|v| - 1], limit, sampleFrac, terminator, charSigned);
      SymbolArrayAt(symbols, last.0);
      ScannedFaithful(Row(n2, last.0), true, limit);
      PairBidsEarnest(symbols, last.0, RowVisits(n2, last.0, limit), terminator, charSigned);
    }
  }

  /** The candidates are the symbols with a gain, and their gains are those the symbols and
      the counters give, in 32 bits. */
  ghost predicate GainsRight(cands: Candidates, symbols: seq<Symbol>, n1: seq<nat>, n2: seq<nat>, limit: nat,
                             sampleFrac: nat, terminator: byte, charSigned: bool)
    requires SymbolArray(symbols) && |n1| == CODES && |n2| == PAIRS
  {
    forall x: seq<byte> ::
      && (x in cands <==> Gain(symbols, n1, n2, limit, x, sampleFrac, terminator, charSigned) > 0)
      && (x in cands ==>
            cands[x] == Gain(symbols, n1, n2, limit, x, sampleFrac, terminator, charSigned) % GAIN_RANGE)
  }

  lemma CandidatesRight(symbols: seq<Symbol>, n1: seq<nat>, n2: seq<nat>, limit: nat, sampleFrac: nat,
                        terminator: byte, charSigned: bool)
    requires SymbolArray(symbols) && |n1| == CODES && |n2| == PAIRS && Positions(Scanned(n1, false, 0, limit))
    ensures var bids := Bids(symbols, Scanned(n1, false, 0, limit), n2, limit, sampleFrac, terminator, charSigned);
      GainsRight(CandidatesOf(bids, sampleFrac), symbols, n1, n2, limit, sampleFrac, terminator, charSigned)
  {
    hide SymbolArray, Bids, Gain, GainOf, Scanned, Offered;
    var v := Scanned(n1, false, 0, limit);
    var bids := Bids(symbols, v, n2, limit, sampleFrac, terminator, charSigned);
    ScannedFaithful(n1, false, limit);
    BidsEarnest(symbols, n2, v, limit, sampleFrac, terminator, charSigned);
    var cands := CandidatesOf(bids, sampleFrac);
    forall x: seq<byte>
      ensures x in cands <==> Gain(symbols, n1, n2, limit, x, sampleFrac, terminator, charSigned) > 0
      ensures x in cands ==>
        cands[x] == Gain(symbols, n1, n2, limit, x, sampleFrac, terminator, charSigned) % GAIN_RANGE
    {
      GainIs(symbols, n1, n2, limit, x, sampleFrac, terminator, charSigned);
      OfferedGains(bids, x, sampleFrac);
    }
  }

  lemma CandidatesNext(bids: seq<Bid>, b: Bid, sampleFrac: nat)
    ensures CandidatesOf(bids + [b], sampleFrac) == AddOrInc(CandidatesOf(bids, sampleFrac), b, sampleFrac)
  {
    hide AddOrInc;
    assert (bids + [b])[..|bids|] == bids;
  }

  /** Candidates that extend symbol `pos1`. */
  method ExtendSymbol(symbols: array<Symbol>, pos1: nat, row: Visits, cands0: Candidates, sampleFrac: nat,
                      terminator: byte, charSigned: bool, ghost bids: seq<Bid>)
    returns (cands: Candidates)
    requires symbols.Length == CODE_MAX && SymbolArray(symbols[..]) && pos1 < CODE_MAX && Positions(row)
    requires cands0 == CandidatesOf(bids, sampleFrac)
    ensures cands == CandidatesOf(bids + PairBids(symbols[..], pos1, row, terminator, charSigned), sampleFrac)
  {
    hide AddOrInc, CandidatesOf;
    cands := cands0;
    ghost var all: seq<Symbol>, more := symbols[..], [];
    assert row[..0] == [] && bids + [] == bids;
    for k := 0 to |row|
      invariant more == PairBids(all, pos1, row[..k], terminator, charSigned)
      invariant cands == CandidatesOf(bids + more, sampleFrac)
    {
      var (pos2, cnt2) := row[k];
      var s1, s2 := symbols[pos1].bytes, symbols[pos2].bytes;
      assert row[..k + 1][..k] == row[..k];
      assert s1 == all[pos1].bytes && s2 == all[pos2].bytes;
      if CharValue(s2[0], charSigned) != terminator {
        var b := Bid(Concat(s1, s2), cnt2);
        CandidatesNext(bids + more, b, sampleFrac);
        assert (bids + more) + [b] == bids + (more + [b]);
        cands := AddOrInc(cands, b, sampleFrac);
        more := more + [b];
      }
    }
    assert row[..|row|] == row;
  }

  /** The candidates of a round, for any contents of the counters. */
  method Gather(symbols: array<Symbol>, c: Counters, limit: nat, sampleFrac: nat, terminator: byte, charSigned: bool)
    returns (cands: Candidates)
    requires symbols.Length == CODE_MAX && SymbolArray(symbols[..]) && c.Valid() && limit <= CODES
    ensures Positions(Scanned(Singles(c.mem[..]), false, 0, limit))
    ensures cands == CandidatesOf(Bids(symbols[..], Scanned(Singles(c.mem[..]), false, 0, limit), Pairs(c.mem[..]),
                                       limit, sampleFrac, terminator, charSigned), sampleFrac)
    ensures GainsRight(cands, symbols[..], Singles(c.mem[..]), Pairs(c.mem[..]), limit, sampleFrac,
                       terminator, charSigned)
  {
    hide AddOrInc, CandidatesOf, Singles, Pairs, Scanned, PairBids, SymbolArray, GainsRight;
    ghost var all: seq<Symbol>, n2 := symbols[..], Pairs(c.mem[..]);
    ScannedInRange(Singles(c.mem[..]), false, limit);
    var singles := Visit1(c, limit);
    cands := map[];
    NoBids(sampleFrac);
    assert singles[..0] == [];
    ghost var bids: seq<Bid> := [];
    for k := 0 to |singles|
      invariant bids == Bids(all, singles[..k], n2, limit, sampleFrac, terminator, charSigned)
      invariant cands == CandidatesOf(bids, sampleFrac)
    {
      var visit := singles[k];
      var pos1 := visit.0;
      SymbolArrayAt(all, pos1);
      assert singles[..k + 1][..k] == singles[..k];
      var s1 := symbols[pos1].bytes;
      var b := Bid(s1, if |s1| == 1 then 8 * visit.1 else visit.1);
      CandidatesNext(bids, b, sampleFrac);
      cands := AddOrInc(cands, b, sampleFrac);
      ghost var more := [b];
      if sampleFrac < 128 && |s1| != MAX_LENGTH && CharValue(s1[0], charSigned) != terminator {
        var row := Visit2(c, pos1, limit);
        assert row == RowVisits(n2, pos1, limit);
        cands := ExtendSymbol(symbols, pos1, row, cands, sampleFrac, terminator, charSigned, bids + [b]);
        more := [b] + PairBids(all, pos1, row, terminator, charSigned);
        assert (bids + [b]) + PairBids(all, pos1, row, terminator, charSigned) == bids + more;
      }
      assert more == BidsFrom(all, visit, n2, limit, sampleFrac, terminator, charSigned);
      bids := bids + more;
    }
    assert singles[..|singles|] == singles;
    CandidatesRight(all, Singles(c.mem[..]), n2, limit, sampleFrac, terminator, charSigned);
  }

  lemma NoBids(sampleFrac: nat)
    ensures CandidatesOf([], sampleFrac) == map[]
  {
  }

  // ------------------------------------------------------------ the next table

  /** The queue's order: higher gain first, then the smaller word. */
  predicate Before(cands: Candidates, x: seq<byte>, y: seq<byte>)
    requires x in cands && y in cands
  {
    cands[x] > cands[y] || (cands[x] == cands[y] && Load(x) < Load(y))
  }

  /** A candidate that no other precedes. */
  method Best(cands: Candidates) returns (best: seq<byte>)
    requires cands != map[]
    ensures best in cands && forall y :: y in cands ==>
      cands[y] < cands[best] || (cands[y] == cands[best] && Load(best) <= Load(y))
  {
    hide Load;
    best :| best in cands;
    var rest := cands.Keys;
    while rest != {}
      invariant best in cands && rest <= cands.Keys
      invariant forall y :: y in cands && y !in rest ==> !Before(cands, y, best)
      decreases |rest|
    {
      var y :| y in rest;
      if Before(cands, y, best) {
        best := y;
      }
      rest := rest - {y};
    }
  }

  /** A candidate that found its hash slot held by a symbol it does not precede. */
  ghost predicate Refused(all: Candidates, d: Symbols, x: seq<byte>)
    requires x in all && forall i :: 0 <= i < |d| ==> d[i] in all
  {
    |x| >= 3 && exists i :: 0 <= i < |d| && |d[i]| >= 3 && Slot(Load(d[i])) == Slot(Load(x)) && !Before(all, x, d[i])
  }

  /** Distinct candidates, best first. */
  ghost predicate Ranked(all: Candidates, d: Symbols) {
    && (forall i :: 0 <= i < |d| ==> d[i] in all) && Distinct(d)
    && (forall i, j :: 0 <= i < j < |d| ==> !Before(all, d[j], d[i]))
  }

  /** The order spelled out: gains never rise along the table, and among equal gains the
      words never fall. */
  lemma InOrder(all: Candidates, d: Symbols)
    requires Ranked(all, d)
    ensures forall i, j :: 0 <= i < j < |d| ==>
      all[d[j]] < all[d[i]] || (all[d[j]] == all[d[i]] && Load(d[i]) <= Load(d[j]))
  {
    hide Load;
  }

  /** The state of the selection: what has been taken, and what is still in the queue. */
  ghost predicate Selecting(all: Candidates, left: Candidates, d: Symbols) {
    && Ranked(all, d) && left.Keys <= all.Keys
    && (forall i :: 0 <= i < |d| ==> d[i] !in left)
    && (forall i, y :: 0 <= i < |d| && y in left ==> !Before(all, y, d[i]))
    && (forall x :: x in all ==> x in left || x in d || Refused(all, d, x))
  }

  /** The symbols chosen from all candidates: every candidate is among them, or was refused
      for its hash slot by one that is not worse, or came too late for a full table and
      precedes none of them. */
  ghost predicate Outcome(all: Candidates, d: Symbols) {
    && Ranked(all, d) && |d| <= 255
    && forall x :: x in all ==>
         || x in d || Refused(all, d, x)
         || (|d| == 255 && forall i :: 0 <= i < |d| ==> !Before(all, x, d[i]))
  }

  lemma OutcomeRanked(all: Candidates, d: Symbols)
    requires Outcome(all, d)
    ensures Ranked(all, d)
  {
  }

  lemma RefusedStays(all: Candidates, d: Symbols, x: seq<byte>, y: seq<byte>)
    requires x in all && y in all && (forall i :: 0 <= i < |d| ==> d[i] in all) && Refused(all, d, x)
    ensures Refused(all, d + [y], x)
  {
    hide Before, Slot, Load;
    var i :| 0 <= i < |d| && |d[i]| >= 3 && Slot(Load(d[i])) == Slot(Load(x)) && !Before(all, x, d[i]);
    assert (d + [y])[i] == d[i];
  }

  lemma SelectingTakes(all: Candidates, left: Candidates, d: Symbols, x: seq<byte>)
    requires Selecting(all, left, d) && x in left && forall y :: y in left ==> !Before(all, y, x)
    ensures Selecting(all, left - {x}, d + [x])
  {
    hide Before, Refused;
    forall y | y in all ensures y in left - {x} || y in d + [x] || Refused(all, d + [x], y) {
      if Refused(all, d, y) {
        RefusedStays(all, d, y, x);
      }
    }
  }

  lemma SelectingRefuses(all: Candidates, left: Candidates, d: Symbols, x: seq<byte>)
    requires Selecting(all, left, d) && x in left && SlotHeld(d, x)
    ensures Selecting(all, left - {x}, d)
  {
    hide Before, Slot, Load;
    assert Refused(all, d, x);
  }

  lemma SelectingEnds(all: Candidates, left: Candidates, d: Symbols)
    requires Selecting(all, left, d) && |d| <= 255 && (left == map[] || |d| == 255)
    ensures Outcome(all, d)
  {
    hide Before, Refused, Distinct;
  }

  lemma HealthyAdded(t: Table, x: seq<byte>, terminator: byte, charSigned: bool)
    requires Sized(t) && t.nSymbols < CODE_MAX - CODE_BASE && 1 <= |x| <= 8
    requires Healthy(t.symbols, terminator, charSigned)
    requires FilterExact(terminator, charSigned) ==> SoundSymbol(x, terminator)
    ensures Healthy(Added(t, x).symbols, terminator, charSigned)
  {
    hide SoundSymbol, FilterExact;
  }

  /** Takes candidates from the queue until 255 symbols fit or none is left. */
  method FillTable(st: SymbolTable, all: Candidates, ghost charSigned: bool)
    requires st.Valid() && st.nSymbols == 0 && Healthy(st.symbols[..], st.terminator, charSigned)
    requires forall x :: x in all ==>
      1 <= |x| <= MAX_LENGTH && (FilterExact(st.terminator, charSigned) ==> SoundSymbol(x, st.terminator))
    modifies st`nSymbols, st.shortCodes, st.byteCodes, st.symbols, st.hashTab, st.lenHisto
    ensures st.Valid() && Healthy(st.symbols[..], st.terminator, charSigned)
    ensures Outcome(all, st.Symbols())
    ensures var d := st.Symbols(); forall i, j :: 0 <= i < j < |d| ==>
      all[d[j]] < all[d[i]] || (all[d[j]] == all[d[i]] && Load(d[i]) <= Load(d[j]))
  {
    hide Indexed, SoundSymbol, Healthy, Before, Accepts, Added, Selecting, Outcome, FilterExact, SlotHeld;
    var left := all;
    NothingSelected(all, st.Symbols());
    while st.nSymbols < 255 && left != map[]
      invariant st.Valid() && st.nSymbols <= 255 && Selecting(all, left, st.Symbols())
      invariant forall y :: y in left ==> y in all && left[y] == all[y]
      invariant Healthy(st.symbols[..], st.terminator, charSigned)
      decreases |left|
    {
      var x := Best(left);
      BestOfAll(all, left, x);
      ghost var d, t := st.Symbols(), st.Contents();
      HealthyAdded(t, x, st.terminator, charSigned);
      AcceptsIff(t, d, x);
      var ok := st.Add(x);
      if ok {
        SelectingTakes(all, left, d, x);
        assert st.symbols[..] == Added(t, x).symbols;
      } else {
        SelectingRefuses(all, left, d, x);
        assert st.symbols[..] == t.symbols && st.Symbols() == d;
      }
      SmallerMap(left, x);
      left := left - {x};
    }
    SelectingEnds(all, left, st.Symbols());
    OutcomeRanked(all, st.Symbols());
    InOrder(all, st.Symbols());
  }

  lemma SmallerMap(m: Candidates, x: seq<byte>)
    requires x in m
    ensures |m - {x}| < |m|
  {
    assert m.Keys == (m - {x}).Keys + {x};
    assert |m.Keys| == |m| && |(m - {x}).Keys| == |m - {x}|;
  }

  lemma BestOfAll(all: Candidates, left: Candidates, x: seq<byte>)
    requires x in left && (forall y :: y in left ==> y in all && left[y] == all[y])
    requires forall y :: y in left ==> left[y] < left[x] || (left[y] == left[x] && Load(x) <= Load(y))
    ensures forall y :: y in left ==> !Before(all, y, x)
  {
    hide Load;
  }

  lemma NothingSelected(all: Candidates, d: Symbols)
    requires d == []
    ensures Selecting(all, all, d)
  {
    hide Before, Refused;
  }

  /** The count that makes the terminator the most frequent symbol, as it reads back. */
  const TERMINATOR_COUNT := 65279

  /** The code whose counter it goes to: the terminator's symbol, or its byte before there
      are any symbols. */
  function TerminatorCode(nSymbols: nat, terminator: byte): (code: nat)
    ensures code < CODES && (nSymbols <= CODE_MAX - CODE_BASE ==> code < CODE_BASE + nSymbols)
  {
    if nSymbols > 0 then CODE_BASE else terminator
  }

  /** What the scan of the single counters reports in a round. */
  function RoundVisits(nSymbols: nat, terminator: byte, n1: seq<nat>): (v: Visits)
    requires |n1| == CODES
    ensures Positions(v)
  {
    var counts: seq<nat> := n1[TerminatorCode(nSymbols, terminator) := TERMINATOR_COUNT];
    ScannedInRange(counts, false, CODE_BASE + nSymbols);
    Scanned(counts, false, 0, CODE_BASE + nSymbols)
  }

  /** The bids of a round, from the symbols and what the counters read as. */
  function RoundBids(symbols: seq<Symbol>, nSymbols: nat, n1: seq<nat>, n2: seq<nat>, sampleFrac: nat,
                     terminator: byte, charSigned: bool): (bs: seq<Bid>)
    requires SymbolArray(symbols) && |n1| == CODES && |n2| == PAIRS
  {
    Bids(symbols, RoundVisits(nSymbols, terminator, n1), n2, CODE_BASE + nSymbols, sampleFrac, terminator, charSigned)
  }

  /** The gains of a round: the codes below 256 and the symbols in use count, the symbol at
      the first of these codes, or the terminator's byte if there is none, with 65279. */
  ghost predicate RoundGainsRight(symbols: seq<Symbol>, nSymbols: nat, n1: seq<nat>, n2: seq<nat>, sampleFrac: nat,
                                  terminator: byte, charSigned: bool)
    requires SymbolArray(symbols) && |n1| == CODES && |n2| == PAIRS
  {
    var code: nat := if nSymbols > 0 then 256 else terminator;
    GainsRight(CandidatesOf(RoundBids(symbols, nSymbols, n1, n2, sampleFrac, terminator, charSigned), sampleFrac),
               symbols, n1[code := 65279], n2, 256 + nSymbols, sampleFrac, terminator, charSigned)
  }

  lemma RoundGains(symbols: seq<Symbol>, nSymbols: nat, n1: seq<nat>, n2: seq<nat>, sampleFrac: nat,
                   terminator: byte, charSigned: bool)
    requires SymbolArray(symbols) && |n1| == CODES && |n2| == PAIRS
    ensures RoundGainsRight(symbols, nSymbols, n1, n2, sampleFrac, terminator, charSigned)
  {
    hide SymbolArray, GainsRight, CandidatesOf, Bids, Scanned;
    var counts: seq<nat> := n1[TerminatorCode(nSymbols, terminator) := TERMINATOR_COUNT];
    ScannedInRange(counts, false, CODE_BASE + nSymbols);
    CandidatesRight(symbols, counts, n2, CODE_BASE + nSymbols, sampleFrac, terminator, charSigned);
  }

  lemma CandidatesFit(symbols: seq<Symbol>, nSymbols: nat, n1: seq<nat>, n2: seq<nat>, sampleFrac: nat,
                      terminator: byte, charSigned: bool)
    requires SymbolArray(symbols) && Healthy(symbols, terminator, charSigned) && |n1| == CODES && |n2| == PAIRS
    ensures var bids := RoundBids(symbols, nSymbols, n1, n2, sampleFrac, terminator, charSigned);
      forall x :: x in CandidatesOf(bids, sampleFrac) ==> Fit(symbols, x, terminator, charSigned)
  {
    hide Fit, Healthy, SymbolArray, Qualifies, Bids;
    var bids := RoundBids(symbols, nSymbols, n1, n2, sampleFrac, terminator, charSigned);
    forall x | x in CandidatesOf(bids, sampleFrac) ensures Fit(symbols, x, terminator, charSigned) {
      var i :| 0 <= i < |bids| && bids[i].bytes == x && Qualifies(bids[i], sampleFrac);
      BidsFit(symbols, RoundVisits(nSymbols, terminator, n1), n2, CODE_BASE + nSymbols, sampleFrac,
              terminator, charSigned, i);
    }
  }

  lemma HealthyArray(symbols: seq<Symbol>, terminator: byte, charSigned: bool)
    requires |symbols| == CODE_MAX && Healthy(symbols, terminator, charSigned)
    ensures SymbolArray(symbols)
  {
  }

  /** One round: the next table is the outcome of the selection among the candidates that
      the symbols and the counters determine.  It is again healthy. */
  method MakeTable(st: SymbolTable, c: Counters, sampleFrac: nat, charSigned: bool)
    requires st.Valid() && Healthy(st.symbols[..], st.terminator, charSigned) && c.Valid()
    modifies st`nSymbols, st.shortCodes, st.byteCodes, st.symbols, st.hashTab, st.lenHisto, c.mem
    ensures st.Valid() && st.nSymbols <= 255 && Healthy(st.symbols[..], st.terminator, charSigned)
    ensures SymbolArray(old(st.symbols[..]))
    ensures var bids := RoundBids(old(st.symbols[..]), old(st.nSymbols), old(Singles(c.mem[..])), old(Pairs(c.mem[..])),
                                  sampleFrac, st.terminator, charSigned);
      Outcome(CandidatesOf(bids, sampleFrac), st.Symbols())
    ensures RoundGainsRight(old(st.symbols[..]), old(st.nSymbols), old(Singles(c.mem[..])), old(Pairs(c.mem[..])),
                            sampleFrac, st.terminator, charSigned)
    ensures forall i :: 0 <= i < st.nSymbols ==> Bred(old(st.symbols[..]), st.Symbols()[i])
  {
    hide Indexed, Healthy, Bred, SoundSymbol, FilterExact, Before, CandidatesOf, Bids, SymbolArray, Singles, Pairs,
         Scanned, Refused, GainsRight, RoundGainsRight;
    ghost var symbols: seq<Symbol>, n: nat, n1, n2 := st.symbols[..], st.nSymbols, Singles(c.mem[..]), Pairs(c.mem[..]);
    HealthyArray(symbols, st.terminator, charSigned);
    c.Set1(TerminatorCode(st.nSymbols, st.terminator), 65535);
    assert Singles(c.mem[..]) == n1[TerminatorCode(n, st.terminator) := TERMINATOR_COUNT];
    var cands := Gather(st.symbols, c, CODE_BASE + st.nSymbols, sampleFrac, st.terminator, charSigned);
    ghost var bids := RoundBids(symbols, n, n1, n2, sampleFrac, st.terminator, charSigned);
    CandidatesFit(symbols, n, n1, n2, sampleFrac, st.terminator, charSigned);
    RoundGains(symbols, n, n1, n2, sampleFrac, st.terminator, charSigned);
    st.Clear();
    FillTable(st, cands, charSigned);
  }

  lemma HealthySymbols(st: SymbolTable, charSigned: bool)
    requires st.Valid() && Healthy(st.symbols[..], st.terminator, charSigned) && FilterExact(st.terminator, charSigned)
    ensures Lengths(st.Symbols()) && TerminatorFree(st.Symbols(), st.terminator)
  {
    var d := st.Symbols();
    forall i | 0 <= i < |d| && |d[i]| >= 2 ensures st.terminator !in d[i] {
      assert SoundSymbol(st.symbols[..][CODE_BASE + i].bytes, st.terminator);
    }
  }

  /** A fresh table is healthy, so training can start from it. */
  lemma FreshHealthy(symbols: seq<Symbol>, terminator: byte, charSigned: bool)
    requires forall k :: 0 <= k < |symbols| ==> |symbols[k].bytes| == 1
    ensures Healthy(symbols, terminator, charSigned)
  {
  }
}
