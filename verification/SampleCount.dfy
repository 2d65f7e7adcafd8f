/** One pass over the training sample (`compressCount`): greedy parsing with an inlined
    eight-byte matcher, counting symbols and pairs, and the gain of the table. */
module SampleCount {
  import opened Bytes
  import opened Dictionary
  import opened SymbolTables
  import opened TableUpdates
  import opened TrainingCounters

  /** Bytes a code takes in the output: escapes take two. */
  function CodeSize(code: nat): nat { if code < CODE_BASE then 2 else 1 }

  /** Size of the greedy encoding. */
  function ParsedSize(d: Symbols, s: seq<byte>): nat
    requires Lengths(d)
    decreases |s|
  {
    if s == [] then 0 else CodeSize(CodeFor(d, s)) + ParsedSize(d, s[Step(d, s)..])
  }

  lemma {:induction false} ParsedSizeIsEncodedSize(d: Symbols, s: seq<byte>)
    requires Encodable(d)
    ensures ParsedSize(d, s) == |Encode(d, s)|
    decreases |s|
  {
    if s != [] {
      ParsedSizeIsEncodedSize(d, s[Step(d, s)..]);
    }
  }

  /** The increments the greedy parse of `s` calls for, after code `prev` (-1 at the
      start of a line): each code, its first byte as an alternative, and the pairs of
      neighbours. */
  function Counted(d: Symbols, s: seq<byte>, prev: int, pairs: bool): seq<Event>
    requires Lengths(d)
    decreases |s|
  {
    if s == [] then []
    else
      var c, n := CodeFor(d, s), Step(d, s);
      PairEvents(prev, c, s[0], n, pairs) + SingleEvents(c, s[0], n) + Counted(d, s[n..], c, pairs)
  }

  function SingleEvents(c: nat, first: byte, n: nat): seq<Event> {
    [One(c)] + (if n != 1 then [One(first)] else [])
  }

  function PairEvents(prev: int, c: nat, first: byte, n: nat, pairs: bool): seq<Event> {
    if prev < 0 || !pairs then []
    else [Two(prev, c)] + (if n > 1 then [Two(prev, first)] else [])
  }

  // -------------------------------------------------------- what the events count

  /** One symbol of a parse: where it stands, its length and its code. */
  datatype Token = Token(pos: nat, len: nat, code: nat)

  /** The token is what the dictionary prescribes at its place. */
  predicate TokenAt(d: Symbols, s: seq<byte>, t: Token)
    requires Lengths(d) && t.pos < |s|
  {
    t.code == CodeFor(d, s[t.pos..]) && t.len == Step(d, s[t.pos..])
  }

  /** The greedy parse: from the start to the end of the string, without gaps, each token
      what the dictionary prescribes at its place. */
  ghost predicate IsParse(d: Symbols, s: seq<byte>, ps: seq<Token>)
    requires Lengths(d)
  {
    && (if s == [] then ps == [] else ps != [] && ps[0].pos == 0 && ps[|ps| - 1].pos + ps[|ps| - 1].len == |s|)
    && (forall k :: 0 <= k < |ps| ==> ps[k].pos < |s| && TokenAt(d, s, ps[k]))
    && (forall k, m :: 0 <= k && m == k + 1 < |ps| ==> ps[m].pos == ps[k].pos + ps[k].len)
  }

  /** How many of the numbers below `n` have a property. */
  function CountIf(n: nat, p: nat -> bool): (m: nat) {
    if n == 0 then 0 else CountIf(n - 1, p) + (if p(n - 1) then 1 else 0)
  }

  /** Tokens with code `x`, and tokens of several bytes that start with byte `x`. */
  function SingleTally(s: seq<byte>, ps: seq<Token>, n: nat, x: nat): (m: nat)
    requires n <= |ps| && forall k :: 0 <= k < |ps| ==> ps[k].pos < |s|
  {
    CountIf(n, k => 0 <= k < |ps| && ps[k].code == x)
    + CountIf(n, k => 0 <= k < |ps| && ps[k].len > 1 && s[ps[k].pos] as int == x)
  }

  /** Neighbours with codes `x` and `y`, and tokens with code `x` in front of one of several
      bytes that starts with byte `y`. */
  function PairTally(s: seq<byte>, ps: seq<Token>, n: nat, x: nat, y: nat): (m: nat)
    requires n <= |ps| && forall k :: 0 <= k < |ps| ==> ps[k].pos < |s|
  {
    var pairs := if n == 0 then 0 else n - 1;
    CountIf(pairs, k => 0 <= k < |ps| - 1 && ps[k].code == x && ps[k + 1].code == y)
    + CountIf(pairs, k => 0 <= k < |ps| - 1 && ps[k].code == x && ps[k + 1].len > 1 && s[ps[k + 1].pos] as int == y)
  }

  /** How often the first `n` tokens call for an increment. */
  function ParseTally(s: seq<byte>, ps: seq<Token>, n: nat, pairs: bool, e: Event): (m: nat)
    requires n <= |ps| && forall k :: 0 <= k < |ps| ==> ps[k].pos < |s|
  {
    if e.One? then SingleTally(s, ps, n, e.pos1)
    else if pairs then PairTally(s, ps, n, e.pos1, e.pos2)
    else 0
  }

  lemma {:induction false} TallyConcat(a: seq<Event>, b: seq<Event>, e: Event)
    ensures Tally(a + b, e) == Tally(a, e) + Tally(b, e)
    decreases |b|
  {
    if b == [] {
      assert a + b == a;
    } else {
      TallyConcat(a, b[..|b| - 1], e);
      assert (a + b)[..|a + b| - 1] == a + b[..|b| - 1];
    }
  }

  lemma SingleEventsTally(c: nat, first: byte, n: nat, e: Event)
    requires n >= 1
    ensures Tally(SingleEvents(c, first, n), e) ==
      (if e == One(c) then 1 else 0) + (if n > 1 && e == One(first) then 1 else 0)
  {
    TallyConcat([One(c)], if n != 1 then [One(first)] else [], e);
  }

  lemma PairEventsTally(prev: int, c: nat, first: byte, n: nat, pairs: bool, e: Event)
    ensures Tally(PairEvents(prev, c, first, n, pairs), e) ==
      if prev < 0 || !pairs then 0
      else (if e == Two(prev, c) then 1 else 0) + (if n > 1 && e == Two(prev, first) then 1 else 0)
  {
    if prev >= 0 {
      TallyConcat([Two(prev, c)], if n > 1 then [Two(prev, first)] else [], e);
    }
  }

  /** The code in front of token `k`, and where that token starts. */
  function CodeBefore(ps: seq<Token>, k: nat): (c: int)
    requires k <= |ps|
    ensures c >= -1
  {
    if k == 0 then -1 else ps[k - 1].code
  }

  function StartOf(ps: seq<Token>, k: nat): (p: nat)
    requires k <= |ps|
  {
    if k == 0 then 0 else ps[k - 1].pos + ps[k - 1].len
  }

  /** The events of one token. */
  function TokenEvents(s: seq<byte>, ps: seq<Token>, k: nat, pairs: bool): seq<Event>
    requires k < |ps| && ps[k].pos < |s|
  {
    var t := ps[k];
    PairEvents(CodeBefore(ps, k), t.code, s[t.pos], t.len, pairs) + SingleEvents(t.code, s[t.pos], t.len)
  }

  lemma SingleTallyNext(s: seq<byte>, ps: seq<Token>, n: nat, x: nat)
    requires n < |ps| && forall k :: 0 <= k < |ps| ==> ps[k].pos < |s|
    ensures SingleTally(s, ps, n + 1, x) == SingleTally(s, ps, n, x)
      + (if ps[n].code == x then 1 else 0) + (if ps[n].len > 1 && s[ps[n].pos] as int == x then 1 else 0)
  {
  }

  lemma PairTallyNext(s: seq<byte>, ps: seq<Token>, n: nat, x: nat, y: nat)
    requires n < |ps| && forall k :: 0 <= k < |ps| ==> ps[k].pos < |s|
    ensures PairTally(s, ps, n + 1, x, y) == PairTally(s, ps, n, x, y) +
      if n == 0 || ps[n - 1].code != x then 0
      else (if ps[n].code == y then 1 else 0) + (if ps[n].len > 1 && s[ps[n].pos] as int == y then 1 else 0)
  {
  }

  lemma TokenTally(d: Symbols, s: seq<byte>, ps: seq<Token>, n: nat, pairs: bool, e: Event)
    requires Lengths(d) && IsParse(d, s, ps) && n < |ps|
    ensures ParseTally(s, ps, n + 1, pairs, e) ==
      ParseTally(s, ps, n, pairs, e) + Tally(TokenEvents(s, ps, n, pairs), e)
  {
    hide Tally, SingleEvents, PairEvents, CodeFor, Step, SingleTally, PairTally;
    StepPositive(d, s[ps[n].pos..]);
    if e.One? {
      SingleTallyNext(s, ps, n, e.pos1);
    } else {
      PairTallyNext(s, ps, n, e.pos1, e.pos2);
    }
    var t := ps[n];
    var prev := CodeBefore(ps, n);
    TallyConcat(PairEvents(prev, t.code, s[t.pos], t.len, pairs), SingleEvents(t.code, s[t.pos], t.len), e);
    PairEventsTally(prev, t.code, s[t.pos], t.len, pairs, e);
    SingleEventsTally(t.code, s[t.pos], t.len, e);
  }

  lemma StepPositive(d: Symbols, s: seq<byte>)
    requires Lengths(d) && s != []
    ensures Step(d, s) >= 1
  {
  }

  /** Tokens start where the ones before them end. */
  lemma TokenStarts(d: Symbols, s: seq<byte>, ps: seq<Token>, k: nat)
    requires Lengths(d) && IsParse(d, s, ps) && k <= |ps|
    ensures StartOf(ps, k) <= |s| && (k < |ps| ==> ps[k].pos == StartOf(ps, k) < |s|)
    ensures k == |ps| ==> StartOf(ps, k) == |s|
  {
    hide CodeFor, Step;
    if k > 0 {
      StepInside(d, s, ps[k - 1].pos);
    }
  }

  lemma StepInside(d: Symbols, s: seq<byte>, p: nat)
    requires Lengths(d) && p < |s|
    ensures p + Step(d, s[p..]) <= |s|
  {
  }

  /** What the events from token `k` on count is what the tokens from `k` on call for. */
  lemma {:induction false} CountedTally(d: Symbols, s: seq<byte>, ps: seq<Token>, k: nat, pairs: bool, e: Event)
    requires Lengths(d) && IsParse(d, s, ps) && k <= |ps| && StartOf(ps, k) <= |s|
    ensures ParseTally(s, ps, k, pairs, e) + Tally(Counted(d, s[StartOf(ps, k)..], CodeBefore(ps, k), pairs), e)
              == ParseTally(s, ps, |ps|, pairs, e)
    decreases |ps| - k
  {
    hide Tally, IsParse, ParseTally, CodeFor, Step, SingleEvents, PairEvents;
    TokenStarts(d, s, ps, k);
    ParsePositions(d, s, ps);
    var rest := s[StartOf(ps, k)..];
    if k == |ps| {
      TallyNothing(e);
    } else {
      TokenStarts(d, s, ps, k + 1);
      TokenIs(d, s, ps, k);
      TokenTally(d, s, ps, k, pairs, e);
      CountedTally(d, s, ps, k + 1, pairs, e);
      var t := ps[k];
      assert rest[t.len..] == s[StartOf(ps, k + 1)..] && rest[0] == s[t.pos];
      TallyConcat(TokenEvents(s, ps, k, pairs), Counted(d, s[StartOf(ps, k + 1)..], t.code, pairs), e);
    }
  }

  lemma ParsePositions(d: Symbols, s: seq<byte>, ps: seq<Token>)
    requires Lengths(d) && IsParse(d, s, ps)
    ensures forall k :: 0 <= k < |ps| ==> ps[k].pos < |s|
  {
  }

  lemma TokenIs(d: Symbols, s: seq<byte>, ps: seq<Token>, k: nat)
    requires Lengths(d) && IsParse(d, s, ps) && k < |ps|
    ensures ps[k].pos < |s| && ps[k].code == CodeFor(d, s[ps[k].pos..]) && ps[k].len == Step(d, s[ps[k].pos..])
  {
  }

  lemma TallyNothing(e: Event)
    ensures Tally([], e) == 0
  {
  }

  /** The increments of a line, in terms of its greedy parse: a code is counted for each of
      its tokens, a byte also for each token of several bytes that starts with it, and pairs
      accordingly, in the order of the text. */
  lemma LineTally(d: Symbols, s: seq<byte>, ps: seq<Token>, pairs: bool, e: Event)
    requires Lengths(d) && IsParse(d, s, ps)
    ensures forall k :: 0 <= k < |ps| ==> ps[k].pos < |s|
    ensures Tally(Counted(d, s, -1, pairs), e) == ParseTally(s, ps, |ps|, pairs, e)
  {
    ParsePositions(d, s, ps);
    assert s[0..] == s;
    CountedTally(d, s, ps, 0, pairs, e);
  }

  /** The greedy parse from `p` on. */
  function ParseFrom(d: Symbols, s: seq<byte>, p: nat): (ps: seq<Token>)
    requires Lengths(d) && p <= |s|
    ensures ps == [] <==> p == |s|
    ensures ps != [] ==> ps[0].pos == p && ps[|ps| - 1].pos + ps[|ps| - 1].len == |s|
    ensures forall k :: 0 <= k < |ps| ==> ps[k].pos < |s| && TokenAt(d, s, ps[k])
    ensures forall k, m :: 0 <= k && m == k + 1 < |ps| ==> ps[m].pos == ps[k].pos + ps[k].len
    decreases |s| - p
  {
    if p == |s| then []
    else
      var n := Step(d, s[p..]);
      [Token(p, n, CodeFor(d, s[p..]))] + ParseFrom(d, s, p + n)
  }

  /** Every string has a greedy parse. */
  function Parse(d: Symbols, s: seq<byte>): (ps: seq<Token>)
    requires Lengths(d)
    ensures IsParse(d, s, ps)
  {
    ParseFrom(d, s, 0)
  }

  /** How often the parse of a line calls for an increment. */
  function LineCounts(d: Symbols, s: seq<byte>, pairs: bool, e: Event): (n: nat)
    requires Lengths(d)
  {
    ParsePositions(d, s, Parse(d, s));
    ParseTally(s, Parse(d, s), |Parse(d, s)|, pairs, e)
  }

  /** How often the parses of the visited lines do. */
  function SampleCounts(d: Symbols, lines: seq<seq<byte>>, visit: nat -> bool, pairs: bool, n: nat, e: Event): (m: nat)
    requires Lengths(d) && n <= |lines|
  {
    if n == 0 then 0
    else
      SampleCounts(d, lines, visit, pairs, n - 1, e)
      + (if visit(n - 1) then LineCounts(d, lines[n - 1], pairs, e) else 0)
  }

  lemma {:induction false} SampleTally(d: Symbols, lines: seq<seq<byte>>, visit: nat -> bool, pairs: bool, n: nat,
                                       e: Event)
    requires Lengths(d) && n <= |lines|
    ensures Tally(TotalEvents(d, lines, visit, pairs, n), e) == SampleCounts(d, lines, visit, pairs, n, e)
    decreases n
  {
    hide Counted, Tally, LineCounts, Lengths;
    if n == 0 {
      TallyNothing(e);
    } else {
      SampleTally(d, lines, visit, pairs, n - 1, e);
      LineCountsAre(d, lines[n - 1], pairs, e);
      TallyConcat(TotalEvents(d, lines, visit, pairs, n - 1),
                  if visit(n - 1) then Counted(d, lines[n - 1], -1, pairs) else [], e);
      TallyNothing(e);
    }
  }

  lemma LineCountsAre(d: Symbols, s: seq<byte>, pairs: bool, e: Event)
    requires Lengths(d)
    ensures Tally(Counted(d, s, -1, pairs), e) == LineCounts(d, s, pairs, e)
  {
    LineTally(d, s, Parse(d, s), pairs, e);
  }

  /** The symbol a code stands for has the length of the greedy step. */
  lemma CodeLength(t: Table, d: Symbols, s: seq<byte>)
    requires Indexed(t, d) && s != []
    ensures CodeFor(d, s) < CODE_MAX && |t.symbols[CodeFor(d, s)].bytes| == Step(d, s)
  {
    hide BytesIndexed, PairsIndexed, Hashed;
  }

  /** `findLongestSymbol` on the rest of a line. */
  method FindLongest(st: SymbolTable, w: seq<byte>) returns (code: nat)
    requires st.Valid() && 1 <= |w| <= 8
    ensures code == FindLongestSymbol(st.Contents(), w)
  {
    hide Load, Slot, Indexed;
    var bucket := st.hashTab[Slot(Load(w))];
    if BucketHit(bucket, w) {
      return BucketCode(bucket);
    }
    if |w| >= 2 {
      code := Code(st.shortCodes[Pair(w[0], w[1])]);
      if code >= CODE_BASE {
        return;
      }
    }
    code := Code(st.byteCodes[w[0]]);
  }

  /** Length field of a bucket; a free one has all four bits set. */
  function BucketLength(bucket: Bucket): nat {
    if bucket.Taken? then |bucket.symbol.bytes| else 15
  }

  /** What the inlined matcher chooses for an eight-byte word. */
  function WordMatch(t: Table, w: seq<byte>): (m: (nat, nat))
    requires Sized(t) && |w| == 8
  {
    var bucket := t.hashTab[Slot(Load(w))];
    var short := Code(t.shortCodes[Pair(w[0], w[1])]);
    if bucket.Icl() < ICL_FREE && bucket.WordMatches(Load(w)) then
      (BucketCode(bucket), BucketLength(bucket))
    else if short >= CODE_BASE then (short, 2)
    else (Code(t.byteCodes[w[0]]), 1)
  }

  lemma PairLength(t: Table, d: Symbols, w: seq<byte>)
    requires Indexed(t, d) && |w| == 8 && Code(t.shortCodes[Pair(w[0], w[1])]) >= CODE_BASE
    requires CodeFor(d, w) == Code(t.shortCodes[Pair(w[0], w[1])])
    ensures Step(d, w) == 2
  {
    hide BytesIndexed, Hashed;
    assert t.shortCodes[Pair(w[0], w[1])] == ShortEntry(d, w[0], w[1]);
  }

  /** The inlined matcher picks the code of `findLongestSymbol`, with its length. */
  lemma WordMatchCorrect(t: Table, d: Symbols, rest: seq<byte>)
    requires Indexed(t, d) && |rest| >= 8
    ensures WordMatch(t, rest[..8]) == (CodeFor(d, rest), Step(d, rest))
    ensures WordMatch(t, rest[..8]).0 == FindLongestSymbol(t, rest[..8])
  {
    hide BytesIndexed, PairsIndexed, Hashed, Load, Slot, Longest;
    var w := rest[..8];
    FindLongestSymbolCorrect(t, d, rest);
    SameStep(d, rest);
    var h := Slot(Load(w));
    var bucket := t.hashTab[h];
    BucketInTable(t, d, h);
    IclOrder(bucket, w);
    if !BucketHit(bucket, w) && Code(t.shortCodes[Pair(w[0], w[1])]) >= CODE_BASE {
      PairLength(t, d, w);
    } else if !BucketHit(bucket, w) {
      ByteLength(t, d, w);
    }
  }

  lemma BucketInTable(t: Table, d: Symbols, h: nat)
    requires Indexed(t, d) && h < HASH_SIZE
    ensures t.hashTab[h].Taken? ==>
      var x := t.hashTab[h].symbol;
      CODE_BASE <= x.code < CODE_BASE + |d| && x.bytes == d[x.code - CODE_BASE] && 1 <= |x.bytes| <= 8
  {
    hide BytesIndexed, PairsIndexed, Slot, Load;
    assert BucketOk(d, CODE_BASE, h, t.hashTab[h]);
  }

  lemma SameStep(d: Symbols, rest: seq<byte>)
    requires Lengths(d) && |rest| >= 8
    ensures Longest(d, rest[..8]) == Longest(d, rest)
    ensures CodeFor(d, rest[..8]) == CodeFor(d, rest) && Step(d, rest[..8]) == Step(d, rest)
  {
    forall j | 0 <= j < |d| ensures d[j] <= rest[..8] <==> d[j] <= rest {
    }
    LongestSamePrefixes(d, rest[..8], rest);
  }

  lemma ByteLength(t: Table, d: Symbols, w: seq<byte>)
    requires Indexed(t, d) && |w| == 8 && CodeFor(d, w) == Code(t.byteCodes[w[0]])
    ensures Step(d, w) == 1
  {
    hide PairsIndexed, Hashed;
    assert t.byteCodes[w[0]] == ByteEntry(d, w[0]);
  }

  method MatchWord(st: SymbolTable, w: seq<byte>) returns (code: nat, n: nat)
    requires st.Valid() && |w| == 8
    ensures (code, n) == WordMatch(st.Contents(), w)
  {
    hide Load, Slot, Indexed;
    var bucket := st.hashTab[Slot(Load(w))];
    code := Code(st.shortCodes[Pair(w[0], w[1])]);
    if bucket.Icl() < ICL_FREE && bucket.WordMatches(Load(w)) {
      code, n := BucketCode(bucket), BucketLength(bucket);
    } else if code >= CODE_BASE {
      n := 2;
    } else {
      code, n := Code(st.byteCodes[w[0]]), 1;
    }
  }

  /** The next symbol of the line by the general lookup. */
  method FindSymbol(st: SymbolTable, line: seq<byte>, cur: nat) returns (code: nat, n: nat)
    requires st.Valid() && cur < |line|
    ensures code == CodeFor(st.Symbols(), line[cur..]) && n == Step(st.Symbols(), line[cur..])
  {
    hide Indexed, CodeFor, Step, FindLongestSymbol, Lengths;
    ghost var t, d, rest := st.Contents(), st.Symbols(), line[cur..];
    FindLongestSymbolCorrect(t, d, rest);
    CodeLength(t, d, rest);
    assert rest[..Min(8, |rest|)] == line[cur..Min(cur + 8, |line|)];
    code := FindLongest(st, line[cur..Min(cur + 8, |line|)]);
    n := |st.symbols[code].bytes|;
  }

  /** The next symbol of the line: matched in one word where eight bytes remain. */
  method NextSymbol(st: SymbolTable, line: seq<byte>, cur: nat) returns (code: nat, n: nat)
    requires st.Valid() && cur < |line|
    ensures code == CodeFor(st.Symbols(), line[cur..]) && n == Step(st.Symbols(), line[cur..])
  {
    hide Indexed, CodeFor, Step, WordMatch, Lengths;
    if cur + 7 < |line| {
      ghost var rest := line[cur..];
      WordMatchCorrect(st.Contents(), st.Symbols(), rest);
      assert rest[..8] == line[cur..cur + 8];
      code, n := MatchWord(st, line[cur..cur + 8]);
    } else {
      code, n := FindSymbol(st, line, cur);
    }
  }

  // ------------------------------------------------------------------- the pass

  /** Code `code` covers `line[start..cur]`; the increments before it are in `events`,
      and the gain includes it. */
  ghost predicate Underway(d: Symbols, line: seq<byte>, pairs: bool, start: nat, cur: nat, code: nat, gain: int,
                           events: seq<Event>)
    requires Lengths(d)
  {
    && start < cur <= |line|
    && gain == cur - ParsedSize(d, line) + ParsedSize(d, line[cur..])
    && events + SingleEvents(code, line[start], cur - start) + Counted(d, line[cur..], code, pairs)
       == Counted(d, line, -1, pairs)
  }

  lemma Starts(d: Symbols, line: seq<byte>, pairs: bool)
    requires Lengths(d) && line != []
    ensures var c, n := CodeFor(d, line), Step(d, line);
      Underway(d, line, pairs, 0, n, c, n - CodeSize(c), [])
  {
  }

  lemma Regroup(a: seq<Event>, b: seq<Event>, c: seq<Event>, e: seq<Event>, f: seq<Event>)
    ensures ((a + b) + c) + e + f == a + b + (c + e + f)
  {
  }

  lemma RestOfRest(line: seq<byte>, cur: nat, n: nat)
    requires cur + n <= |line|
    ensures line[cur..][n..] == line[cur + n..]
  {
  }

  /** One more symbol. */
  lemma Moves(d: Symbols, line: seq<byte>, pairs: bool, start: nat, cur: nat, code: nat, gain: int, events: seq<Event>)
    requires Lengths(d) && Underway(d, line, pairs, start, cur, code, gain, events) && cur < |line|
    ensures var c, n := CodeFor(d, line[cur..]), Step(d, line[cur..]);
      Underway(d, line, pairs, cur, cur + n, c, gain + n - CodeSize(c),
               (events + SingleEvents(code, line[start], cur - start)) + PairEvents(code, c, line[cur], n, pairs))
  {
    hide SingleEvents, PairEvents, CodeFor, Step, CodeSize, Lengths;
    var rest := line[cur..];
    var c, n := CodeFor(d, rest), Step(d, rest);
    RestOfRest(line, cur, n);
    assert rest[0] == line[cur];
    Regroup(events, SingleEvents(code, line[start], cur - start), PairEvents(code, c, line[cur], n, pairs),
            SingleEvents(c, line[cur], n), Counted(d, line[cur + n..], c, pairs));
  }

  lemma Ends(d: Symbols, line: seq<byte>, pairs: bool, start: nat, code: nat, gain: int, events: seq<Event>)
    requires Lengths(d) && Underway(d, line, pairs, start, |line|, code, gain, events)
    ensures gain == |line| - ParsedSize(d, line)
    ensures events + SingleEvents(code, line[start], |line| - start) == Counted(d, line, -1, pairs)
  {
    assert line[|line|..] == [];
    assert Counted(d, [], code, pairs) == [] && ParsedSize(d, []) == 0;
    assert events + SingleEvents(code, line[start], |line| - start) + []
        == events + SingleEvents(code, line[start], |line| - start);
  }

  /** Codes fit the counters. */
  lemma CodeInRange(d: Symbols, s: seq<byte>)
    requires s != [] && |d| <= CODE_MAX - CODE_BASE
    ensures CodeFor(d, s) < CODES
  {
  }

  /** Counts one symbol of the parse. */
  method CountSymbol(c: Counters, code: nat, first: byte, n: nat, ghost mem0: Memory, ghost events0: seq<Event>)
    returns (ghost events: seq<Event>)
    requires c.Valid() && code < CODES && AllInRange(events0) && c.mem[..] == AfterEvents(mem0, events0)
    modifies c.mem
    ensures events == events0 + SingleEvents(code, first, n)
    ensures AllInRange(events) && c.mem[..] == AfterEvents(mem0, events)
  {
    hide AfterEvents;
    Count(c, One(code), mem0, events0);
    events := events0 + [One(code)];
    if n != 1 {
      Count(c, One(first), mem0, events);
      events := events + [One(first)];
    }
    assert events == events0 + SingleEvents(code, first, n);
  }

  /** Counts a symbol as the extension of the one before it. */
  method CountPair(c: Counters, code1: nat, code2: nat, first: byte, n: nat, pairs: bool,
                   ghost mem0: Memory, ghost events0: seq<Event>)
    returns (ghost events: seq<Event>)
    requires c.Valid() && code1 < CODES && code2 < CODES
    requires AllInRange(events0) && c.mem[..] == AfterEvents(mem0, events0)
    modifies c.mem
    ensures events == events0 + PairEvents(code1, code2, first, n, pairs)
    ensures AllInRange(events) && c.mem[..] == AfterEvents(mem0, events)
  {
    hide AfterEvents;
    events := events0;
    if pairs {
      Count(c, Two(code1, code2), mem0, events);
      events := events + [Two(code1, code2)];
      if n > 1 {
        Count(c, Two(code1, first), mem0, events);
        events := events + [Two(code1, first)];
      }
    }
    assert events == events0 + PairEvents(code1, code2, first, n, pairs);
  }

  /** Parses one sample line: its gain, and the increments in the order they happen. */
  method CountLine(st: SymbolTable, line: seq<byte>, pairs: bool, c: Counters, ghost mem0: Memory,
                   ghost events0: seq<Event>)
    returns (gain: int, ghost events: seq<Event>)
    requires st.Valid() && c.Valid()
    requires AllInRange(events0) && c.mem[..] == AfterEvents(mem0, events0)
    modifies c.mem
    ensures st.Valid() && Lengths(st.Symbols())
    ensures gain == |line| - ParsedSize(st.Symbols(), line)
    ensures events == events0 + Counted(st.Symbols(), line, -1, pairs)
    ensures forall e :: Tally(events, e) == Tally(events0, e) + LineCounts(st.Symbols(), line, pairs, e)
    ensures AllInRange(events) && c.mem[..] == AfterEvents(mem0, events)
  {
    hide Underway, Indexed, Lengths, CodeFor, Step, CodeSize, AfterEvents, SingleEvents, PairEvents, Counted, Tally,
         LineCounts;
    ValidLengths(st);
    LineAdds(st.Symbols(), line, pairs, events0);
    ghost var d, own := st.Symbols(), [];
    gain, events := 0, events0;
    if line == [] {
      CountedNothing(d, pairs);
      return;
    }
    Starts(d, line, pairs);
    assert line[0..] == line;
    CodeInRange(d, line);
    var start: nat, code1: nat, cur: nat := 0, 0, 0;
    code1, cur := FindSymbol(st, line, 0);
    gain := cur - CodeSize(code1);
    UnderwayBounds(d, line, pairs, start, cur, code1, gain, own);
    while true
      invariant st.Valid() && st.Symbols() == d && code1 < CODES
      invariant Underway(d, line, pairs, start, cur, code1, gain, own) && start < cur <= |line|
      invariant events == events0 + own && AllInRange(events) && c.mem[..] == AfterEvents(mem0, events)
      decreases |line| - cur
    {
      events := CountSymbol(c, code1, line[start], cur - start, mem0, events);
      ghost var singles := SingleEvents(code1, line[start], cur - start);
      assert events == events0 + (own + singles);
      if cur == |line| {
        Ends(d, line, pairs, start, code1, gain, own);
        return;
      }
      Moves(d, line, pairs, start, cur, code1, gain, own);
      CodeInRange(d, line[cur..]);
      var code2, n := NextSymbol(st, line, cur);
      gain := gain + n - CodeSize(code2);
      events := CountPair(c, code1, code2, line[cur], n, pairs, mem0, events);
      ghost var couples := PairEvents(code1, code2, line[cur], n, pairs);
      assert events == events0 + ((own + singles) + couples);
      own := (own + singles) + couples;
      start, cur, code1 := cur, cur + n, code2;
      UnderwayBounds(d, line, pairs, start, cur, code1, gain, own);
    }
  }

  lemma LineAdds(d: Symbols, line: seq<byte>, pairs: bool, events: seq<Event>)
    requires Lengths(d)
    ensures forall e ::
      Tally(events + Counted(d, line, -1, pairs), e) == Tally(events, e) + LineCounts(d, line, pairs, e)
  {
    hide Tally, Counted, LineCounts, Lengths;
    forall e
      ensures Tally(events + Counted(d, line, -1, pairs), e) == Tally(events, e) + LineCounts(d, line, pairs, e)
    {
      TallyConcat(events, Counted(d, line, -1, pairs), e);
      LineCountsAre(d, line, pairs, e);
    }
  }

  lemma CountedNothing(d: Symbols, pairs: bool)
    requires Lengths(d)
    ensures Counted(d, [], -1, pairs) == [] && ParsedSize(d, []) == 0
  {
  }

  lemma UnderwayBounds(d: Symbols, line: seq<byte>, pairs: bool, start: nat, cur: nat, code: nat, gain: int,
                       events: seq<Event>)
    requires Lengths(d) && Underway(d, line, pairs, start, cur, code, gain, events)
    ensures start < cur <= |line|
  {
  }

  /** Bytes saved on the visited lines: those the round does not skip. */
  function TotalGain(d: Symbols, lines: seq<seq<byte>>, visit: nat -> bool, n: nat): int
    requires Lengths(d) && n <= |lines|
  {
    if n == 0 then 0
    else TotalGain(d, lines, visit, n - 1) + (if visit(n - 1) then |lines[n - 1]| - ParsedSize(d, lines[n - 1]) else 0)
  }

  function TotalEvents(d: Symbols, lines: seq<seq<byte>>, visit: nat -> bool, pairs: bool, n: nat): seq<Event>
    requires Lengths(d) && n <= |lines|
  {
    if n == 0 then []
    else TotalEvents(d, lines, visit, pairs, n - 1) + (if visit(n - 1) then Counted(d, lines[n - 1], -1, pairs) else [])
  }

  /** Whether a round visits a line: the last round visits all. */
  predicate Visited(sampleFrac: nat, random: nat -> nat, i: nat) {
    sampleFrac >= 128 || random(i) <= sampleFrac
  }

  /** The whole pass over cleared counters.  `random` stands for the per-line random number
      that decides, in the rounds before the last, whether a line is visited. */
  method CompressCount(st: SymbolTable, lines: seq<seq<byte>>, sampleFrac: nat, random: nat -> nat, c: Counters)
    returns (gain: int, ghost events: seq<Event>)
    requires st.Valid() && c.Valid() && c.mem[..] == Cleared()
    modifies c.mem
    ensures st.Valid() && Lengths(st.Symbols())
    ensures var visit := (i: nat) => Visited(sampleFrac, random, i);
      && gain == TotalGain(st.Symbols(), lines, visit, |lines|)
      && events == TotalEvents(st.Symbols(), lines, visit, sampleFrac < 128, |lines|)
      && forall e :: Tally(events, e) == SampleCounts(st.Symbols(), lines, visit, sampleFrac < 128, |lines|, e)
    ensures AllInRange(events) && c.mem[..] == AfterEvents(Cleared(), events)
  {
    hide Indexed, Lengths, AfterEvents, Counted, ParsedSize, SampleCounts, Tally, LineCounts;
    ValidLengths(st);
    ghost var d := st.Symbols();
    ghost var visit := (i: nat) => Visited(sampleFrac, random, i);
    gain, events := 0, [];
    CountedNone();
    for i := 0 to |lines|
      invariant st.Valid() && st.Symbols() == d
      invariant gain == TotalGain(d, lines, visit, i)
      invariant events == TotalEvents(d, lines, visit, sampleFrac < 128, i)
      invariant AllInRange(events) && c.mem[..] == AfterEvents(Cleared(), events)
    {
      if sampleFrac < 128 && random(i) > sampleFrac {
        continue;
      }
      var g;
      g, events := CountLine(st, lines[i], sampleFrac < 128, c, Cleared(), events);
      gain := gain + g;
    }
    forall e ensures Tally(events, e) == SampleCounts(d, lines, visit, sampleFrac < 128, |lines|, e) {
      SampleTally(d, lines, visit, sampleFrac < 128, |lines|, e);
    }
  }

  lemma CountedNone()
    ensures AfterEvents(Cleared(), []) == Cleared()
  {
  }

  /** With an encodable table the gain is the plain difference of sizes: bytes consumed
      minus bytes the encoder would write. */
  lemma {:induction false} GainIsBytesSaved(d: Symbols, lines: seq<seq<byte>>, visit: nat -> bool, n: nat)
    requires Encodable(d) && n <= |lines|
    ensures TotalGain(d, lines, visit, n) == Consumed(lines, visit, n) - Produced(d, lines, visit, n)
  {
    if n > 0 {
      GainIsBytesSaved(d, lines, visit, n - 1);
      ParsedSizeIsEncodedSize(d, lines[n - 1]);
    }
  }

  function Consumed(lines: seq<seq<byte>>, visit: nat -> bool, n: nat): nat
    requires n <= |lines|
  {
    if n == 0 then 0 else Consumed(lines, visit, n - 1) + (if visit(n - 1) then |lines[n - 1]| else 0)
  }

  function Produced(d: Symbols, lines: seq<seq<byte>>, visit: nat -> bool, n: nat): nat
    requires Encodable(d) && n <= |lines|
  {
    if n == 0 then 0 else Produced(d, lines, visit, n - 1) + (if visit(n - 1) then |Encode(d, lines[n - 1])| else 0)
  }

  /** Only codes in use are ever counted, so the counters from there on stay zero. */
  predicate InUse(d: Symbols, e: Event) {
    e.pos1 < CODE_BASE + |d| && (e.Two? ==> e.pos2 < CODE_BASE + |d|)
  }

  lemma {:induction false} CountedInUse(d: Symbols, s: seq<byte>, prev: int, pairs: bool, e: Event)
    requires Lengths(d) && prev < CODE_BASE + |d| && e in Counted(d, s, prev, pairs)
    ensures InUse(d, e)
    decreases |s|
  {
    var c, n := CodeFor(d, s), Step(d, s);
    if e in Counted(d, s[n..], c, pairs) {
      CountedInUse(d, s[n..], c, pairs, e);
    }
  }

  lemma {:induction false} TallyAbsent(events: seq<Event>, e: Event)
    ensures Tally(events, e) > 0 ==> e in events
  {
    if events != [] {
      TallyAbsent(events[..|events| - 1], e);
    }
  }

  lemma {:induction false} OnlyCodesInUse(d: Symbols, lines: seq<seq<byte>>, visit: nat -> bool, pairs: bool,
                                          n: nat, e: Event)
    requires Lengths(d) && n <= |lines| && Tally(TotalEvents(d, lines, visit, pairs, n), e) > 0
    ensures InUse(d, e)
  {
    TallyAbsent(TotalEvents(d, lines, visit, pairs, n), e);
    InEvents(d, lines, visit, pairs, n, e);
  }

  lemma {:induction false} InEvents(d: Symbols, lines: seq<seq<byte>>, visit: nat -> bool, pairs: bool, n: nat,
                                    e: Event)
    requires Lengths(d) && n <= |lines| && e in TotalEvents(d, lines, visit, pairs, n)
    ensures InUse(d, e)
  {
    if n > 0 {
      if e in TotalEvents(d, lines, visit, pairs, n - 1) {
        InEvents(d, lines, visit, pairs, n - 1, e);
      } else {
        CountedInUse(d, lines[n - 1], -1, pairs, e);
      }
    }
  }

  /** The events of a pass are in the range of the counters. */
  lemma EventsInRange(d: Symbols, lines: seq<seq<byte>>, visit: nat -> bool, pairs: bool, n: nat)
    requires Lengths(d) && n <= |lines| && |d| <= CODE_MAX - CODE_BASE
    ensures AllInRange(TotalEvents(d, lines, visit, pairs, n))
  {
    var events := TotalEvents(d, lines, visit, pairs, n);
    forall i | 0 <= i < |events| ensures InRange(events[i]) {
      InEvents(d, lines, visit, pairs, n, events[i]);
    }
  }

  /** The plain counts of all codes, and of all codes behind code `p`. */
  function Tallies1(events: seq<Event>): (n1: seq<nat>)
    ensures |n1| == CODES && forall p :: 0 <= p < CODES ==> n1[p] == Tally(events, One(p))
  {
    seq(CODES, p requires 0 <= p < CODES => Tally(events, One(p)))
  }

  function Tallies2(events: seq<Event>, p: nat): (row: seq<nat>)
    ensures |row| == CODES && forall q :: 0 <= q < CODES ==> row[q] == Tally(events, Two(p, q))
  {
    seq(CODES, q requires 0 <= q < CODES => Tally(events, Two(p, q)))
  }

  /** Counting and scanning put together: if no counter overruns its limit, the loops over
      the counters report exactly the codes, and exactly the pairs, that the pass has met,
      each with the number of times it was met. */
  lemma ScansReportTallies(d: Symbols, lines: seq<seq<byte>>, visit: nat -> bool, pairs: bool)
    requires Lengths(d) && |d| <= CODE_MAX - CODE_BASE
    requires WithinLimits(TotalEvents(d, lines, visit, pairs, |lines|))
    ensures AllInRange(TotalEvents(d, lines, visit, pairs, |lines|))
    ensures var events, limit := TotalEvents(d, lines, visit, pairs, |lines|), CODE_BASE + |d|;
      var mem := AfterEvents(Cleared(), events);
      && Scanned(Singles(mem), false, 0, limit) == NonZero(Tallies1(events), limit)
      && forall p :: 0 <= p < CODES ==>
           Scanned(Row(Pairs(mem), p), true, 0, limit) == NonZero(Tallies2(events, p), limit)
  {
    hide TotalEvents, Scanned, NonZero, AfterEvents, Tally, WithinLimits;
    EventsInRange(d, lines, visit, pairs, |lines|);
    var events, limit := TotalEvents(d, lines, visit, pairs, |lines|), CODE_BASE + |d|;
    var mem := AfterEvents(Cleared(), events);
    EventsTally(events);
    assert Singles(mem) == Tallies1(events);
    forall q | limit <= q < CODES ensures Tally(events, One(q)) == 0 {
      UnusedNotCounted(d, lines, visit, pairs, One(q));
    }
    ScannedExact(Singles(mem), false, limit);
    forall p | 0 <= p < CODES
      ensures Scanned(Row(Pairs(mem), p), true, 0, limit) == NonZero(Tallies2(events, p), limit)
    {
      assert Row(Pairs(mem), p) == Tallies2(events, p);
      forall q | limit <= q < CODES ensures Tally(events, Two(p, q)) == 0 {
        UnusedNotCounted(d, lines, visit, pairs, Two(p, q));
      }
      ScannedExact(Row(Pairs(mem), p), true, limit);
    }
  }

  lemma UnusedNotCounted(d: Symbols, lines: seq<seq<byte>>, visit: nat -> bool, pairs: bool, e: Event)
    requires Lengths(d)
    ensures !InUse(d, e) ==> Tally(TotalEvents(d, lines, visit, pairs, |lines|), e) == 0
  {
    if Tally(TotalEvents(d, lines, visit, pairs, |lines|), e) > 0 {
      OnlyCodesInUse(d, lines, visit, pairs, |lines|, e);
    }
  }

  // -------------------------------------------------------------- how much is counted

  lemma {:induction false} CountedAtMost(d: Symbols, s: seq<byte>, prev: int, pairs: bool)
    requires Lengths(d)
    ensures Ones(Counted(d, s, prev, pairs)) <= |s| && Twos(Counted(d, s, prev, pairs)) <= |s|
    decreases |s|
  {
    if s != [] {
      var c, n := CodeFor(d, s), Step(d, s);
      CountedAtMost(d, s[n..], c, pairs);
      PairCounts(prev, c, s[0], n, pairs);
      SingleCounts(c, s[0], n);
      CountsAppend(PairEvents(prev, c, s[0], n, pairs), SingleEvents(c, s[0], n));
      CountsAppend(PairEvents(prev, c, s[0], n, pairs) + SingleEvents(c, s[0], n), Counted(d, s[n..], c, pairs));
    }
  }

  lemma SingleCounts(c: nat, first: byte, n: nat)
    requires n >= 1
    ensures Ones(SingleEvents(c, first, n)) <= n && Twos(SingleEvents(c, first, n)) == 0
  {
    CountsAppend([One(c)], if n != 1 then [One(first)] else []);
  }

  lemma PairCounts(prev: int, c: nat, first: byte, n: nat, pairs: bool)
    requires n >= 1
    ensures Twos(PairEvents(prev, c, first, n, pairs)) <= n && Ones(PairEvents(prev, c, first, n, pairs)) == 0
  {
    if prev >= 0 {
      CountsAppend([Two(prev, c)], if n > 1 then [Two(prev, first)] else []);
    }
  }

  /** A pass counts at most as many codes, and at most as many pairs, as it reads bytes. */
  lemma {:induction false} EventsAtMost(d: Symbols, lines: seq<seq<byte>>, visit: nat -> bool, pairs: bool, n: nat)
    requires Lengths(d) && n <= |lines|
    ensures Ones(TotalEvents(d, lines, visit, pairs, n)) <= Consumed(lines, visit, n)
    ensures Twos(TotalEvents(d, lines, visit, pairs, n)) <= Consumed(lines, visit, n)
    ensures !pairs ==> Twos(TotalEvents(d, lines, visit, pairs, n)) == 0
    decreases n
  {
    hide Counted;
    if n > 0 {
      EventsAtMost(d, lines, visit, pairs, n - 1);
      CountedAtMost(d, lines[n - 1], -1, pairs);
      if !pairs {
        NoPairs(d, lines[n - 1], -1);
      }
      CountsAppend(TotalEvents(d, lines, visit, pairs, n - 1),
                   if visit(n - 1) then Counted(d, lines[n - 1], -1, pairs) else []);
    }
  }

  lemma {:induction false} NoPairs(d: Symbols, s: seq<byte>, prev: int)
    requires Lengths(d)
    ensures Twos(Counted(d, s, prev, false)) == 0
    decreases |s|
  {
    if s != [] {
      var c, n := CodeFor(d, s), Step(d, s);
      NoPairs(d, s[n..], c);
      SingleCounts(c, s[0], n);
      assert PairEvents(prev, c, s[0], n, false) + SingleEvents(c, s[0], n) == SingleEvents(c, s[0], n);
      CountsAppend(SingleEvents(c, s[0], n), Counted(d, s[n..], c, false));
    }
  }
}
