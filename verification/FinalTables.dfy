/** The finished table, as the compressor and the serializer see it.

    `Final(c, r)` describes a coder whose codes number the symbols `r`; method
    `Finalize` turns a table under construction into such a coder, and
    `FinalizePreservesMeaning` says the symbols chosen do not change. */
module FinalTables {
  import opened Bytes
  import opened Dictionary
  import opened CountingSort
  import opened SymbolTables
  import opened TableUpdates
  import opened Finalizing

  const ESCAPE_ENTRY := LEN_UNIT + 511

  datatype Coder = Coder(
    shortCodes: seq<nat>,
    hashTab: seq<Bucket>,
    lenHisto: seq<nat>,
    nSymbols: nat,
    suffixLim: nat,
    terminator: byte,
    zeroTerminated: bool)

  /** Entry for a two-byte pattern: its own symbol, else that of its first byte,
      else the escape. */
  function PairEntry(r: Symbols, a: byte, b: byte): nat {
    var pair, single := IndexOf(r, [a, b]), IndexOf(r, [a]);
    if pair >= 0 then 2 * LEN_UNIT + pair
    else if single >= 0 then LEN_UNIT + single
    else ESCAPE_ENTRY
  }

  ghost predicate Lookups(c: Coder, r: Symbols) {
    && |c.shortCodes| == 65536
    && (forall a: byte, b: byte :: c.shortCodes[Pair(a, b)] == PairEntry(r, a, b))
    && Hashed(c.hashTab, r, 0)
  }

  /** First code of a single-byte symbol (the kept terminator aside). */
  function ByteLim(histo: seq<nat>, keepFirst: bool, n: nat): int
    requires |histo| == 9
  {
    n + Flag(keepFirst) - histo[0]
  }

  /** Codes are grouped by length, in the order 2 to 8 and then 1. */
  ghost predicate Grouped(r: Symbols, histo: seq<nat>, keepFirst: bool) {
    && |histo| == 9
    && (forall len, i ::
          2 <= len <= 8 && Start(histo, keepFirst, len) <= i < Start(histo, keepFirst, len + 1) && i < |r| ==>
          |r[i]| == len)
    && Start(histo, keepFirst, 9) == ByteLim(histo, keepFirst, |r|) <= |r|
    && (forall i :: Start(histo, keepFirst, 9) <= i < |r| ==> |r[i]| == 1)
    && (keepFirst ==> |r| > 0 && r[0] == [0])
  }

  /** Codes below `suffixLim` are exactly the pairs no longer symbol extends. */
  ghost predicate SuffixSplit(r: Symbols, suffixLim: nat, keepFirst: bool) {
    && Flag(keepFirst) <= suffixLim <= |r|
    && (forall i :: Flag(keepFirst) <= i < suffixLim ==> |r[i]| == 2 && Lone(r, i))
    && (forall i :: suffixLim <= i < |r| && |r[i]| == 2 ==> !Lone(r, i))
  }

  ghost predicate Final(c: Coder, r: Symbols) {
    && Encodable(r) && c.nSymbols == |r|
    && Lookups(c, r)
    && Grouped(r, c.lenHisto, c.zeroTerminated)
    && SuffixSplit(r, c.suffixLim, c.zeroTerminated)
    && (c.zeroTerminated ==> c.terminator == 0)
  }

  lemma FinalEncodable(c: Coder, r: Symbols)
    requires Final(c, r)
    ensures Encodable(r)
  {
  }

  // ------------------------------------------------- the renumbered dictionary

  /** `r` holds the symbols of `d` at their new codes. */
  ghost predicate Renumbered(d: Symbols, keepFirst: bool, r: Symbols) {
    && Lengths(d) && |r| == |d|
    && forall i :: 0 <= i < |d| ==>
         0 <= NewCode(d, keepFirst, i) < |r| && r[NewCode(d, keepFirst, i)] == d[i]
  }

  /** New codes are a bijection: every code below the symbol count is used. */
  lemma NewCodeOnto(d: Symbols, keepFirst: bool, c: nat) returns (i: nat)
    requires Lengths(d) && c < |d|
    ensures i < |d| && NewCode(d, keepFirst, i) == c
  {
    PlacesPermute(Keys(d, keepFirst), OTHER_PAIR);
    i := PermutationOnto(Places(Keys(d, keepFirst), OTHER_PAIR), c);
  }

  lemma RenumberedEncodable(d: Symbols, keepFirst: bool, r: Symbols)
    requires Renumbered(d, keepFirst, r) && Encodable(d)
    ensures Encodable(r)
  {
    forall c | 0 <= c < |r| ensures 1 <= |r[c]| <= MAX_LENGTH {
      var i := NewCodeOnto(d, keepFirst, c);
    }
    forall a, b | 0 <= a < b < |r| ensures r[a] != r[b] {
      var i := NewCodeOnto(d, keepFirst, a);
      var j := NewCodeOnto(d, keepFirst, b);
    }
  }

  /** Looking a symbol up in the renumbered dictionary finds its new code. */
  lemma RenumberedIndexOf(d: Symbols, keepFirst: bool, r: Symbols, x: seq<byte>)
    requires Renumbered(d, keepFirst, r) && Encodable(d)
    ensures IndexOf(r, x) == if IndexOf(d, x) >= 0 then NewCode(d, keepFirst, IndexOf(d, x)) else -1
  {
    RenumberedEncodable(d, keepFirst, r);
    var i, c := IndexOf(d, x), IndexOf(r, x);
    if i >= 0 {
      assert r[NewCode(d, keepFirst, i)] == x;
    } else if c >= 0 {
      var j := NewCodeOnto(d, keepFirst, c);
    }
  }

  /** The choice at any input is the same symbol, under its new code. */
  lemma FinalizePreservesMeaning(d: Symbols, keepFirst: bool, r: Symbols, s: seq<byte>)
    requires Renumbered(d, keepFirst, r) && Encodable(d)
    ensures Longest(d, s) >= 0 <==> Longest(r, s) >= 0
    ensures Longest(d, s) >= 0 ==>
      Longest(r, s) == NewCode(d, keepFirst, Longest(d, s)) && r[Longest(r, s)] == d[Longest(d, s)]
  {
    RenumberedEncodable(d, keepFirst, r);
    var i, c := Longest(d, s), Longest(r, s);
    if i >= 0 {
      assert r[NewCode(d, keepFirst, i)] == d[i];
    }
    if c >= 0 {
      var j := NewCodeOnto(d, keepFirst, c);
      assert d[j] == r[c];
      assert |d[j]| <= |d[i]| && |r[NewCode(d, keepFirst, i)]| <= |r[c]|;
      assert d[i] == d[j];
    }
  }

  // ---------------------------------------------------------- code sections

  /** A code inside a section belongs to a symbol with that section's key. */
  lemma SectionKey(d: Symbols, keepFirst: bool, r: Symbols, c: nat) returns (i: nat)
    requires Renumbered(d, keepFirst, r) && c < |r|
    ensures i < |d| && NewCode(d, keepFirst, i) == c && r[c] == d[i]
    ensures var ks, k := Keys(d, keepFirst), Key(d, keepFirst, i);
      Below(ks, k) <= c < Below(ks, k) + Equal(ks, k)
  {
    i := NewCodeOnto(d, keepFirst, c);
    PlaceInSection(Keys(d, keepFirst), OTHER_PAIR, i);
  }

  /** Sections do not overlap: the bounds of a code decide its key. */
  lemma KeyFromCode(d: Symbols, keepFirst: bool, r: Symbols, c: nat, lo: nat, hi: nat) returns (i: nat)
    requires Renumbered(d, keepFirst, r) && c < |r|
    requires Below(Keys(d, keepFirst), lo) <= c < Below(Keys(d, keepFirst), hi)
    ensures i < |d| && NewCode(d, keepFirst, i) == c && r[c] == d[i]
    ensures lo <= Key(d, keepFirst, i) < hi
  {
    i := SectionKey(d, keepFirst, r, c);
    var ks, k := Keys(d, keepFirst), Key(d, keepFirst, i);
    if k < lo {
      BelowMonotone(ks, k, lo);
    }
    if hi <= k {
      BelowStep(ks, hi, k);
    }
  }

  lemma BelowStep(ks: seq<nat>, k: nat, m: nat)
    requires k <= m
    ensures Below(ks, k) <= Below(ks, m)
  {
    if k < m {
      BelowMonotone(ks, k, m);
    }
  }

  lemma GroupedLength(d: Symbols, keepFirst: bool, r: Symbols, histo: seq<nat>, len: nat, c: nat)
    requires Renumbered(d, keepFirst, r) && (keepFirst ==> |d| > 0 && |d[0]| == 1)
    requires |histo| == 9 && forall l :: 0 <= l < 9 ==> histo[l] == CountLength(d, l + 1)
    requires 2 <= len <= 8 && Start(histo, keepFirst, len) <= c < Start(histo, keepFirst, len + 1) && c < |r|
    ensures |r[c]| == len
  {
    SectionStarts(d, keepFirst, histo);
    var i := KeyFromCode(d, keepFirst, r, c, if len == 2 then LONE_PAIR else len, len + 1);
  }

  lemma GroupedSingle(d: Symbols, keepFirst: bool, r: Symbols, histo: seq<nat>, c: nat)
    requires Renumbered(d, keepFirst, r) && (keepFirst ==> |d| > 0 && |d[0]| == 1)
    requires |histo| == 9 && forall l :: 0 <= l < 9 ==> histo[l] == CountLength(d, l + 1)
    requires Start(histo, keepFirst, 9) <= c < |r|
    ensures |r[c]| == 1
  {
    SectionStarts(d, keepFirst, histo);
    BelowAll(Keys(d, keepFirst), 10);
    var i := KeyFromCode(d, keepFirst, r, c, SINGLE, 10);
  }

  lemma TerminatorKept(d: Symbols, r: Symbols)
    requires Renumbered(d, true, r) && |d| > 0
    ensures r[0] == d[0]
  {
    var ks := Keys(d, true);
    BelowZero(ks);
    assert ks[..0] == [];
    assert NewCode(d, true, 0) == 0;
  }

  lemma RenumberedGrouped(d: Symbols, keepFirst: bool, r: Symbols, histo: seq<nat>)
    requires Renumbered(d, keepFirst, r) && (keepFirst ==> |d| > 0 && d[0] == [0])
    requires |histo| == 9 && forall l :: 0 <= l < 9 ==> histo[l] == CountLength(d, l + 1)
    ensures Grouped(r, histo, keepFirst)
  {
    hide Start, CountLength, NewCode, Keys;
    forall len, i | 2 <= len <= 8 && Start(histo, keepFirst, len) <= i < Start(histo, keepFirst, len + 1) && i < |r|
      ensures |r[i]| == len
    {
      GroupedLength(d, keepFirst, r, histo, len, i);
    }
    forall i | Start(histo, keepFirst, 9) <= i < |r| ensures |r[i]| == 1 {
      GroupedSingle(d, keepFirst, r, histo, i);
    }
    SectionStarts(d, keepFirst, histo);
    if keepFirst {
      TerminatorKept(d, r);
    }
  }

  /** Being extended by another symbol survives the renumbering. */
  lemma RenumberedLone(d: Symbols, keepFirst: bool, r: Symbols, i: nat)
    requires Renumbered(d, keepFirst, r) && i < |d| && |d[i]| == 2
    ensures Lone(d, i) <==> Lone(r, NewCode(d, keepFirst, i))
  {
    var c := NewCode(d, keepFirst, i);
    if Lone(d, i) {
      forall m | 0 <= m < |r| && m != c && |r[m]| > 1 ensures r[m][..2] != r[c] {
        var j := NewCodeOnto(d, keepFirst, m);
        assert d[j] == r[m];
      }
    } else {
      var k :| 0 <= k < |d| && k != i && |d[k]| > 1 && d[k][..2] == d[i];
      PlaceInjective(Keys(d, keepFirst), OTHER_PAIR, i, k);
      assert r[NewCode(d, keepFirst, k)][..2] == r[c];
    }
  }

  lemma SuffixSplitLone(d: Symbols, keepFirst: bool, r: Symbols, c: nat)
    requires Renumbered(d, keepFirst, r) && c < |r|
    requires Below(Keys(d, keepFirst), LONE_PAIR) <= c < Below(Keys(d, keepFirst), OTHER_PAIR)
    ensures |r[c]| == 2 && Lone(r, c)
  {
    var i := KeyFromCode(d, keepFirst, r, c, LONE_PAIR, OTHER_PAIR);
    RenumberedLone(d, keepFirst, r, i);
  }

  lemma SuffixSplitOther(d: Symbols, keepFirst: bool, r: Symbols, c: nat)
    requires Renumbered(d, keepFirst, r) && (keepFirst ==> |d| > 0 && |d[0]| == 1)
    requires Below(Keys(d, keepFirst), OTHER_PAIR) <= c < |r| && |r[c]| == 2
    ensures !Lone(r, c)
  {
    BelowAll(Keys(d, keepFirst), 10);
    var i := KeyFromCode(d, keepFirst, r, c, OTHER_PAIR, 10);
    RenumberedLone(d, keepFirst, r, i);
  }

  lemma FirstSection(d: Symbols, keepFirst: bool)
    requires Lengths(d) && (keepFirst ==> |d| > 0 && |d[0]| == 1)
    ensures Below(Keys(d, keepFirst), LONE_PAIR) == Flag(keepFirst) <= Below(Keys(d, keepFirst), OTHER_PAIR)
  {
    var ks := Keys(d, keepFirst);
    KeyCounts(d, keepFirst);
    assert ks[..|d|] == ks;
    BelowZero(ks);
    BelowNext(ks, 0);
    BelowNext(ks, 1);
  }

  lemma RenumberedSuffixSplit(d: Symbols, keepFirst: bool, r: Symbols, suffixLim: nat)
    requires Renumbered(d, keepFirst, r) && (keepFirst ==> |d| > 0 && d[0] == [0])
    requires suffixLim == Below(Keys(d, keepFirst), OTHER_PAIR)
    ensures SuffixSplit(r, suffixLim, keepFirst)
  {
    FirstSection(d, keepFirst);
    forall c | Flag(keepFirst) <= c < suffixLim ensures |r[c]| == 2 && Lone(r, c) {
      SuffixSplitLone(d, keepFirst, r, c);
    }
    forall c | suffixLim <= c < |r| && |r[c]| == 2 ensures !Lone(r, c) {
      SuffixSplitOther(d, keepFirst, r, c);
    }
  }

  // ------------------------------------------------------- renumbering lookups

  ghost predicate BytesRenumbered(byteCodes: seq<nat>, r: Symbols) {
    && |byteCodes| == 256
    && forall b: byte :: byteCodes[b] == (var i := IndexOf(r, [b]); if i >= 0 then LEN_UNIT + i else ESCAPE_ENTRY)
  }

  /** `newCode` carries every symbol of `d` to its position in `r`. */
  ghost predicate Moves(d: Symbols, r: Symbols, newCode: seq<nat>) {
    && |newCode| == 256 && |r| == |d| <= 255
    && (forall i :: 0 <= i < |d| ==> newCode[i] < |r| && r[newCode[i]] == d[i])
    && (forall x :: IndexOf(r, x) == if IndexOf(d, x) >= 0 then newCode[IndexOf(d, x)] else -1)
  }

  lemma RenumberedMoves(d: Symbols, keepFirst: bool, r: Symbols, newCode: seq<nat>)
    requires Encodable(d) && Renumbered(d, keepFirst, r)
    requires |newCode| == 256 && forall i :: 0 <= i < |d| ==> newCode[i] == NewCode(d, keepFirst, i)
    ensures Moves(d, r, newCode)
  {
    forall x ensures IndexOf(r, x) == if IndexOf(d, x) >= 0 then newCode[IndexOf(d, x)] else -1 {
      RenumberedIndexOf(d, keepFirst, r, x);
    }
  }

  /** The byte code of `b` moves to the new code of its symbol, or to the escape. */
  lemma RenumberByte(t: Table, d: Symbols, r: Symbols, newCode: seq<nat>, b: byte)
    requires Sized(t) && BytesIndexed(t, d) && Moves(d, r, newCode)
    ensures var e, i := t.byteCodes[b], IndexOf(r, [b]);
      (if Code(e) >= CODE_BASE then newCode[e % 256] + LEN_UNIT else ESCAPE_ENTRY)
      == (if i >= 0 then LEN_UNIT + i else ESCAPE_ENTRY)
  {
    assert t.byteCodes[b] == ByteEntry(d, b);
  }

  lemma RenumberPair(t: Table, d: Symbols, r: Symbols, newCode: seq<nat>, byteCodes: seq<nat>, a: byte, b: byte)
    requires Sized(t) && PairsIndexed(t, d) && Moves(d, r, newCode) && BytesRenumbered(byteCodes, r)
    ensures MovedEntry(t.shortCodes[Pair(a, b)], newCode, byteCodes[a]) == PairEntry(r, a, b)
  {
    assert t.shortCodes[Pair(a, b)] == ShortEntry(d, a, b);
    assert IndexOf(r, [a, b]) == if IndexOf(d, [a, b]) >= 0 then newCode[IndexOf(d, [a, b])] else -1;
  }

  /** A bucket moves with its symbol; slots do not change. */
  function MovedBucket(b: Bucket, newCode: seq<nat>): Bucket
    requires |newCode| == 256
  {
    if b.Free? then Free else Taken(Symbol(b.symbol.bytes, newCode[b.symbol.code % 256]))
  }

  lemma RenumberBucket(t: Table, d: Symbols, r: Symbols, newCode: seq<nat>, h: nat)
    requires Sized(t) && Hashed(t.hashTab, d, CODE_BASE) && Lengths(d) && Moves(d, r, newCode)
    requires h < HASH_SIZE
    ensures t.hashTab[h].Icl() < ICL_FREE <==> t.hashTab[h].Taken?
    ensures BucketOk(r, 0, h, MovedBucket(t.hashTab[h], newCode))
    ensures t.hashTab[h].Taken? ==>
      var i := BucketCode(t.hashTab[h]) % 256;
      i == t.hashTab[h].symbol.code - CODE_BASE < |d| && |d[i]| >= 3 && t.hashTab[h].symbol.bytes == d[i]
  {
    var b := t.hashTab[h];
    assert BucketOk(d, CODE_BASE, h, b);
    IclOrder(b, [0]);
    if b.Taken? {
      var i := b.symbol.code - CODE_BASE;
      assert b.symbol.bytes == d[i] && r[newCode[i]] == d[i];
    }
  }

  method RenumberByteCodes(st: SymbolTable, newCode: seq<nat>, ghost t: Table, ghost d: Symbols, ghost r: Symbols)
    requires Sized(t) && st.byteCodes[..] == t.byteCodes && BytesIndexed(t, d) && Moves(d, r, newCode)
    modifies st.byteCodes
    ensures BytesRenumbered(st.byteCodes[..], r)
  {
    for b: int := 0 to 256
      invariant forall a: byte :: b <= a ==> st.byteCodes[a] == t.byteCodes[a]
      invariant forall a: byte :: a < b ==>
        st.byteCodes[a] == (var i := IndexOf(r, [a]); if i >= 0 then LEN_UNIT + i else ESCAPE_ENTRY)
    {
      RenumberByte(t, d, r, newCode, b);
      var e := st.byteCodes[b];
      st.byteCodes[b] := if Code(e) >= CODE_BASE then newCode[e % 256] + LEN_UNIT else ESCAPE_ENTRY;
    }
  }

  function MovedEntry(e: nat, newCode: seq<nat>, byteCode: nat): nat
    requires |newCode| == 256
  {
    if Code(e) >= CODE_BASE then newCode[e % 256] + e / LEN_UNIT * LEN_UNIT else byteCode
  }

  method RenumberShortCodes(st: SymbolTable, newCode: seq<nat>)
    requires st.shortCodes.Length == 65536 && st.byteCodes.Length == 256 && |newCode| == 256
    modifies st.shortCodes
    ensures forall q :: 0 <= q < 65536 ==>
      st.shortCodes[q] == MovedEntry(old(st.shortCodes[q]), newCode, old(st.byteCodes[q % 256]))
    ensures st.byteCodes[..] == old(st.byteCodes[..])
  {
    for p := 0 to 65536
      invariant st.byteCodes[..] == old(st.byteCodes[..])
      invariant forall q :: p <= q < 65536 ==> st.shortCodes[q] == old(st.shortCodes[q])
      invariant forall q :: 0 <= q < p ==>
        st.shortCodes[q] == MovedEntry(old(st.shortCodes[q]), newCode, old(st.byteCodes[q % 256]))
    {
      st.shortCodes[p] := MovedEntry(st.shortCodes[p], newCode, st.byteCodes[p % 256]);
    }
  }

  method RenumberHash(st: SymbolTable, newCode: seq<nat>, ghost t: Table, ghost d: Symbols, ghost r: Symbols)
    requires Sized(t) && st.hashTab[..] == t.hashTab && Hashed(t.hashTab, d, CODE_BASE) && Lengths(d)
    requires Moves(d, r, newCode)
    requires st.symbols.Length == CODE_MAX
    requires forall i :: 0 <= i < |d| && |d[i]| >= 3 ==> st.symbols[newCode[i]] == Symbol(d[i], newCode[i])
    modifies st.hashTab
    ensures st.hashTab.Length == HASH_SIZE
    ensures forall h :: 0 <= h < HASH_SIZE ==> st.hashTab[h] == MovedBucket(t.hashTab[h], newCode)
  {
    assert st.hashTab.Length == HASH_SIZE;
    for h := 0 to HASH_SIZE
      invariant forall g :: h <= g < HASH_SIZE ==> st.hashTab[g] == t.hashTab[g]
      invariant forall g :: 0 <= g < h ==> st.hashTab[g] == MovedBucket(t.hashTab[g], newCode)
    {
      RenumberBucket(t, d, r, newCode, h);
      if st.hashTab[h].Icl() < ICL_FREE {
        st.hashTab[h] := Taken(st.symbols[newCode[BucketCode(st.hashTab[h]) % 256]]);
      }
    }
  }

  lemma BucketsRenumbered(t: Table, d: Symbols, r: Symbols, newCode: seq<nat>, hashTab: seq<Bucket>)
    requires Sized(t) && Hashed(t.hashTab, d, CODE_BASE) && Lengths(d) && Moves(d, r, newCode)
    requires |hashTab| == HASH_SIZE
    requires forall h :: 0 <= h < HASH_SIZE ==> hashTab[h] == MovedBucket(t.hashTab[h], newCode)
    ensures forall h :: 0 <= h < HASH_SIZE ==> BucketOk(r, 0, h, hashTab[h])
    ensures forall i :: 0 <= i < |d| && |d[i]| >= 3 ==>
      hashTab[Slot(Load(d[i]))] == Taken(Symbol(d[i], newCode[i]))
  {
    forall h | 0 <= h < HASH_SIZE ensures BucketOk(r, 0, h, hashTab[h]) {
      RenumberBucket(t, d, r, newCode, h);
    }
    forall i | 0 <= i < |d| && |d[i]| >= 3
      ensures hashTab[Slot(Load(d[i]))] == Taken(Symbol(d[i], newCode[i]))
    {
      assert t.hashTab[Slot(Load(d[i]))] == Taken(Symbol(d[i], CODE_BASE + i));
    }
  }

  lemma PairsRenumbered(t: Table, d: Symbols, r: Symbols, newCode: seq<nat>, byteCodes: seq<nat>, shortCodes: seq<nat>)
    requires Sized(t) && PairsIndexed(t, d) && Moves(d, r, newCode) && BytesRenumbered(byteCodes, r)
    requires |shortCodes| == 65536
    requires forall q :: 0 <= q < 65536 ==> shortCodes[q] == MovedEntry(t.shortCodes[q], newCode, byteCodes[q % 256])
    ensures forall a: byte, b: byte :: shortCodes[Pair(a, b)] == PairEntry(r, a, b)
  {
    forall a: byte, b: byte ensures shortCodes[Pair(a, b)] == PairEntry(r, a, b) {
      RenumberPair(t, d, r, newCode, byteCodes, a, b);
      assert Pair(a, b) % 256 == a;
    }
  }

  /** What the compressor reads from a finished table. */
  function CoderOf(st: SymbolTable): Coder
    reads st, st.shortCodes, st.hashTab, st.lenHisto
  {
    Coder(st.shortCodes[..], st.hashTab[..], st.lenHisto[..], st.nSymbols, st.suffixLim,
          st.terminator, st.zeroTerminated)
  }

  /** Redirects the lookup structures from the old codes to the new ones. */
  method RenumberLookups(st: SymbolTable, newCode: seq<nat>, ghost t: Table, ghost d: Symbols, ghost r: Symbols)
    requires st.Shaped() && st.symbols.Length == CODE_MAX
    requires st.byteCodes[..] == t.byteCodes && st.shortCodes[..] == t.shortCodes && st.hashTab[..] == t.hashTab
    requires Sized(t) && BytesIndexed(t, d) && PairsIndexed(t, d) && Hashed(t.hashTab, d, CODE_BASE) && Lengths(d)
    requires Moves(d, r, newCode)
    requires forall i :: 0 <= i < |d| && |d[i]| >= 3 ==> st.symbols[newCode[i]] == Symbol(d[i], newCode[i])
    modifies st.shortCodes, st.byteCodes, st.hashTab
    ensures forall a: byte, b: byte :: st.shortCodes[Pair(a, b)] == PairEntry(r, a, b)
    ensures forall h :: 0 <= h < HASH_SIZE ==> BucketOk(r, 0, h, st.hashTab[h])
    ensures forall i :: 0 <= i < |d| && |d[i]| >= 3 ==>
      st.hashTab[Slot(Load(d[i]))] == Taken(Symbol(d[i], newCode[i]))
  {
    RenumberByteCodes(st, newCode, t, d, r);
    RenumberShortCodes(st, newCode);
    PairsRenumbered(t, d, r, newCode, st.byteCodes[..], st.shortCodes[..]);
    RenumberHash(st, newCode, t, d, r);
    BucketsRenumbered(t, d, r, newCode, st.hashTab[..]);
  }

  /** Every long symbol of `r` is found in its slot under its own position. */
  lemma LookupsRenumbered(d: Symbols, keepFirst: bool, r: Symbols, newCode: seq<nat>, c: Coder)
    requires Renumbered(d, keepFirst, r) && |newCode| == 256 && |d| <= 255
    requires |c.shortCodes| == 65536 && |c.hashTab| == HASH_SIZE
    requires forall i :: 0 <= i < |d| ==> newCode[i] == NewCode(d, keepFirst, i)
    requires forall a: byte, b: byte :: c.shortCodes[Pair(a, b)] == PairEntry(r, a, b)
    requires forall h :: 0 <= h < HASH_SIZE ==> BucketOk(r, 0, h, c.hashTab[h])
    requires forall i :: 0 <= i < |d| && |d[i]| >= 3 ==>
      c.hashTab[Slot(Load(d[i]))] == Taken(Symbol(d[i], newCode[i]))
    ensures Lookups(c, r)
  {
    forall m | 0 <= m < |r| && |r[m]| >= 3 ensures c.hashTab[Slot(Load(r[m]))] == Taken(Symbol(r[m], m)) {
      var i := NewCodeOnto(d, keepFirst, m);
      assert newCode[i] == m && r[m] == d[i];
    }
  }

  /** Moves the symbols to their new codes. */
  method RenumberSymbols(st: SymbolTable, ghost d: Symbols) returns (newCode: seq<nat>, ghost r: Symbols)
    requires Countable(st, d) && Distinct(d)
    modifies st`suffixLim, st.symbols
    ensures Renumbered(d, st.zeroTerminated, r) && Moves(d, r, newCode)
    ensures forall i :: 0 <= i < |d| ==> newCode[i] == NewCode(d, st.zeroTerminated, i)
    ensures forall i :: 0 <= i < |d| && |d[i]| >= 3 ==> st.symbols[newCode[i]] == Symbol(d[i], newCode[i])
    ensures forall c :: 0 <= c < |r| ==> st.symbols[c].bytes == r[c]
    ensures st.suffixLim == Below(Keys(d, st.zeroTerminated), OTHER_PAIR)
  {
    hide Cursors;
    var rsum := SectionCursors(st, d);
    newCode := AssignCodes(st, rsum, d);
    r := FirstSymbols(st.symbols[..], |d|);
    PlacedRenumbered(d, st.zeroTerminated, st.symbols[..], newCode, r);
  }

  /** Renumbers the codes of a finished table.  `r` names the result: the old
      symbols at their new codes. */
  method Finalize(st: SymbolTable) returns (ghost r: Symbols)
    requires Finalizable(st) && Distinct(st.Symbols())
    requires st.zeroTerminated ==> st.terminator == 0
    modifies st`suffixLim, st.symbols, st.shortCodes, st.byteCodes, st.hashTab
    ensures Renumbered(old(st.Symbols()), st.zeroTerminated, r)
    ensures Final(CoderOf(st), r)
    ensures st.symbols.Length == CODE_MAX && |r| == st.nSymbols
    ensures forall c :: 0 <= c < |r| ==> st.symbols[c].bytes == r[c]
  {
    hide Final, Renumbered, Countable, Lookups, Hashed, BucketOk, PairEntry;
    ghost var t, d := st.Contents(), st.Symbols();
    FinalizableCountable(st);
    var newCode;
    newCode, r := RenumberSymbols(st, d);
    RenumberLookups(st, newCode, t, d, r);
    LookupsRenumbered(d, st.zeroTerminated, r, newCode, CoderOf(st));
    FinalFromParts(t, d, st.zeroTerminated, r, CoderOf(st));
  }

  lemma FinalFromParts(t: Table, d: Symbols, keepFirst: bool, r: Symbols, c: Coder)
    requires Renumbered(d, keepFirst, r) && Encodable(d) && Lookups(c, r)
    requires keepFirst ==> |d| > 0 && d[0] == [0]
    requires Sized(t) && SymbolsStored(t, d) && c.lenHisto == t.lenHisto
    requires c.suffixLim == Below(Keys(d, keepFirst), OTHER_PAIR) && c.nSymbols == |d|
    requires c.zeroTerminated == keepFirst && (keepFirst ==> c.terminator == 0)
    ensures Final(c, r)
  {
    RenumberedEncodable(d, keepFirst, r);
    RenumberedGrouped(d, keepFirst, r, t.lenHisto);
    RenumberedSuffixSplit(d, keepFirst, r, c.suffixLim);
  }

  ghost function FirstSymbols(symbols: seq<Symbol>, n: nat): (r: Symbols)
    requires n <= |symbols|
    ensures |r| == n && forall c :: 0 <= c < n ==> r[c] == symbols[c].bytes
  {
    seq(n, c requires 0 <= c < n => symbols[c].bytes)
  }

  lemma PlacedRenumbered(d: Symbols, keepFirst: bool, symbols: seq<Symbol>, newCode: seq<nat>, r: Symbols)
    requires Encodable(d) && |symbols| == CODE_MAX && |newCode| == 256
    requires Placed(d, keepFirst, symbols, newCode, |d|) && r == FirstSymbols(symbols, |d|)
    requires keepFirst ==> |d| > 0 && |d[0]| == 1
    ensures Renumbered(d, keepFirst, r) && Moves(d, r, newCode)
    ensures forall i :: 0 <= i < |d| ==> newCode[i] == NewCode(d, keepFirst, i)
    ensures forall i :: 0 <= i < |d| && |d[i]| >= 3 ==> symbols[newCode[i]] == Symbol(d[i], newCode[i])
  {
    RenumberedMoves(d, keepFirst, r, newCode);
  }
}
