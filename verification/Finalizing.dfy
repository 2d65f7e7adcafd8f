/** Renumbering the codes of a finished table (`finalize`).

    Codes are grouped by symbol length, 2 to 8 and then 1, with the two-byte
    symbols that no longer symbol extends in front.  Comparisons with the group
    limits then replace lookups in the compressor. */
module Finalizing {
  import opened Bytes
  import opened Dictionary
  import opened CountingSort
  import opened SymbolTables
  import opened TableUpdates

  /** No other symbol of two bytes or more starts with symbol `i`. */
  predicate Lone(d: Symbols, i: nat)
    requires i < |d| && |d[i]| == 2
  {
    forall k :: 0 <= k < |d| && k != i && |d[k]| > 1 ==> d[k][..2] != d[i]
  }

  const LONE_PAIR := 1
  const OTHER_PAIR := 2
  const SINGLE := 9

  /** Section of symbol `i`: 0 for the kept terminator, 1 and 2 for pairs, the
      length for 3 to 8 bytes, 9 for single bytes. */
  function Key(d: Symbols, keepFirst: bool, i: nat): (k: nat)
    requires i < |d| && Lengths(d)
    ensures k <= SINGLE
  {
    if keepFirst && i == 0 then 0
    else if |d[i]| == 1 then SINGLE
    else if |d[i]| == 2 then (if Lone(d, i) then LONE_PAIR else OTHER_PAIR)
    else |d[i]|
  }

  function Keys(d: Symbols, keepFirst: bool): (ks: seq<nat>)
    requires Lengths(d)
    ensures |ks| == |d| && forall i :: 0 <= i < |d| ==> ks[i] == Key(d, keepFirst, i)
  {
    seq(|d|, i requires 0 <= i < |d| => Key(d, keepFirst, i))
  }

  /** New code of symbol `i`. */
  function NewCode(d: Symbols, keepFirst: bool, i: nat): (c: int)
    requires i < |d| && Lengths(d)
  {
    Place(Keys(d, keepFirst), OTHER_PAIR, i)
  }

  function Flag(b: bool): nat { if b then 1 else 0 }

  /** First code of the symbols with `len` bytes (2 to 8), 9 standing for single
      bytes: the running sums of the length histogram. */
  function Start(histo: seq<nat>, keepFirst: bool, len: nat): nat
    requires |histo| == 9 && 2 <= len <= 9
  {
    if len == 2 then Flag(keepFirst)
    else Start(histo, keepFirst, len - 1) + histo[len - 2]
  }

  lemma {:induction false} StartAtLeast(histo: seq<nat>, keepFirst: bool, len: nat)
    requires |histo| == 9 && 2 <= len <= 9
    ensures Start(histo, keepFirst, len) >= Flag(keepFirst)
  {
    if len > 2 {
      StartAtLeast(histo, keepFirst, len - 1);
    }
  }

  lemma CountLengthStep(d: Symbols, n: nat, len: nat)
    requires n < |d|
    ensures CountLength(d[..n + 1], len) == CountLength(d[..n], len) + Flag(|d[n]| == len)
  {
    assert d[..n + 1][..n] == d[..n];
  }

  /** How many of the first `n` symbols are in the sections of key `a` or `b`. */
  lemma {:induction false} KeyCount(d: Symbols, keepFirst: bool, n: nat, len: nat, a: nat, b: nat)
    requires Lengths(d) && n <= |d| && a != b
    requires forall i :: 0 <= i < |d| ==> (|d[i]| == len <==> Key(d, keepFirst, i) in {a, b})
    ensures Equal(Keys(d, keepFirst)[..n], a) + Equal(Keys(d, keepFirst)[..n], b) == CountLength(d[..n], len)
    decreases n
  {
    hide Key, Lengths;
    if n > 0 {
      KeyCount(d, keepFirst, n - 1, len, a, b);
      var ks := Keys(d, keepFirst);
      EqualStep(ks, a, n - 1);
      EqualStep(ks, b, n - 1);
      CountLengthStep(d, n - 1, len);
    }
  }

  lemma {:induction false} KeyAbsent(ks: seq<nat>, k: nat)
    requires forall i :: 0 <= i < |ks| ==> ks[i] != k
    ensures Equal(ks, k) == 0
  {
    if ks != [] {
      KeyAbsent(ks[..|ks| - 1], k);
    }
  }

  lemma TerminatorCount(d: Symbols, keepFirst: bool)
    requires Lengths(d) && (keepFirst ==> |d| > 0)
    ensures Equal(Keys(d, keepFirst), 0) == Flag(keepFirst)
  {
    var ks := Keys(d, keepFirst);
    if keepFirst {
      KeyAbsentAfter(ks, 0, |ks|);
      assert ks[..|ks|] == ks;
    } else {
      KeyAbsent(ks, 0);
    }
  }

  lemma {:induction false} KeyAbsentAfter(ks: seq<nat>, k: nat, n: nat)
    requires 0 < n <= |ks| && ks[0] == k && forall i :: 1 <= i < |ks| ==> ks[i] != k
    ensures Equal(ks[..n], k) == 1
    decreases n
  {
    if n > 1 {
      KeyAbsentAfter(ks, k, n - 1);
      EqualStep(ks, k, n - 1);
    } else {
      EqualStep(ks, k, 0);
    }
  }

  /** Sections and lengths count the same symbols. */
  lemma KeyCounts(d: Symbols, keepFirst: bool)
    requires Lengths(d) && (keepFirst ==> |d| > 0 && |d[0]| == 1)
    ensures var ks := Keys(d, keepFirst);
      && Equal(ks, 0) == Flag(keepFirst)
      && Equal(ks, LONE_PAIR) + Equal(ks, OTHER_PAIR) == CountLength(d, 2)
      && (forall l :: 3 <= l <= 8 ==> Equal(ks, l) == CountLength(d, l))
      && Equal(ks, SINGLE) + Equal(ks, 0) == CountLength(d, 1)
  {
    hide Equal, CountLength, Lone;
    var ks := Keys(d, keepFirst);
    assert d[..|d|] == d && ks[..|d|] == ks;
    TerminatorCount(d, keepFirst);
    KeyCount(d, keepFirst, |d|, 2, LONE_PAIR, OTHER_PAIR);
    KeyCount(d, keepFirst, |d|, 1, SINGLE, 0);
    forall l | 3 <= l <= 8 ensures Equal(ks, l) == CountLength(d, l) {
      KeyCount(d, keepFirst, |d|, l, l, 10);
      KeyAbsent(ks, 10);
    }
  }

  /** The running sums of the histogram are where the sections start. */
  lemma SectionStarts(d: Symbols, keepFirst: bool, histo: seq<nat>)
    requires Lengths(d) && (keepFirst ==> |d| > 0 && |d[0]| == 1)
    requires |histo| == 9 && forall l :: 0 <= l < 9 ==> histo[l] == CountLength(d, l + 1)
    ensures var ks := Keys(d, keepFirst);
      && Below(ks, LONE_PAIR) == Flag(keepFirst)
      && Below(ks, OTHER_PAIR) + Equal(ks, OTHER_PAIR) == Start(histo, keepFirst, 3)
      && (forall l :: 3 <= l <= 9 ==> Below(ks, l) == Start(histo, keepFirst, l))
      && Below(ks, SINGLE) + Equal(ks, SINGLE) == |d|
      && Equal(ks, SINGLE) == histo[0] - Flag(keepFirst)
  {
    var ks := Keys(d, keepFirst);
    KeyCounts(d, keepFirst);
    BelowZero(ks);
    BelowNext(ks, 0);
    BelowNext(ks, 1);
    BelowNext(ks, 2);
    forall l | 3 <= l <= 9 ensures Below(ks, l) == Start(histo, keepFirst, l) {
      RunningSum(ks, keepFirst, histo, l);
    }
    BelowAll(ks, 10);
    BelowNext(ks, 9);
  }

  lemma {:induction false} RunningSum(ks: seq<nat>, keepFirst: bool, histo: seq<nat>, l: nat)
    requires |histo| == 9 && 3 <= l <= 9
    requires Below(ks, 3) == Start(histo, keepFirst, 3)
    requires forall m :: 3 <= m <= 8 ==> Equal(ks, m) == histo[m - 1]
    ensures Below(ks, l) == Start(histo, keepFirst, l)
  {
    if l > 3 {
      RunningSum(ks, keepFirst, histo, l - 1);
      BelowNext(ks, l - 1);
    }
  }

  /** The next free code of every section once the first `i` symbols are placed. */
  ghost predicate Cursors(ks: seq<nat>, i: nat, rsum: seq<nat>, lim: int, top: int)
    requires i <= |ks|
  {
    && |rsum| == 8
    && lim == Below(ks, LONE_PAIR) + Equal(ks[..i], LONE_PAIR)
    && top == Below(ks, OTHER_PAIR) + Equal(ks, OTHER_PAIR) - Equal(ks[..i], OTHER_PAIR)
    && rsum[0] == Below(ks, SINGLE) + Equal(ks[..i], SINGLE)
    && forall l :: 2 <= l <= 7 ==> rsum[l] == Below(ks, l + 1) + Equal(ks[..i], l + 1)
  }

  /** The starting cursors computed from the histogram are right. */
  lemma CursorsStart(d: Symbols, keepFirst: bool, histo: seq<nat>, rsum: seq<nat>)
    requires Lengths(d) && (keepFirst ==> |d| > 0 && |d[0]| == 1)
    requires |histo| == 9 && forall l :: 0 <= l < 9 ==> histo[l] == CountLength(d, l + 1)
    requires |rsum| == 8 && rsum[0] == |d| - (histo[0] - Flag(keepFirst))
    requires forall l :: 1 <= l <= 7 ==> rsum[l] == Start(histo, keepFirst, l + 1)
    ensures Cursors(Keys(d, keepFirst), Flag(keepFirst), rsum, rsum[1], rsum[2])
  {
    SectionStarts(d, keepFirst, histo);
    var ks := Keys(d, keepFirst);
    if keepFirst {
      assert ks[..1] == [0];
      assert forall k :: k > 0 ==> Equal([0], k) == 0;
    }
  }

  lemma NewCodeInRange(d: Symbols, keepFirst: bool, i: nat)
    requires Lengths(d) && i < |d|
    ensures 0 <= NewCode(d, keepFirst, i) < |d|
  {
    PlaceInSection(Keys(d, keepFirst), OTHER_PAIR, i);
  }

  lemma LonePairsEnd(ks: seq<nat>, rsum: seq<nat>, lim: nat, top: int)
    requires Cursors(ks, |ks|, rsum, lim, top)
    ensures lim == Below(ks, OTHER_PAIR)
  {
    assert ks[..|ks|] == ks;
    BelowNext(ks, LONE_PAIR);
  }

  datatype Pick = Pick(code: int, rsum: seq<nat>, lim: nat, top: int)

  /** Takes the cursor of the section that symbol `i` belongs to. */
  function Take(d: Symbols, i: nat, rsum: seq<nat>, lim: nat, top: nat): Pick
    requires Lengths(d) && i < |d| && |rsum| == 8
  {
    if |d[i]| != 2 then
      Pick(rsum[|d[i]| - 1], rsum[|d[i]| - 1 := rsum[|d[i]| - 1] + 1], lim, top)
    else if Lone(d, i) then Pick(lim, rsum, lim + 1, top)
    else Pick(top - 1, rsum, lim, top - 1)
  }

  /** Taking the cursor of its own section gives symbol `i` its new code. */
  lemma TakeGivesNewCode(d: Symbols, keepFirst: bool, i: nat, rsum: seq<nat>, lim: nat, top: nat)
    requires Lengths(d) && Flag(keepFirst) <= i < |d|
    requires Cursors(Keys(d, keepFirst), i, rsum, lim, top)
    ensures var p := Take(d, i, rsum, lim, top);
      && 0 <= p.code == NewCode(d, keepFirst, i) < |d| && p.top >= 0
      && |p.rsum| == 8 && Cursors(Keys(d, keepFirst), i + 1, p.rsum, p.lim, p.top)
  {
    hide Equal, Below, Keys, Lone;
    NewCodeInRange(d, keepFirst, i);
    var ks := Keys(d, keepFirst);
    forall k ensures Equal(ks[..i + 1], k) == Equal(ks[..i], k) + (if ks[i] == k then 1 else 0) {
      EqualStep(ks, k, i);
    }
  }

  /** The table stores the symbols `d`. */
  ghost predicate Holds(st: SymbolTable, d: Symbols)
    reads st, st.symbols
  {
    && st.symbols.Length == CODE_MAX && st.nSymbols == |d| <= 255
    && forall k :: 0 <= k < |d| ==> st.symbols[CODE_BASE + k].bytes == d[k]
  }

  /** Whether no other symbol of two bytes or more starts with symbol `i`. */
  method SearchExtension(st: SymbolTable, i: nat, ghost d: Symbols) returns (lone: bool)
    requires Holds(st, d) && i < |d| && |d[i]| == 2
    ensures lone == Lone(d, i)
  {
    var first2 := st.symbols[CODE_BASE + i].bytes;
    lone := true;
    var k := 0;
    while k < st.nSymbols && lone
      invariant 0 <= k <= |d|
      invariant lone ==> forall m :: 0 <= m < k && m != i && |d[m]| > 1 ==> d[m][..2] != first2
      invariant !lone ==> !Lone(d, i)
      decreases st.nSymbols - k, lone
    {
      var s2 := st.symbols[CODE_BASE + k].bytes;
      if k != i && |s2| > 1 && first2 == s2[..2] {
        assert d[k][..2] == d[i];
        lone := false;
      }
      k := k + 1;
    }
  }

  /** What `finalize` may assume: at most 255 symbols, and in zero-terminated mode
      the terminator in front. */
  ghost predicate Finalizable(st: SymbolTable)
    reads st, st.shortCodes, st.byteCodes, st.symbols, st.hashTab, st.lenHisto
  {
    && st.Valid() && st.nSymbols <= 255
    && (st.zeroTerminated ==> st.nSymbols > 0 && st.Symbols()[0] == [0])
  }

  ghost predicate Placed(d: Symbols, keepFirst: bool, symbols: seq<Symbol>, newCode: seq<nat>, i: nat)
    requires Lengths(d) && i <= |d| && |symbols| == CODE_MAX && |newCode| == 256 && |d| <= 255
  {
    forall m :: 0 <= m < i ==>
      && 0 <= NewCode(d, keepFirst, m) < |d|
      && newCode[m] == NewCode(d, keepFirst, m)
      && symbols[newCode[m]] == Symbol(d[m], if keepFirst && m == 0 then CODE_BASE else newCode[m])
  }

  lemma PlacedStep(d: Symbols, keepFirst: bool, symbols: seq<Symbol>, newCode: seq<nat>, i: nat, c: nat)
    requires Lengths(d) && Flag(keepFirst) <= i < |d| <= 255 && |symbols| == CODE_MAX && |newCode| == 256
    requires Placed(d, keepFirst, symbols, newCode, i) && c == NewCode(d, keepFirst, i)
    ensures c < |d| && Placed(d, keepFirst, symbols[c := Symbol(d[i], c)], newCode[i := c], i + 1)
  {
    hide Keys, Place, Lengths;
    NewCodeInRange(d, keepFirst, i);
    forall m | 0 <= m < i ensures newCode[m] != c {
      PlaceInjective(Keys(d, keepFirst), OTHER_PAIR, m, i);
    }
  }

  /** The parts of a table that decide the new codes. */
  ghost predicate Countable(st: SymbolTable, d: Symbols)
    reads st, st.symbols, st.lenHisto
  {
    && Holds(st, d) && Lengths(d)
    && st.lenHisto.Length == 9 && (forall l :: 0 <= l < 9 ==> st.lenHisto[l] == CountLength(d, l + 1))
    && (st.zeroTerminated ==> |d| > 0 && d[0] == [0] && st.symbols[CODE_BASE].code == CODE_BASE)
  }

  lemma FinalizableCountable(st: SymbolTable)
    requires Finalizable(st)
    ensures Countable(st, st.Symbols())
  {
    var t, d := st.Contents(), st.Symbols();
    if |d| > 0 {
      assert t.symbols[CODE_BASE + 0] == Symbol(d[0], CODE_BASE + 0);
    }
    forall l | 0 <= l < 9 ensures st.lenHisto[l] == CountLength(d, l + 1) {
      assert t.lenHisto[l] == st.lenHisto[l];
    }
  }

  method SectionCursors(st: SymbolTable, ghost d: Symbols) returns (rsum: seq<nat>)
    requires Countable(st, d)
    ensures |rsum| == 8
    ensures Cursors(Keys(d, st.zeroTerminated), Flag(st.zeroTerminated), rsum, rsum[1], rsum[2])
  {
    hide Lengths, Keys, Cursors, Below, Equal;
    var z := Flag(st.zeroTerminated);
    ghost var histo := st.lenHisto[..];
    SectionStarts(d, st.zeroTerminated, histo);
    var byteLim := st.nSymbols - (st.lenHisto[0] - z);
    rsum := [byteLim, z, 0, 0, 0, 0, 0, 0];
    for l := 1 to 7
      invariant |rsum| == 8 && rsum[0] == byteLim
      invariant forall m :: 1 <= m <= l ==> rsum[m] == Start(histo, st.zeroTerminated, m + 1)
    {
      rsum := rsum[l + 1 := rsum[l] + st.lenHisto[l]];
    }
    CursorsStart(d, st.zeroTerminated, histo, rsum);
  }

  /** Gives symbol `i` the next free code of its section. */
  method PickCode(st: SymbolTable, i: nat, rsum: seq<nat>, j: nat, ghost d: Symbols)
    returns (c: int, rsum': seq<nat>, j': int)
    requires Holds(st, d) && Lengths(d) && i < |d| && |rsum| == 8
    modifies st`suffixLim
    ensures Pick(c, rsum', st.suffixLim, j') == Take(d, i, rsum, old(st.suffixLim), j)
  {
    var len := |st.symbols[CODE_BASE + i].bytes|;
    assert len == |d[i]|;
    rsum', j' := rsum, j;
    if len == 2 {
      var lone := SearchExtension(st, i, d);
      if lone {
        c := st.suffixLim;
        st.suffixLim := st.suffixLim + 1;
      } else {
        j' := j - 1;
        c := j';
      }
    } else {
      c := rsum[len - 1];
      rsum' := rsum[len - 1 := c + 1];
    }
  }

  method AssignCodes(st: SymbolTable, rsum0: seq<nat>, ghost d: Symbols) returns (newCode: seq<nat>)
    requires Holds(st, d) && Lengths(d)
    requires st.zeroTerminated ==> |d| > 0 && st.symbols[CODE_BASE].code == CODE_BASE
    requires |rsum0| == 8
    requires Cursors(Keys(d, st.zeroTerminated), Flag(st.zeroTerminated), rsum0, rsum0[1], rsum0[2])
    modifies st`suffixLim, st.symbols
    ensures |newCode| == 256
    ensures Holds(st, d) && Placed(d, st.zeroTerminated, st.symbols[..], newCode, |d|)
    ensures st.suffixLim == Below(Keys(d, st.zeroTerminated), OTHER_PAIR)
  {
    hide Keys, Cursors, Placed, Lengths, NewCode, Take, Below;
    newCode := seq(256, _ => 0);
    st.suffixLim := rsum0[1];
    st.symbols[0] := st.symbols[CODE_BASE];
    var rsum, j: int := rsum0, rsum0[2];
    ghost var z := st.zeroTerminated;
    TerminatorPlaced(d, z, st.symbols[..], newCode);
    for i := Flag(st.zeroTerminated) to st.nSymbols
      invariant Holds(st, d)
      invariant |newCode| == 256 && Placed(d, z, st.symbols[..], newCode, i)
      invariant |rsum| == 8 && Cursors(Keys(d, z), i, rsum, st.suffixLim, j) && j >= 0
    {
      TakeGivesNewCode(d, z, i, rsum, st.suffixLim, j);
      var c;
      c, rsum, j := PickCode(st, i, rsum, j, d);
      PlaceSymbol(st, i, c, newCode, d, z);
      newCode := newCode[i := c];
    }
    LonePairsEnd(Keys(d, z), rsum, st.suffixLim, j);
  }

  method PlaceSymbol(st: SymbolTable, i: nat, c: nat, ghost newCode: seq<nat>, ghost d: Symbols, ghost z: bool)
    requires Holds(st, d) && Lengths(d) && |newCode| == 256 && Flag(z) <= i < |d|
    requires Placed(d, z, st.symbols[..], newCode, i) && c == NewCode(d, z, i)
    modifies st.symbols
    ensures c < |d| && Holds(st, d) && Placed(d, z, st.symbols[..], newCode[i := c], i + 1)
  {
    ghost var before := st.symbols[..];
    PlacedStep(d, z, before, newCode, i, c);
    st.symbols[c] := Symbol(st.symbols[CODE_BASE + i].bytes, c);
    assert st.symbols[..] == before[c := Symbol(d[i], c)];
  }

  lemma TerminatorPlaced(d: Symbols, keepFirst: bool, symbols: seq<Symbol>, newCode: seq<nat>)
    requires Lengths(d) && |d| <= 255 && |symbols| == CODE_MAX && |newCode| == 256 && newCode[0] == 0
    requires keepFirst ==> |d| > 0 && symbols[0] == Symbol(d[0], CODE_BASE)
    ensures Placed(d, keepFirst, symbols, newCode, Flag(keepFirst))
  {
    if keepFirst {
      var ks := Keys(d, keepFirst);
      BelowZero(ks);
      assert ks[0] == 0 && ks[..0] == [];
      assert NewCode(d, keepFirst, 0) == 0;
    }
  }
}
