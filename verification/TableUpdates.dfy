/** The symbol table as an object: adding symbols and clearing it update the lookup arrays
    in place, and every run of such operations keeps them in step with the symbols. */
module TableUpdates {
  import opened Bytes
  import opened Dictionary
  import opened SymbolTables

  method CopyArray<T>(from: array<T>, to: array<T>)
    requires from.Length == to.Length && from != to
    modifies to
    ensures to[..] == from[..]
  {
    for k := 0 to from.Length
      invariant to[..k] == from[..k]
    {
      to[k] := from[k];
    }
  }

  class SymbolTable {
    const shortCodes: array<nat>
    const byteCodes: array<nat>
    const symbols: array<Symbol>
    const hashTab: array<Bucket>
    const lenHisto: array<nat>
    var nSymbols: nat
    var suffixLim: nat        // end of the two-byte codes without a longer extension
    var terminator: byte
    var zeroTerminated: bool

    ghost predicate Shaped()
      reads this
    {
      && shortCodes.Length == 65536 && byteCodes.Length == 256 && symbols.Length == CODE_MAX
      && hashTab.Length == HASH_SIZE && lenHisto.Length == 9
      && nSymbols <= CODE_MAX - CODE_BASE
    }

    ghost function Contents(): (t: Table)
      requires Shaped()
      reads this, shortCodes, byteCodes, symbols, hashTab, lenHisto
      ensures Sized(t)
    {
      Table(shortCodes[..], byteCodes[..], symbols[..], hashTab[..], lenHisto[..], nSymbols)
    }

    /** The symbols in the table, in the order they were added. */
    ghost function Symbols(): (d: Symbols)
      requires Shaped()
      reads this, symbols
      ensures |d| == nSymbols
    {
      SymbolsOf(symbols[..], nSymbols)
    }

    ghost predicate Valid()
      reads this, shortCodes, byteCodes, symbols, hashTab, lenHisto
    {
      Shaped() && Indexed(Contents(), Symbols())
    }

    constructor ()
      ensures Valid() && Symbols() == [] && Fresh(Contents())
      ensures suffixLim == CODE_MAX && terminator == 0 && !zeroTerminated
      ensures forall k :: 0 <= k < CODE_MAX ==> |symbols[k].bytes| == 1
      ensures fresh(shortCodes) && fresh(byteCodes) && fresh(symbols) && fresh(hashTab) && fresh(lenHisto)
    {
      shortCodes := new nat[65536](i => LEN_UNIT + i % 256);
      byteCodes := new nat[256](b => LEN_UNIT + b);
      symbols := new Symbol[CODE_MAX](i => if 0 <= i < 256 then Symbol([i], i) else Symbol([0], CODE_MAX - 1));
      hashTab := new Bucket[HASH_SIZE](_ => Free);
      lenHisto := new nat[9](_ => 0);
      nSymbols, suffixLim, terminator, zeroTerminated := 0, CODE_MAX, 0, false;
      new;
      FreshIsIndexed(Contents());
    }

    method HashInsert(s: Symbol) returns (ok: bool)
      requires Shaped()
      requires var b := hashTab[Slot(Load(s.bytes))];
        b.Taken? ==> 1 <= |b.symbol.bytes| <= 8 && b.symbol.code < CODE_MAX
      modifies hashTab
      ensures ok == old(hashTab[Slot(Load(s.bytes))]).Free?
      ensures hashTab[..] == if ok then old(hashTab[..])[Slot(Load(s.bytes)) := Taken(s)] else old(hashTab[..])
    {
      var idx := Slot(Load(s.bytes));
      IclOrder(hashTab[idx], [0]);
      if hashTab[idx].Icl() < ICL_FREE {
        return false;
      }
      hashTab[idx] := Taken(s);
      ok := true;
    }

    /** Makes the next code reachable from the lookup structures. */
    method Enter(s: seq<byte>) returns (ok: bool)
      requires Shaped() && nSymbols < CODE_MAX - CODE_BASE && 1 <= |s| <= 8
      requires var b := hashTab[Slot(Load(s))];
        b.Taken? ==> 1 <= |b.symbol.bytes| <= 8 && b.symbol.code < CODE_MAX
      modifies shortCodes, byteCodes, hashTab
      ensures ok == Accepts(old(Contents()), s)
      ensures var t := if ok then Added(old(Contents()), s) else old(Contents());
        shortCodes[..] == t.shortCodes && byteCodes[..] == t.byteCodes && hashTab[..] == t.hashTab
    {
      var code := CODE_BASE + nSymbols;
      if |s| == 1 {
        byteCodes[s[0]] := code + LEN_UNIT;
        ok := true;
      } else if |s| == 2 {
        shortCodes[Pair(s[0], s[1])] := code + 2 * LEN_UNIT;
        ok := true;
      } else {
        ok := HashInsert(Symbol(s, code));
      }
    }

    /** Adds a symbol unless its hash slot is in use. */
    method Add(s: seq<byte>) returns (ok: bool)
      requires Valid() && nSymbols < CODE_MAX - CODE_BASE && 1 <= |s| <= 8
      modifies this`nSymbols, shortCodes, byteCodes, symbols, hashTab, lenHisto
      ensures Valid()
      ensures ok == Accepts(old(Contents()), s)
      ensures ok ==> Symbols() == old(Symbols()) + [s] && Contents() == Added(old(Contents()), s)
      ensures !ok ==> Contents() == old(Contents())
    {
      hide Load, Slot;
      ghost var t, d := Contents(), Symbols();
      assert BucketOk(d, CODE_BASE, Slot(Load(s)), t.hashTab[Slot(Load(s))]);
      ok := Enter(s);
      if ok {
        var len, code := |s|, CODE_BASE + nSymbols;
        symbols[code] := Symbol(s, code);
        nSymbols := nSymbols + 1;
        lenHisto[len - 1] := lenHisto[len - 1] + 1;
        assert Contents() == Added(t, s);
        AddedIndexed(t, d, s);
        assert Symbols() == d + [s];
      } else {
        assert Contents() == t;
      }
    }

    /** The two tables share no memory. */
    ghost predicate Apart(other: SymbolTable) {
      && this != other && shortCodes != other.shortCodes && byteCodes != other.byteCodes
      && symbols != other.symbols && hashTab != other.hashTab && lenHisto != other.lenHisto
    }

    /** Becomes a copy of another table. */
    method CopyFrom(other: SymbolTable)
      requires Shaped() && other.Valid() && Apart(other)
      modifies this, shortCodes, byteCodes, symbols, hashTab, lenHisto
      ensures Valid() && Contents() == other.Contents() && Symbols() == other.Symbols()
      ensures suffixLim == other.suffixLim && terminator == other.terminator
      ensures zeroTerminated == other.zeroTerminated
    {
      hide Indexed;
      CopyArray(other.shortCodes, shortCodes);
      CopyArray(other.byteCodes, byteCodes);
      CopyArray(other.symbols, symbols);
      CopyArray(other.hashTab, hashTab);
      CopyArray(other.lenHisto, lenHisto);
      nSymbols, suffixLim := other.nSymbols, other.suffixLim;
      terminator, zeroTerminated := other.terminator, other.zeroTerminated;
      assert Contents() == other.Contents();
    }

    /** Empties the table by undoing only the positions its symbols use. */
    method Clear()
      requires Valid()
      modifies this`nSymbols, shortCodes, byteCodes, hashTab, lenHisto
      ensures Valid() && Symbols() == [] && Fresh(Contents())
    {
      ghost var t, d := Contents(), Symbols();
      NothingUndone(t, d);
      UndoEntries(d);
      for l := 0 to 9
        invariant Shaped() && nSymbols == |d|
        invariant Undone(d, byteCodes[..], shortCodes[..], hashTab[..], |d|)
        invariant forall m :: 0 <= m < l ==> lenHisto[m] == 0
      {
        lenHisto[l] := 0;
      }
      nSymbols := 0;
      AllUndoneIsFresh(Contents(), d, t);
      FreshIsIndexed(Contents());
    }

    method UndoEntries(ghost d: Symbols)
      requires Shaped() && d == Symbols() && Lengths(d)
      requires Undone(d, byteCodes[..], shortCodes[..], hashTab[..], 0)
      modifies shortCodes, byteCodes, hashTab
      ensures Undone(d, byteCodes[..], shortCodes[..], hashTab[..], |d|)
    {
      for i := 0 to nSymbols
        invariant Undone(d, byteCodes[..], shortCodes[..], hashTab[..], i)
      {
        UndoEntry(d, i, symbols[CODE_BASE + i].bytes);
      }
    }

    method UndoEntry(ghost d: Symbols, ghost i: nat, s: seq<byte>)
      requires Shaped() && i < |d| && d[i] == s && Lengths(d)
      requires Undone(d, byteCodes[..], shortCodes[..], hashTab[..], i)
      modifies shortCodes, byteCodes, hashTab
      ensures Undone(d, byteCodes[..], shortCodes[..], hashTab[..], i + 1)
    {
      ghost var bytes: seq<nat>, pairs: seq<nat>, buckets := byteCodes[..], shortCodes[..], hashTab[..];
      UndoneStep(d, bytes, pairs, buckets, i);
      if |s| == 1 {
        byteCodes[s[0]] := LEN_UNIT + s[0];
        assert byteCodes[..] == bytes[s[0] := LEN_UNIT + s[0]];
      } else if |s| == 2 {
        shortCodes[Pair(s[0], s[1])] := LEN_UNIT + s[0];
        assert shortCodes[..] == pairs[Pair(s[0], s[1]) := LEN_UNIT + s[0]];
      } else {
        hashTab[Slot(Load(s))] := Free;
        assert hashTab[..] == buckets[Slot(Load(s)) := Free];
      }
    }
  }

  // `clear` has undone the entries of the first `k` symbols: every entry that is
  // not back to its fresh value belongs to a symbol at position `k` or later.

  ghost predicate BytesPending(d: Symbols, codes: seq<nat>, k: nat) {
    && |codes| == 256
    && forall b: byte :: codes[b] == LEN_UNIT + b || IndexOf(d, [b]) >= k
  }

  ghost predicate PairsPending(d: Symbols, codes: seq<nat>, k: nat) {
    && |codes| == 65536
    && forall a: byte, b: byte :: codes[Pair(a, b)] == LEN_UNIT + a || IndexOf(d, [a, b]) >= k
  }

  ghost predicate BucketsPending(d: Symbols, buckets: seq<Bucket>, k: nat) {
    && |buckets| == HASH_SIZE
    && forall h :: 0 <= h < HASH_SIZE ==>
         BucketOk(d, CODE_BASE, h, buckets[h]) && (buckets[h].Taken? ==> buckets[h].symbol.code >= CODE_BASE + k)
  }

  ghost predicate Undone(d: Symbols, bytes: seq<nat>, pairs: seq<nat>, buckets: seq<Bucket>, k: nat) {
    BytesPending(d, bytes, k) && PairsPending(d, pairs, k) && BucketsPending(d, buckets, k)
  }

  lemma NothingUndone(t: Table, d: Symbols)
    requires Indexed(t, d)
    ensures Undone(d, t.byteCodes, t.shortCodes, t.hashTab, 0)
  {
    forall b: byte ensures t.byteCodes[b] == LEN_UNIT + b || IndexOf(d, [b]) >= 0 {
      assert t.byteCodes[b] == ByteEntry(d, b);
    }
    forall a: byte, b: byte ensures t.shortCodes[Pair(a, b)] == LEN_UNIT + a || IndexOf(d, [a, b]) >= 0 {
      assert t.shortCodes[Pair(a, b)] == ShortEntry(d, a, b);
    }
  }

  lemma AllUndoneIsFresh(r: Table, d: Symbols, t: Table)
    requires Sized(r) && Undone(d, r.byteCodes, r.shortCodes, r.hashTab, |d|)
    requires Indexed(t, d) && r.symbols == t.symbols
    requires r.nSymbols == 0 && forall l :: 0 <= l < 9 ==> r.lenHisto[l] == 0
    ensures Fresh(r)
  {
    forall h | 0 <= h < HASH_SIZE ensures r.hashTab[h] == Free {
      assert BucketOk(d, CODE_BASE, h, r.hashTab[h]);
    }
  }

  lemma UndoneStep(d: Symbols, bytes: seq<nat>, pairs: seq<nat>, buckets: seq<Bucket>, k: nat)
    requires k < |d| && Lengths(d) && Undone(d, bytes, pairs, buckets, k)
    ensures Undone(d,
                   if |d[k]| == 1 then bytes[d[k][0] := LEN_UNIT + d[k][0]] else bytes,
                   if |d[k]| == 2 then pairs[Pair(d[k][0], d[k][1]) := LEN_UNIT + d[k][0]] else pairs,
                   if |d[k]| >= 3 then buckets[Slot(Load(d[k])) := Free] else buckets, k + 1)
  {
    BytesPendingStep(d, bytes, k);
    PairsPendingStep(d, pairs, k);
    BucketsPendingStep(d, buckets, k);
  }

  lemma BytesPendingStep(d: Symbols, codes: seq<nat>, k: nat)
    requires k < |d| && BytesPending(d, codes, k)
    ensures BytesPending(d, if |d[k]| == 1 then codes[d[k][0] := LEN_UNIT + d[k][0]] else codes, k + 1)
  {
    var next := if |d[k]| == 1 then codes[d[k][0] := LEN_UNIT + d[k][0]] else codes;
    forall b: byte ensures next[b] == LEN_UNIT + b || IndexOf(d, [b]) >= k + 1 {
      assert codes[b] == LEN_UNIT + b || IndexOf(d, [b]) >= k;
    }
  }

  lemma PairsPendingStep(d: Symbols, codes: seq<nat>, k: nat)
    requires k < |d| && PairsPending(d, codes, k)
    ensures PairsPending(d, if |d[k]| == 2 then codes[Pair(d[k][0], d[k][1]) := LEN_UNIT + d[k][0]] else codes, k + 1)
  {
    var next := if |d[k]| == 2 then codes[Pair(d[k][0], d[k][1]) := LEN_UNIT + d[k][0]] else codes;
    forall a: byte, b: byte ensures next[Pair(a, b)] == LEN_UNIT + a || IndexOf(d, [a, b]) >= k + 1 {
      assert codes[Pair(a, b)] == LEN_UNIT + a || IndexOf(d, [a, b]) >= k;
    }
  }

  lemma BucketsPendingStep(d: Symbols, buckets: seq<Bucket>, k: nat)
    requires k < |d| && BucketsPending(d, buckets, k)
    ensures BucketsPending(d, if |d[k]| >= 3 then buckets[Slot(Load(d[k])) := Free] else buckets, k + 1)
  {
  }

  lemma ValidLengths(st: SymbolTable)
    requires st.Valid()
    ensures Lengths(st.Symbols())
  {
  }

  // ------------------------------------------------------------------------ runs

  datatype Operation = Insert(bytes: seq<byte>) | Reset

  /** One operation on the symbols: an insertion is refused exactly when it needs a held slot. */
  function Applied(d: Symbols, op: Operation): (r: Symbols) {
    if op.Reset? then [] else if SlotHeld(d, op.bytes) then d else d + [op.bytes]
  }

  /** The symbols a run leaves behind. */
  function AfterRun(ops: seq<Operation>): (d: Symbols) {
    if ops == [] then [] else Applied(AfterRun(ops[..|ops| - 1]), ops[|ops| - 1])
  }

  lemma AfterRunNext(ops: seq<Operation>, i: nat)
    requires i < |ops|
    ensures AfterRun(ops[..i + 1]) == Applied(AfterRun(ops[..i]), ops[i])
  {
    assert ops[..i + 1][..i] == ops[..i];
  }

  /** Symbols have one to eight bytes, and no insertion meets a full table. */
  predicate Admissible(ops: seq<Operation>) {
    forall i :: 0 <= i < |ops| && ops[i].Insert? ==>
      1 <= |ops[i].bytes| <= 8 && |AfterRun(ops[..i])| < CODE_MAX - CODE_BASE
  }

  method Perform(st: SymbolTable, op: Operation)
    requires st.Valid()
    requires op.Insert? ==> 1 <= |op.bytes| <= 8 && st.nSymbols < CODE_MAX - CODE_BASE
    modifies st`nSymbols, st.shortCodes, st.byteCodes, st.symbols, st.hashTab, st.lenHisto
    ensures st.Valid() && st.Symbols() == Applied(old(st.Symbols()), op)
  {
    hide Indexed, Accepts, Added, SlotHeld;
    if op.Reset? {
      st.Clear();
    } else {
      AcceptsIff(st.Contents(), st.Symbols(), op.bytes);
      var ok := st.Add(op.bytes);
    }
  }

  /** Any run of insertions, refused ones included, and clearings: it leaves exactly the
      symbols of `AfterRun`, and the three lookup structures find the longest of them
      at the start of every input. */
  method RunOperations(ops: seq<Operation>) returns (st: SymbolTable)
    requires Admissible(ops)
    ensures fresh(st) && st.Valid() && st.Symbols() == AfterRun(ops)
    ensures forall input: seq<byte> :: input != [] ==>
      FindLongestSymbol(st.Contents(), input[..Min(8, |input|)]) == CodeFor(AfterRun(ops), input)
  {
    hide Indexed, Applied, FindLongestSymbol, CodeFor, Fresh;
    st := new SymbolTable();
    assert ops[..0] == [];
    for i := 0 to |ops|
      invariant fresh(st) && fresh(st.shortCodes) && fresh(st.byteCodes) && fresh(st.symbols)
                && fresh(st.hashTab) && fresh(st.lenHisto)
      invariant st.Valid() && st.Symbols() == AfterRun(ops[..i])
    {
      Perform(st, ops[i]);
      AfterRunNext(ops, i);
    }
    assert ops[..|ops|] == ops;
    forall input: seq<byte> | input != []
      ensures FindLongestSymbol(st.Contents(), input[..Min(8, |input|)]) == CodeFor(AfterRun(ops), input)
    {
      FindLongestSymbolCorrect(st.Contents(), st.Symbols(), input);
    }
  }
}
