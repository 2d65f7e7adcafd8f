/** The symbol table under construction and its three lookup structures:
    one code per first byte, one per first two bytes, and a lossy perfect hash,
    keyed by three bytes, with one slot per hash value.

    A `Table` is the contents of all of it; the object that updates those contents
    in place is in module `TableUpdates`.  `Indexed(t, d)` says that the lookup structures of `t`
    represent exactly the symbols `d`. */
module SymbolTables {
  import opened Bytes
  import opened Dictionary

  const CODE_BASE := 256
  const CODE_MAX := 512
  const LEN_UNIT := 4096
  const HASH_SIZE := 1024
  const HASH_PRIME := 2971215073
  const ICL_FREE := 0xF1FF0000

  function Xor(a: nat, b: nat): (r: nat)
    decreases a + b
  {
    if a == 0 && b == 0 then 0 else (a % 2 + b % 2) % 2 + 2 * Xor(a / 2, b / 2)
  }

  /** Hash slot of the three low bytes of a word. */
  function Slot(word: nat): (h: nat)
    ensures h < HASH_SIZE
  {
    var v := Masked(word, 3) * HASH_PRIME;
    Xor(v, v / 32768) % HASH_SIZE
  }

  datatype Symbol = Symbol(bytes: seq<byte>, code: nat) {
    /** The packed word that orders symbols by length, then code. */
    function Icl(): int {
      |bytes| * 0x1000_0000 + code * 0x1_0000 + (8 - |bytes|) * 8
    }
  }

  datatype Bucket = Free | Taken(symbol: Symbol) {
    function Icl(): int {
      if Free? then ICL_FREE else symbol.Icl()
    }

    /** The bucket's word equals the input word masked to the bucket's length.
        A free bucket holds the word zero and masks nothing. */
    predicate WordMatches(word: nat) {
      if Free? then 0 == Masked(word, 8)
      else Load(symbol.bytes) == Masked(word, |symbol.bytes|)
    }
  }

  datatype Table = Table(
    shortCodes: seq<nat>,
    byteCodes: seq<nat>,
    symbols: seq<Symbol>,
    hashTab: seq<Bucket>,
    lenHisto: seq<nat>,
    nSymbols: nat)

  predicate Sized(t: Table) {
    && |t.shortCodes| == 65536 && |t.byteCodes| == 256 && |t.symbols| == CODE_MAX
    && |t.hashTab| == HASH_SIZE && |t.lenHisto| == 9
    && t.nSymbols <= CODE_MAX - CODE_BASE
  }

  function Code(entry: nat): (c: nat) ensures c < CODE_MAX { entry % CODE_MAX }

  /** Index of a two-byte pattern in `shortCodes`. */
  function Pair(a: byte, b: byte): (p: nat) ensures p < 65536 { a + 256 * b }

  function ByteEntry(d: Symbols, b: byte): nat {
    var i := IndexOf(d, [b]);
    LEN_UNIT + (if i >= 0 then CODE_BASE + i else b)
  }

  function ShortEntry(d: Symbols, a: byte, b: byte): nat {
    var i := IndexOf(d, [a, b]);
    if i >= 0 then 2 * LEN_UNIT + CODE_BASE + i else LEN_UNIT + a
  }

  /** How many of the symbols have `len` bytes. */
  function CountLength(d: Symbols, len: nat): (n: nat)
    ensures n <= |d|
  {
    if d == [] then 0
    else CountLength(d[..|d| - 1], len) + (if |d[|d| - 1]| == len then 1 else 0)
  }

  /** A taken bucket names the symbol stored in it; its code is that symbol's position,
      counted from `base`. */
  predicate BucketOk(d: Symbols, base: nat, h: nat, b: Bucket) {
    b.Taken? ==>
      && base <= b.symbol.code < base + |d|
      && b.symbol.bytes == d[b.symbol.code - base]
      && |b.symbol.bytes| >= 3
      && Slot(Load(b.symbol.bytes)) == h
  }

  ghost predicate BytesIndexed(t: Table, d: Symbols)
    requires Sized(t)
  {
    forall b: byte :: t.byteCodes[b] == ByteEntry(d, b)
  }

  ghost predicate PairsIndexed(t: Table, d: Symbols)
    requires Sized(t)
  {
    forall a: byte, b: byte :: t.shortCodes[Pair(a, b)] == ShortEntry(d, a, b)
  }

  /** The hash table holds the symbols of three bytes or more and nothing else. */
  ghost predicate Hashed(hashTab: seq<Bucket>, d: Symbols, base: nat) {
    && |hashTab| == HASH_SIZE
    && (forall i :: 0 <= i < |d| && |d[i]| >= 3 ==>
          hashTab[Slot(Load(d[i]))] == Taken(Symbol(d[i], base + i)))
    && (forall h :: 0 <= h < HASH_SIZE ==> BucketOk(d, base, h, hashTab[h]))
  }

  ghost predicate SymbolsStored(t: Table, d: Symbols)
    requires Sized(t)
  {
    && t.nSymbols == |d|
    && (forall i :: 0 <= i < |d| ==> t.symbols[CODE_BASE + i] == Symbol(d[i], CODE_BASE + i))
    && (forall b: byte :: t.symbols[b] == Symbol([b], b))
    && (forall l :: 0 <= l < 9 ==> t.lenHisto[l] == CountLength(d, l + 1))
  }

  ghost predicate Indexed(t: Table, d: Symbols) {
    && Sized(t) && Lengths(d)
    && SymbolsStored(t, d) && BytesIndexed(t, d) && PairsIndexed(t, d) && Hashed(t.hashTab, d, CODE_BASE)
  }

  // ------------------------------------------------------------------ lookup

  /** The test the code makes on the bucket of a window. */
  predicate BucketHit(bucket: Bucket, w: seq<byte>)
  {
    bucket.Icl() <= Symbol(w, CODE_MAX).Icl() && bucket.WordMatches(Load(w))
  }

  function BucketCode(bucket: Bucket): nat
  {
    (bucket.Icl() / 0x1_0000) % CODE_MAX
  }

  /** `findLongestSymbol` on an input window of one to eight bytes. */
  function FindLongestSymbol(t: Table, w: seq<byte>): (code: nat)
    requires Sized(t) && 1 <= |w| <= 8
  {
    var bucket := t.hashTab[Slot(Load(w))];
    if BucketHit(bucket, w) then BucketCode(bucket)
    else if |w| >= 2 && Code(t.shortCodes[Pair(w[0], w[1])]) >= CODE_BASE then
      Code(t.shortCodes[Pair(w[0], w[1])])
    else
      Code(t.byteCodes[w[0]])
  }

  /** The code the dictionary prescribes for an input: its longest symbol, or the
      escape pseudo-code of its first byte. */
  function CodeFor(d: Symbols, s: seq<byte>): (code: nat)
    requires s != []
  {
    var i := Longest(d, s);
    if i >= 0 then CODE_BASE + i else s[0]
  }

  /** Comparing packed words decides "fits into the window" for a taken bucket
      and rejects a free one. */
  lemma IclOrder(bucket: Bucket, w: seq<byte>)
    requires 1 <= |w| <= 8
    requires bucket.Taken? ==> 1 <= |bucket.symbol.bytes| <= 8 && bucket.symbol.code < CODE_MAX
    ensures BucketHit(bucket, w) <==>
              bucket.Taken? && |bucket.symbol.bytes| <= |w| && bucket.WordMatches(Load(w))
    ensures bucket.Taken? ==> BucketCode(bucket) == bucket.symbol.code
    ensures bucket.Icl() < ICL_FREE <==> bucket.Taken?
  {
    if bucket.Taken? {
      var n, c := |bucket.symbol.bytes|, bucket.symbol.code;
      assert bucket.Icl() == (n * 0x1000 + c) * 0x1_0000 + (8 - n) * 8;
      assert bucket.Icl() / 0x1_0000 == n * 0x1000 + c;
    }
  }

  /** Symbols of three bytes or more that start the same way share a slot. */
  lemma SamePrefixSameSlot(a: seq<byte>, b: seq<byte>)
    requires 3 <= |a| && a <= b
    ensures Slot(Load(a)) == Slot(Load(b))
  {
    MaskedLoad(a, 3);
    MaskedLoad(b, 3);
    assert a[..3] == b[..3];
  }

  /** A symbol of three bytes or more that starts the window fills the window's slot. */
  lemma LongMatchInSlot(hashTab: seq<Bucket>, d: Symbols, base: nat, w: seq<byte>, j: nat)
    requires Hashed(hashTab, d, base) && j < |d| && 3 <= |d[j]| && d[j] <= w
    ensures hashTab[Slot(Load(w))] == Taken(Symbol(d[j], base + j))
    ensures hashTab[Slot(Load(w))].WordMatches(Load(w))
  {
    SamePrefixSameSlot(d[j], w);
    MaskedCompareIsPrefix(d[j], w);
  }

  lemma HashHitIsLongest(hashTab: seq<Bucket>, d: Symbols, base: nat, w: seq<byte>, i: nat)
    requires Hashed(hashTab, d, base) && i < |d| && 3 <= |d[i]| <= |w|
    requires hashTab[Slot(Load(w))] == Taken(Symbol(d[i], base + i))
    requires hashTab[Slot(Load(w))].WordMatches(Load(w))
    ensures Longest(d, w) == i
  {
    MaskedCompareIsPrefix(d[i], w);
    forall j | 0 <= j < |d| && d[j] <= w
      ensures j == i || |d[j]| <= 2
    {
      if |d[j]| >= 3 {
        LongMatchInSlot(hashTab, d, base, w, j);
      }
    }
    LongestUnique(d, w, i);
  }

  /** The slot test accepts exactly when some symbol of three bytes or more matches,
      and then there is only one: the longest. */
  lemma HashHit(hashTab: seq<Bucket>, d: Symbols, base: nat, w: seq<byte>)
    requires Hashed(hashTab, d, base) && Lengths(d) && base + |d| <= CODE_MAX
    requires 1 <= |w| <= 8
    ensures var bucket := hashTab[Slot(Load(w))];
      if BucketHit(bucket, w) then
        && bucket.Taken? && Longest(d, w) >= 0 && bucket.symbol.bytes == d[Longest(d, w)]
        && BucketCode(bucket) == base + Longest(d, w)
      else forall j :: 0 <= j < |d| && d[j] <= w ==> |d[j]| <= 2
  {
    hide Load, Slot, Longest;
    var h := Slot(Load(w));
    var bucket := hashTab[h];
    assert BucketOk(d, base, h, bucket);
    IclOrder(bucket, w);
    if BucketHit(bucket, w) {
      var i := bucket.symbol.code - base;
      assert bucket.symbol.bytes == d[i];
      assert bucket == Taken(Symbol(d[i], base + i));
      HashHitIsLongest(hashTab, d, base, w, i);
    } else {
      forall j | 0 <= j < |d| && d[j] <= w ensures |d[j]| <= 2 {
        if |d[j]| >= 3 {
          LongMatchInSlot(hashTab, d, base, w, j);
        }
      }
    }
  }

  /** Without a long match, a two-byte symbol wins over a one-byte symbol. */
  lemma ShortHit(t: Table, d: Symbols, w: seq<byte>)
    requires Indexed(t, d) && 2 <= |w| <= 8
    requires forall j :: 0 <= j < |d| && d[j] <= w ==> |d[j]| <= 2
    ensures var c := Code(t.shortCodes[Pair(w[0], w[1])]);
      if c >= CODE_BASE then c == CodeFor(d, w)
      else forall j :: 0 <= j < |d| && d[j] <= w ==> |d[j]| <= 1
  {
    hide Hashed, BytesIndexed;
    var i := IndexOf(d, [w[0], w[1]]);
    assert t.shortCodes[Pair(w[0], w[1])] == ShortEntry(d, w[0], w[1]);
    if i >= 0 {
      LongestUnique(d, w, i);
    }
  }

  lemma ByteHit(t: Table, d: Symbols, w: seq<byte>)
    requires Indexed(t, d) && 1 <= |w| <= 8
    requires forall j :: 0 <= j < |d| && d[j] <= w ==> |d[j]| <= 1
    ensures Code(t.byteCodes[w[0]]) == CodeFor(d, w)
  {
    hide Hashed, PairsIndexed;
    var i := IndexOf(d, [w[0]]);
    assert t.byteCodes[w[0]] == ByteEntry(d, w[0]);
    if i >= 0 {
      LongestUnique(d, w, i);
    }
  }

  /** The hash, pair and byte lookups together find the longest symbol of the
      whole remaining input, not just of the eight-byte window. */
  lemma FindLongestSymbolCorrect(t: Table, d: Symbols, input: seq<byte>)
    requires Indexed(t, d) && input != []
    ensures FindLongestSymbol(t, input[..Min(8, |input|)]) == CodeFor(d, input)
  {
    hide BytesIndexed, PairsIndexed, Hashed, Longest, Load, Slot;
    var w := input[..Min(8, |input|)];
    HashHit(t.hashTab, d, CODE_BASE, w);
    if forall j :: 0 <= j < |d| && d[j] <= w ==> |d[j]| <= 2 {
      if |w| >= 2 {
        ShortHit(t, d, w);
      }
      if forall j :: 0 <= j < |d| && d[j] <= w ==> |d[j]| <= 1 {
        ByteHit(t, d, w);
      }
    }
    forall j | 0 <= j < |d| ensures d[j] <= w <==> d[j] <= input {
    }
    LongestSamePrefixes(d, w, input);
  }

  // ------------------------------------------------------------ construction

  /** Contents of a table no symbol was added to. */
  ghost predicate Fresh(t: Table) {
    && Sized(t)
    && (forall b: byte :: t.byteCodes[b] == LEN_UNIT + b)
    && (forall a: byte, b: byte :: t.shortCodes[Pair(a, b)] == LEN_UNIT + a)
    && (forall h :: 0 <= h < HASH_SIZE ==> t.hashTab[h] == Free)
    && (forall b: byte :: t.symbols[b] == Symbol([b], b))
    && (forall l :: 0 <= l < 9 ==> t.lenHisto[l] == 0)
    && t.nSymbols == 0
  }

  lemma FreshIsIndexed(t: Table)
    requires Fresh(t)
    ensures Indexed(t, [])
  {
    forall b: byte ensures t.byteCodes[b] == ByteEntry([], b) {
    }
    forall a: byte, b: byte ensures t.shortCodes[Pair(a, b)] == ShortEntry([], a, b) {
    }
  }

  /** The table after `s` was accepted. */
  function Added(t: Table, s: seq<byte>): (r: Table)
    requires Sized(t) && t.nSymbols < CODE_MAX - CODE_BASE && 1 <= |s| <= 8
    ensures Sized(r)
  {
    var code := CODE_BASE + t.nSymbols;
    var u := t.(symbols := t.symbols[code := Symbol(s, code)],
                lenHisto := t.lenHisto[|s| - 1 := t.lenHisto[|s| - 1] + 1],
                nSymbols := t.nSymbols + 1);
    if |s| == 1 then u.(byteCodes := t.byteCodes[s[0] := LEN_UNIT + code])
    else if |s| == 2 then u.(shortCodes := t.shortCodes[Pair(s[0], s[1]) := 2 * LEN_UNIT + code])
    else u.(hashTab := t.hashTab[Slot(Load(s)) := Taken(Symbol(s, code))])
  }

  /** A symbol is refused exactly when it needs a hash slot that is in use. */
  predicate Accepts(t: Table, s: seq<byte>)
    requires Sized(t)
  {
    |s| >= 3 ==> t.hashTab[Slot(Load(s))].Free?
  }

  /** Some long symbol holds the hash slot that `s` needs. */
  predicate SlotHeld(d: Symbols, s: seq<byte>) {
    |s| >= 3 && exists i :: 0 <= i < |d| && |d[i]| >= 3 && Slot(Load(d[i])) == Slot(Load(s))
  }

  /** Which symbols are refused is decided by the symbols alone. */
  lemma AcceptsIff(t: Table, d: Symbols, s: seq<byte>)
    requires Indexed(t, d)
    ensures Accepts(t, s) <==> !SlotHeld(d, s)
  {
    hide Load, Slot;
    var h := Slot(Load(s));
    assert BucketOk(d, CODE_BASE, h, t.hashTab[h]);
    if t.hashTab[h].Taken? {
      assert Slot(Load(d[t.hashTab[h].symbol.code - CODE_BASE])) == h;
    }
  }

  lemma IndexOfAppend(d: Symbols, s: seq<byte>, x: seq<byte>)
    ensures IndexOf(d + [s], x) == if s == x then |d| else IndexOf(d, x)
  {
    assert (d + [s])[..|d|] == d;
  }

  lemma AddedSymbolsStored(t: Table, d: Symbols, s: seq<byte>)
    requires Indexed(t, d) && |d| < CODE_MAX - CODE_BASE && 1 <= |s| <= 8
    ensures SymbolsStored(Added(t, s), d + [s])
  {
    var r := Added(t, s);
    assert (d + [s])[..|d|] == d;
    forall l | 0 <= l < 9 ensures r.lenHisto[l] == CountLength(d + [s], l + 1) {
      assert CountLength(d + [s], l + 1) == CountLength(d, l + 1) + (if |s| == l + 1 then 1 else 0);
    }
  }

  lemma AddedBytesIndexed(t: Table, d: Symbols, s: seq<byte>)
    requires Indexed(t, d) && |d| < CODE_MAX - CODE_BASE && 1 <= |s| <= 8
    ensures BytesIndexed(Added(t, s), d + [s])
  {
    forall b: byte ensures Added(t, s).byteCodes[b] == ByteEntry(d + [s], b) {
      IndexOfAppend(d, s, [b]);
      assert s == [b] <==> |s| == 1 && s[0] == b;
      assert t.byteCodes[b] == ByteEntry(d, b);
    }
  }

  lemma AddedPairsIndexed(t: Table, d: Symbols, s: seq<byte>)
    requires Indexed(t, d) && |d| < CODE_MAX - CODE_BASE && 1 <= |s| <= 8
    ensures PairsIndexed(Added(t, s), d + [s])
  {
    forall a: byte, b: byte ensures Added(t, s).shortCodes[Pair(a, b)] == ShortEntry(d + [s], a, b) {
      IndexOfAppend(d, s, [a, b]);
      assert s == [a, b] <==> |s| == 2 && s[0] == a && s[1] == b;
      assert t.shortCodes[Pair(a, b)] == ShortEntry(d, a, b);
    }
  }

  lemma AddedHashed(t: Table, d: Symbols, s: seq<byte>)
    requires Indexed(t, d) && |d| < CODE_MAX - CODE_BASE && 1 <= |s| <= 8 && Accepts(t, s)
    ensures Hashed(Added(t, s).hashTab, d + [s], CODE_BASE)
  {
    var r, e := Added(t, s), d + [s];
    forall h | 0 <= h < HASH_SIZE ensures BucketOk(e, CODE_BASE, h, r.hashTab[h]) {
      assert BucketOk(d, CODE_BASE, h, t.hashTab[h]);
    }
    forall i | 0 <= i < |e| && |e[i]| >= 3
      ensures r.hashTab[Slot(Load(e[i]))] == Taken(Symbol(e[i], CODE_BASE + i))
    {
      if i < |d| {
        assert e[i] == d[i];
        assert t.hashTab[Slot(Load(d[i]))] == Taken(Symbol(d[i], CODE_BASE + i));
      }
    }
  }

  /** Accepting a symbol extends the represented dictionary by it, even when the
      same one- or two-byte symbol is already there. */
  lemma AddedIndexed(t: Table, d: Symbols, s: seq<byte>)
    requires Indexed(t, d) && |d| < CODE_MAX - CODE_BASE && 1 <= |s| <= 8 && Accepts(t, s)
    ensures Indexed(Added(t, s), d + [s])
  {
    AddedSymbolsStored(t, d, s);
    AddedBytesIndexed(t, d, s);
    AddedPairsIndexed(t, d, s);
    AddedHashed(t, d, s);
  }

  function SymbolsOf(symbols: seq<Symbol>, n: nat): (d: Symbols)
    requires CODE_BASE + n <= |symbols|
    ensures |d| == n && forall i :: 0 <= i < n ==> d[i] == symbols[CODE_BASE + i].bytes
  {
    seq(n, i requires 0 <= i < n => symbols[CODE_BASE + i].bytes)
  }
}
