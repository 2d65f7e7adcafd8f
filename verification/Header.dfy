/** Serialized symbol tables: `fsst_export` and `fsst_import`.

    The header stores only the length histogram and the symbol bytes in code
    order; the importer rebuilds the length of every code from the grouping. */
module Header {
  import opened Bytes
  import opened Dictionary
  import opened SymbolTables
  import opened Finalizing
  import opened FinalTables
  import Compression
  import opened Decompression

  const VERSION := 20190218
  const MAX_HEADER := 8 + 1 + 8 + 2048 + 1

  /** The low `k` bytes of a number, little-endian. */
  function ToBytes(n: nat, k: nat): (s: seq<byte>)
    ensures |s| == k
  {
    if k == 0 then [] else [n % 256] + ToBytes(n / 256, k - 1)
  }

  lemma {:induction false} LoadToBytes(n: nat, k: nat)
    ensures Load(ToBytes(n, k)) == Masked(n, k)
  {
    if k > 0 {
      LoadToBytes(n / 256, k - 1);
    }
  }

  function VersionWord(c: Coder): nat {
    VERSION * 0x1_0000_0000 + c.suffixLim * 0x100_0000 + c.terminator * 0x1_0000 + c.nSymbols * 0x100 + 1
  }

  /** The version field, which the importer tests, is the upper half of the word. */
  predicate VersionMatches(buf: seq<byte>)
    requires |buf| >= 8
  {
    Load(buf[..8]) / 0x1_0000_0000 == VERSION
  }

  function Pow256(k: nat): nat {
    if k == 0 then 1 else 256 * Pow256(k - 1)
  }

  lemma {:induction false} MaskedSmall(n: nat, k: nat)
    requires n < Pow256(k)
    ensures Masked(n, k) == n
  {
    if k > 0 {
      MaskedSmall(n / 256, k - 1);
    }
  }

  lemma Pow256Of8()
    ensures Pow256(8) == 0x1_0000_0000_0000_0000
  {
    assert Pow256(2) == 0x1_0000;
    assert Pow256(4) == 0x1_0000_0000;
    assert Pow256(6) == 0x1_0000_0000_0000;
  }

  lemma VersionRoundTrip(c: Coder)
    requires c.suffixLim <= 255 && c.nSymbols <= 255
    ensures VersionMatches(ToBytes(VersionWord(c), 8))
  {
    var s := ToBytes(VersionWord(c), 8);
    assert s[..8] == s;
    LoadToBytes(VersionWord(c), 8);
    Pow256Of8();
    MaskedSmall(VersionWord(c), 8);
  }

  function Flatten(ss: seq<seq<byte>>): (r: seq<byte>) {
    if ss == [] then [] else Flatten(ss[..|ss| - 1]) + ss[|ss| - 1]
  }

  lemma {:induction false} FlattenBound(ss: seq<seq<byte>>)
    requires Lengths(ss)
    ensures |Flatten(ss)| <= 8 * |ss|
  {
    if ss != [] {
      FlattenBound(ss[..|ss| - 1]);
    }
  }

  function HistoBytes(histo: seq<nat>): (s: seq<byte>)
    requires |histo| == 9
    ensures |s| == 8
  {
    [histo[0] % 256, histo[1] % 256, histo[2] % 256, histo[3] % 256,
     histo[4] % 256, histo[5] % 256, histo[6] % 256, histo[7] % 256]
  }

  /** The serialized form of a finished table. */
  function HeaderOf(c: Coder, r: Symbols): seq<byte>
    requires |c.lenHisto| == 9 && Flag(c.zeroTerminated) <= |r|
  {
    ToBytes(VersionWord(c), 8) + [Flag(c.zeroTerminated)] + HistoBytes(c.lenHisto)
    + Flatten(r[Flag(c.zeroTerminated)..])
  }

  lemma HeaderSize(c: Coder, r: Symbols)
    requires Final(c, r)
    ensures |c.lenHisto| == 9 && Flag(c.zeroTerminated) <= |r|
    ensures 17 <= |HeaderOf(c, r)| <= 17 + 8 * 255 <= MAX_HEADER
  {
    FlattenBound(r[Flag(c.zeroTerminated)..]);
  }

  lemma FlattenStep(ss: seq<seq<byte>>, k: nat)
    requires k < |ss|
    ensures Flatten(ss[..k + 1]) == Flatten(ss[..k]) + ss[k]
  {
    assert ss[..k + 1][..k] == ss[..k];
  }

  lemma {:induction false} FlattenMonotone(ss: seq<seq<byte>>, k: nat)
    requires k <= |ss|
    ensures Flatten(ss[..k]) <= Flatten(ss)
    decreases |ss|
  {
    if k < |ss| {
      FlattenMonotone(ss[..|ss| - 1], k);
      assert ss[..|ss| - 1][..k] == ss[..k];
    } else {
      assert ss[..k] == ss;
    }
  }

  /** Copies `s` into the buffer at `pos`. */
  method Put(buf: array<byte>, pos: nat, s: seq<byte>)
    requires pos + |s| <= buf.Length
    modifies buf
    ensures buf[..pos + |s|] == old(buf[..pos]) + s
  {
    for k := 0 to |s|
      invariant buf[..pos + k] == old(buf[..pos]) + s[..k]
    {
      buf[pos + k] := s[k];
    }
    assert s[..|s|] == s;
  }

  /** Writes the symbols in code order behind the fixed fields. */
  method PutSymbols(buf: array<byte>, symbols: Symbols, from: nat) returns (pos: nat)
    requires from <= |symbols| && 17 + |Flatten(symbols[from..])| <= buf.Length
    modifies buf
    ensures pos == 17 + |Flatten(symbols[from..])|
    ensures buf[..pos] == old(buf[..17]) + Flatten(symbols[from..])
  {
    pos := 17;
    ghost var used, fixed := symbols[from..], buf[..17];
    for i := from to |symbols|
      invariant pos == 17 + |Flatten(used[..i - from])| <= buf.Length
      invariant buf[..pos] == fixed + Flatten(used[..i - from])
    {
      FlattenStep(used, i - from);
      FlattenMonotone(used, i - from + 1);
      Put(buf, pos, symbols[i]);
      AppendIsAssociative(fixed, Flatten(used[..i - from]), symbols[i]);
      pos := pos + |symbols[i]|;
    }
    assert used[..|used|] == used;
  }

  lemma AppendIsAssociative(a: seq<byte>, b: seq<byte>, c: seq<byte>)
    ensures (a + b) + c == a + (b + c)
  {
  }

  /** Where the importer finds the bytes of the `k`-th stored symbol. */
  function SymbolPos(used: Symbols, k: nat): nat
    requires k <= |used|
  {
    17 + |Flatten(used[..k])|
  }

  lemma StoredSymbol(c: Coder, r: Symbols, buf: seq<byte>, k: nat)
    requires |c.lenHisto| == 9 && Flag(c.zeroTerminated) <= |r|
    requires HeaderOf(c, r) <= buf && k < |r| - Flag(c.zeroTerminated)
    ensures var used := r[Flag(c.zeroTerminated)..]; var p := SymbolPos(used, k);
      && p + |used[k]| <= |buf| && buf[p..p + |used[k]|] == used[k]
      && SymbolPos(used, k + 1) == p + |used[k]|
  {
    hide Flatten, ToBytes, HistoBytes;
    var used := r[Flag(c.zeroTerminated)..];
    FlattenStep(used, k);
    FlattenMonotone(used, k + 1);
    var fixed := ToBytes(VersionWord(c), 8) + [Flag(c.zeroTerminated)] + HistoBytes(c.lenHisto);
    SliceAt(fixed, Flatten(used), Flatten(used[..k]), used[k], buf);
  }

  lemma SliceAt(a: seq<byte>, whole: seq<byte>, x: seq<byte>, y: seq<byte>, buf: seq<byte>)
    requires x + y <= whole && a + whole <= buf
    ensures var p := |a| + |x|; p + |y| <= |buf| && buf[p..p + |y|] == y
  {
    var p := |a| + |x|;
    forall i | 0 <= i < |y| ensures buf[p + i] == y[i] {
      assert (x + y)[|x| + i] == y[i];
      assert whole[|x| + i] == y[i];
      assert (a + whole)[|a| + (|x| + i)] == y[i];
    }
  }

  // ------------------------------------------------------------------ layout

  /** The bytes of a serialized table, one by one: endianness marker, symbol count,
      terminator, suffix limit, the version number 0x0134140A from its low byte on,
      terminator mode, the histogram of lengths one to eight, and the bytes of the symbols
      in code order without the kept terminator. */
  ghost predicate Layout(h: seq<byte>, c: Coder, r: Symbols) {
    var first := if c.zeroTerminated then 1 else 0;
    && |c.lenHisto| == 9 && first <= |r| && |h| == 17 + Compression.TotalLength(r[first..])
    && h[0] == 1 && h[1] as int == c.nSymbols && h[2] == c.terminator && h[3] as int == c.suffixLim
    && h[4] == 0x0A && h[5] == 0x14 && h[6] == 0x34 && h[7] == 0x01 && h[8] as int == first
    && (forall i :: 0 <= i < 8 ==> h[9 + i] as int == c.lenHisto[i] % 256)
    && (forall k :: 0 <= k < |r| - first ==> StoredAt(h, r[first..], k))
  }

  ghost predicate StoredAt(h: seq<byte>, used: Symbols, k: nat)
    requires k < |used|
  {
    var p := 17 + Compression.TotalLength(used[..k]);
    p + |used[k]| <= |h| && h[p..p + |used[k]|] == used[k]
  }

  lemma {:induction false} FlattenLength(ss: seq<seq<byte>>)
    ensures |Flatten(ss)| == Compression.TotalLength(ss)
  {
    if ss != [] {
      FlattenLength(ss[..|ss| - 1]);
    }
  }

  /** The low byte of a number, and what the others belong to. */
  lemma ToBytesStep(n: nat, low: nat, rest: nat, k: nat)
    requires k > 0 && low < 256 && n == 256 * rest + low
    ensures ToBytes(n, k) == [low] + ToBytes(rest, k - 1)
  {
  }

  lemma VersionBytes(c: Coder)
    requires c.suffixLim <= 255 && c.nSymbols <= 255
    ensures ToBytes(VersionWord(c), 8) ==
      [1, c.nSymbols, c.terminator, c.suffixLim, 0x0A, 0x14, 0x34, 0x01]
  {
    hide ToBytes;
    var w3 := VERSION * 256 + c.suffixLim;
    var w2 := w3 * 256 + c.terminator as int;
    var w1 := w2 * 256 + c.nSymbols;
    ToBytesStep(VersionWord(c), 1, w1, 8);
    ToBytesStep(w1, c.nSymbols, w2, 7);
    ToBytesStep(w2, c.terminator, w3, 6);
    ToBytesStep(w3, c.suffixLim, VERSION, 5);
    ToBytesStep(VERSION, 0x0A, 0x13414, 4);
    ToBytesStep(0x13414, 0x14, 0x134, 3);
    ToBytesStep(0x134, 0x34, 1, 2);
    ToBytesStep(1, 1, 0, 1);
    NoBytes();
  }

  lemma NoBytes()
    ensures ToBytes(0, 0) == []
  {
  }

  lemma FixedLayout(c: Coder, r: Symbols)
    requires |c.lenHisto| == 9 && c.suffixLim <= 255 && c.nSymbols <= 255 && Flag(c.zeroTerminated) <= |r|
    ensures var h := HeaderOf(c, r);
      && |h| >= 17
      && h[0] == 1 && h[1] as int == c.nSymbols && h[2] == c.terminator && h[3] as int == c.suffixLim
      && h[4] == 0x0A && h[5] == 0x14 && h[6] == 0x34 && h[7] == 0x01
      && h[8] as int == (if c.zeroTerminated then 1 else 0)
      && (forall i :: 0 <= i < 8 ==> h[9 + i] as int == c.lenHisto[i] % 256)
  {
    hide ToBytes, VersionWord, Flatten;
    VersionBytes(c);
  }

  /** Every header is laid out that way. */
  lemma HeaderLayout(c: Coder, r: Symbols)
    requires Final(c, r)
    ensures |c.lenHisto| == 9 && Flag(c.zeroTerminated) <= |r| && Layout(HeaderOf(c, r), c, r)
  {
    hide Lookups, ToBytes, VersionWord, Flatten, HistoBytes;
    HeaderSize(c, r);
    FixedLayout(c, r);
    var used, h := r[Flag(c.zeroTerminated)..], HeaderOf(c, r);
    FlattenLength(used);
    forall k | 0 <= k < |used| ensures StoredAt(h, used, k) {
      StoredSymbol(c, r, h, k);
      FlattenLength(used[..k]);
    }
  }

  /** Serializes a finished table into a buffer of maximal header size. */
  method Export(c: Coder, symbols: Symbols, buf: array<byte>) returns (pos: nat)
    requires Final(c, symbols) && buf.Length >= MAX_HEADER
    modifies buf
    ensures pos == |HeaderOf(c, symbols)| <= MAX_HEADER && buf[..pos] == HeaderOf(c, symbols)
    ensures Layout(buf[..pos], c, symbols)
  {
    hide Final, ToBytes, HistoBytes, Flatten, Layout;
    HeaderSize(c, symbols);
    HeaderLayout(c, symbols);
    Put(buf, 0, ToBytes(VersionWord(c), 8));
    Put(buf, 8, [Flag(c.zeroTerminated)]);
    Put(buf, 9, HistoBytes(c.lenHisto));
    pos := PutSymbols(buf, symbols, Flag(c.zeroTerminated));
  }

  // ------------------------------------------------------------------ import

  /** The first `code` entries of the decoder hold the first symbols, zero-padded. */
  ghost predicate Rebuilt(r: Symbols, len: seq<nat>, symbol: seq<seq<byte>>, code: nat) {
    && |len| == 255 && |symbol| == 255 && code <= |r| <= 255
    && forall k :: 0 <= k < code ==>
         len[k] == |r[k]| && |symbol[k]| == 8 && symbol[k][..Min(8, |r[k]|)] == r[k]
  }

  lemma RebuiltStep(r: Symbols, len: seq<nat>, symbol: seq<seq<byte>>, code: nat)
    requires Rebuilt(r, len, symbol, code) && code < |r| && |r[code]| <= 8
    ensures Rebuilt(r, len[code := |r[code]|], symbol[code := r[code] + Zeros(8 - |r[code]|)], code + 1)
  {
  }

  /** Reads one symbol. */
  method ImportSymbol(buf: seq<byte>, length: nat, code: nat, pos: nat, len: seq<nat>, symbol: seq<seq<byte>>,
                      ghost c: Coder, ghost r: Symbols)
    returns (pos': nat, len': seq<nat>, symbol': seq<seq<byte>>)
    requires |c.lenHisto| == 9 && Flag(c.zeroTerminated) <= code < |r|
    requires HeaderOf(c, r) <= buf && Rebuilt(r, len, symbol, code)
    requires pos == SymbolPos(r[Flag(c.zeroTerminated)..], code - Flag(c.zeroTerminated))
    requires length == |r[code]| <= 8
    ensures Rebuilt(r, len', symbol', code + 1)
    ensures pos' == SymbolPos(r[Flag(c.zeroTerminated)..], code + 1 - Flag(c.zeroTerminated))
  {
    assert |len| == |symbol| == 255 && |r| <= 255;
    hide Rebuilt, HeaderOf, SymbolPos;
    StoredSymbol(c, r, buf, code - Flag(c.zeroTerminated));
    RebuiltStep(r, len, symbol, code);
    var x := buf[pos..pos + length];
    len', symbol' := len[code := length], symbol[code := x + Zeros(8 - length)];
    pos' := pos + length;
  }

  /** Reads the symbols of one length. */
  method ImportRun(buf: seq<byte>, length: nat, count: nat, code0: nat, pos0: nat, len0: seq<nat>,
                   symbol0: seq<seq<byte>>,
                   ghost c: Coder, ghost r: Symbols)
    returns (code: nat, pos: nat, len: seq<nat>, symbol: seq<seq<byte>>)
    requires |c.lenHisto| == 9 && Flag(c.zeroTerminated) <= code0 && code0 + count <= |r|
    requires HeaderOf(c, r) <= buf && Rebuilt(r, len0, symbol0, code0)
    requires pos0 == SymbolPos(r[Flag(c.zeroTerminated)..], code0 - Flag(c.zeroTerminated))
    requires 1 <= length <= 8 && forall k :: code0 <= k < code0 + count ==> |r[k]| == length
    ensures code == code0 + count && Rebuilt(r, len, symbol, code)
    ensures pos == SymbolPos(r[Flag(c.zeroTerminated)..], code - Flag(c.zeroTerminated))
  {
    hide Rebuilt, HeaderOf, SymbolPos;
    code, pos, len, symbol := code0, pos0, len0, symbol0;
    for i := 0 to count
      invariant code == code0 + i && Rebuilt(r, len, symbol, code)
      invariant pos == SymbolPos(r[Flag(c.zeroTerminated)..], code - Flag(c.zeroTerminated))
    {
      pos, len, symbol := ImportSymbol(buf, length, code, pos, len, symbol, c, r);
      code := code + 1;
    }
  }

  lemma {:induction false} StartMonotone(histo: seq<nat>, keepFirst: bool, l: nat)
    requires |histo| == 9 && 2 <= l <= 9
    ensures Start(histo, keepFirst, l) <= Start(histo, keepFirst, 9)
    decreases 9 - l
  {
    if l < 9 {
      StartMonotone(histo, keepFirst, l + 1);
    }
  }

  /** The groups of codes add up to all symbols. */
  lemma SectionsFit(c: Coder, r: Symbols)
    requires Final(c, r)
    ensures |c.lenHisto| == 9 && Flag(c.zeroTerminated) <= c.lenHisto[0]
    ensures forall l :: 1 <= l < 8 ==>
      Start(c.lenHisto, c.zeroTerminated, l + 2) == Start(c.lenHisto, c.zeroTerminated, l + 1) + c.lenHisto[l] <= |r|
    ensures Start(c.lenHisto, c.zeroTerminated, 9) + (c.lenHisto[0] - Flag(c.zeroTerminated)) == |r|
    ensures forall l :: 0 <= l < 8 ==> c.lenHisto[l] <= 255
  {
    hide Lookups, SuffixSplit;
    forall l | 1 <= l < 8 ensures
      Start(c.lenHisto, c.zeroTerminated, l + 2) == Start(c.lenHisto, c.zeroTerminated, l + 1) + c.lenHisto[l] <= |r|
    {
      StartMonotone(c.lenHisto, c.zeroTerminated, l + 2);
    }
    StartMonotone(c.lenHisto, c.zeroTerminated, 2);
  }

  /** What the fixed fields of an exported header say. */
  lemma FixedFields(c: Coder, r: Symbols, buf: seq<byte>)
    requires |c.lenHisto| == 9 && Flag(c.zeroTerminated) <= |r|
    requires forall l :: 0 <= l < 8 ==> c.lenHisto[l] <= 255
    requires HeaderOf(c, r) <= buf
    ensures |buf| >= 17 && buf[8] == Flag(c.zeroTerminated) && buf[9..17] == HistoBytes(c.lenHisto)
    ensures forall l :: 0 <= l < 8 ==> buf[9..17][l] == c.lenHisto[l]
  {
    hide Flatten, ToBytes, VersionWord;
    var v, z, h := ToBytes(VersionWord(c), 8), [Flag(c.zeroTerminated)], HistoBytes(c.lenHisto);
    var rest := Flatten(r[Flag(c.zeroTerminated)..]);
    assert HeaderOf(c, r) == v + z + h + rest;
    SliceAt(v, z + h + rest, [], z, buf);
    SliceAt(v + z, h + rest, [], h, buf);
    assert buf[8..9] == z;
  }

  /** First code that is not read yet before pass `l`: passes 1 to 7 read lengths 2
      to 8, pass 8 the single bytes. */
  function PassStart(c: Coder, n: nat, l: nat): nat
    requires |c.lenHisto| == 9 && 1 <= l <= 9
  {
    if l <= 8 then Start(c.lenHisto, c.zeroTerminated, l + 1) else n
  }

  /** The symbols of a pass all have the length the importer gives them. */
  lemma PassLengths(c: Coder, r: Symbols, l: nat, lenHisto: seq<nat>)
    requires Final(c, r) && 1 <= l <= 8 && |lenHisto| == 8
    requires forall m :: 1 <= m < 8 ==> lenHisto[m] == c.lenHisto[m]
    requires lenHisto[0] == c.lenHisto[0] - Flag(c.zeroTerminated)
    ensures |c.lenHisto| == 9
    ensures PassStart(c, |r|, l) + lenHisto[l % 8] == PassStart(c, |r|, l + 1) <= |r|
    ensures Flag(c.zeroTerminated) <= PassStart(c, |r|, l)
    ensures forall k :: PassStart(c, |r|, l) <= k < PassStart(c, |r|, l + 1) ==> |r[k]| == l % 8 + 1
  {
    hide Final, Start;
    SectionsFit(c, r);
    StartAtLeast(c.lenHisto, c.zeroTerminated, l + 1);
    GroupLengths(c, r, l);
    if l == 8 {
      assert l % 8 == 0;
    } else {
      assert l % 8 == l;
    }
  }

  lemma GroupLengths(c: Coder, r: Symbols, l: nat)
    requires Final(c, r) && 1 <= l <= 8
    ensures |c.lenHisto| == 9
    ensures forall k :: PassStart(c, |r|, l) <= k < PassStart(c, |r|, l + 1) && k < |r| ==> |r[k]| == l % 8 + 1
  {
    hide Lookups, SuffixSplit, Encodable, Start;
  }

  method ImportSymbols(buf: seq<byte>, zeroTerminated: bool, lenHisto: seq<nat>, ghost c: Coder, ghost r: Symbols)
    returns (code: nat, pos: nat, len: seq<nat>, symbol: seq<seq<byte>>)
    requires Final(c, r) && HeaderOf(c, r) <= buf && zeroTerminated == c.zeroTerminated && |lenHisto| == 8
    requires forall m :: 1 <= m < 8 ==> lenHisto[m] == c.lenHisto[m]
    requires lenHisto[0] == c.lenHisto[0] - Flag(c.zeroTerminated)
    ensures code == |r| && Rebuilt(r, len, symbol, code) && pos == |HeaderOf(c, r)|
  {
    hide Final, HeaderOf, Rebuilt, SymbolPos, Start;
    HeaderSize(c, r);
    ImportStart(c, r);
    len, symbol := seq(255, _ => 0)[0 := 1], seq(255, _ => Zeros(8));
    code, pos := Flag(zeroTerminated), 17;
    ghost var z := Flag(zeroTerminated);
    for l := 1 to 9
      invariant code == PassStart(c, |r|, l)
      invariant z <= code <= |r| && Rebuilt(r, len, symbol, code)
      invariant pos == SymbolPos(r[z..], code - z)
    {
      PassLengths(c, r, l, lenHisto);
      code, pos, len, symbol := ImportRun(buf, l % 8 + 1, lenHisto[l % 8], code, pos, len, symbol, c, r);
    }
    ImportEnd(c, r);
  }

  lemma ImportStart(c: Coder, r: Symbols)
    requires Final(c, r)
    ensures |c.lenHisto| == 9 && Flag(c.zeroTerminated) <= |r|
    ensures PassStart(c, |r|, 1) == Flag(c.zeroTerminated)
    ensures SymbolPos(r[Flag(c.zeroTerminated)..], 0) == 17
    ensures Rebuilt(r, seq(255, _ => 0)[0 := 1], seq(255, _ => Zeros(8)), Flag(c.zeroTerminated))
  {
    hide Lookups, SuffixSplit;
    if c.zeroTerminated {
      assert r[0] == [0] && Zeros(8)[..1] == [0];
    }
  }

  lemma ImportEnd(c: Coder, r: Symbols)
    requires Final(c, r)
    ensures |c.lenHisto| == 9 && Flag(c.zeroTerminated) <= |r|
    ensures SymbolPos(r[Flag(c.zeroTerminated)..], |r| - Flag(c.zeroTerminated)) == |HeaderOf(c, r)|
  {
    hide Lookups, SuffixSplit;
    var used := r[Flag(c.zeroTerminated)..];
    assert used[..|used|] == used;
  }

  /** Rebuilds a decoder from a serialized table.  Consumes exactly the header, or
      reports 0 when the version field is another one. */
  method Import(buf: seq<byte>, ghost c: Coder, ghost r: Symbols) returns (pos: nat, dec: Decoder)
    requires |buf| >= 8 && (VersionMatches(buf) ==> Final(c, r) && HeaderOf(c, r) <= buf)
    ensures !VersionMatches(buf) ==> pos == 0
    ensures VersionMatches(buf) ==>
      pos == |HeaderOf(c, r)| && Represents(dec, r) && dec.zeroTerminated == c.zeroTerminated
  {
    hide Final, HeaderOf, Represents;
    if Load(buf[..8]) / 0x1_0000_0000 != VERSION {
      return 0, Decoder([], [], false);
    }
    SectionsFit(c, r);
    HeaderSize(c, r);
    FixedFields(c, r, buf);
    var zeroTerminated := buf[8] % 2 == 1;
    var lenHisto: seq<nat> := buf[9..17];
    if zeroTerminated {
      lenHisto := lenHisto[0 := lenHisto[0] - 1];
    }
    var code, len, symbol;
    code, pos, len, symbol := ImportSymbols(buf, zeroTerminated, lenHisto, c, r);
    while code < 255
      invariant |r| <= code <= 255 && Rebuilt(r, len, symbol, |r|)
      invariant forall k :: |r| <= k < code ==> len[k] == 8 && symbol[k] == CORRUPT
    {
      len, symbol := len[code := 8], symbol[code := CORRUPT];
      code := code + 1;
    }
    dec := Decoder(len, symbol, zeroTerminated);
    RebuiltRepresents(c, r, dec);
  }

  lemma RebuiltRepresents(c: Coder, r: Symbols, dec: Decoder)
    requires Final(c, r) && Rebuilt(r, dec.len, dec.symbol, |r|)
    requires forall k :: |r| <= k < 255 ==> dec.len[k] == 8 && dec.symbol[k] == CORRUPT
    ensures Represents(dec, r)
  {
    hide Lookups, SuffixSplit, Grouped;
  }

  /** A header starts with the version the importer expects. */
  lemma HeaderVersion(c: Coder, r: Symbols, buf: seq<byte>)
    requires Final(c, r) && |c.lenHisto| == 9 && HeaderOf(c, r) <= buf
    ensures |buf| >= 8 && VersionMatches(buf)
  {
    hide Lookups, Grouped, Flatten, ToBytes, VersionWord;
    VersionRoundTrip(c);
    var v := ToBytes(VersionWord(c), 8);
    assert buf[..8] == v && v[..8] == v;
  }
}
