/** Compressor, serializer, importer and decoder put together. */
module RoundTrip {
  import opened Bytes
  import opened Dictionary
  import opened SymbolTables
  import opened TableUpdates
  import opened Finalizing
  import opened FinalTables
  import opened Compression
  import opened Decompression
  import opened Header
  import opened Training
  import opened TableBuilding

  /** Compresses a line with any variant, ships the table through its serialized
      form, and decodes into a buffer of any size.  The buffer shows what the variant
      saw of the line: all of it, unless `Skips` holds and a zero stands before the last
      byte of a chunk. */
  method CompressExportImportDecompress(c: Coder, symbols: Symbols, line: seq<byte>, size: nat,
                                        noSuffixOpt: bool, avoidBranch: bool)
    returns (length: nat, shown: seq<byte>)
    requires Final(c, symbols) && TerminatorFree(symbols, c.terminator)
    ensures var seen := SeenLine(Skips(c.zeroTerminated, noSuffixOpt, avoidBranch), line);
      length == |seen| && shown == Shown(seen, size, c.zeroTerminated)
    ensures length == |line| && shown == Shown(line, size, c.zeroTerminated) <==>
      !Skips(c.zeroTerminated, noSuffixOpt, avoidBranch) || ZeroEndsChunks(line)
  {
    hide Final, TerminatorFree, Encodable, EncodeLine, SeenLine, Skips, ZeroEndsChunks, Represents, VersionMatches,
         HeaderOf, Shown;
    FinalEncodable(c, symbols);
    ghost var skips := Skips(c.zeroTerminated, noSuffixOpt, avoidBranch);
    var code := CompressOne(c, symbols, line, noSuffixOpt, avoidBranch);
    var dec := ShipTable(c, symbols);
    DecodeEncodeLine(symbols, skips, line);
    SeenLineWholeIff(skips, line);
    var output := new byte[size](_ => 0);
    var underflow;
    length, underflow := Decompress(dec, code, output, symbols);
    shown := output[..Min(length, size)];
  }

  method CompressOne(c: Coder, symbols: Symbols, line: seq<byte>, noSuffixOpt: bool, avoidBranch: bool)
    returns (code: seq<byte>)
    requires Final(c, symbols) && TerminatorFree(symbols, c.terminator)
    ensures code == EncodeLine(symbols, Skips(c.zeroTerminated, noSuffixOpt, avoidBranch), line)
  {
    hide Final, TerminatorFree, Encodable, EncodeLine, Skips;
    FinalEncodable(c, symbols);
    ghost var skips := Skips(c.zeroTerminated, noSuffixOpt, avoidBranch);
    var out := new byte[2 * |line| + 7](_ => 0);
    var lenOut, strOut := new nat[1](_ => 0), new nat[1](_ => 0);
    SingleLine(symbols, skips, line);
    var done := CompressBulk(c, [line], out, lenOut, strOut, noSuffixOpt, avoidBranch, symbols);
    LocatedLine(symbols, skips, [line], 1, 0);
    code := out[strOut[0]..strOut[0] + lenOut[0]];
  }

  lemma SingleLine(r: Symbols, skips: bool, line: seq<byte>)
    requires Encodable(r)
    ensures TotalLength([line]) == |line| && [line][..1] == [line]
    ensures EncodeLines(r, skips, [line]) == EncodeLine(r, skips, line) && EncodeLines(r, skips, [line][..0]) == []
  {
    assert [line][..0] == [];
    assert EncodeLines(r, skips, [line]) == EncodeLines(r, skips, [line][..0]) + EncodeLine(r, skips, line);
  }

  /** `fsst_decoder`: export the table and import it again. */
  method ShipTable(c: Coder, symbols: Symbols) returns (dec: Decoder)
    requires Final(c, symbols)
    ensures Represents(dec, symbols) && dec.zeroTerminated == c.zeroTerminated
  {
    hide Final, Represents, VersionMatches, HeaderOf;
    HeaderSize(c, symbols);
    var buf := new byte[MAX_HEADER](_ => 0);
    var written := Export(c, symbols, buf);
    HeaderVersion(c, symbols, buf[..written]);
    var read;
    read, dec := Import(buf[..written], c, symbols);
    assert read == written;
  }

  /** Renumbering does not touch the bytes of any symbol. */
  lemma RenumberedTerminatorFree(d: Symbols, keepFirst: bool, r: Symbols, terminator: byte)
    requires Renumbered(d, keepFirst, r) && TerminatorFree(d, terminator)
    ensures TerminatorFree(r, terminator)
  {
    forall c | 0 <= c < |r| && |r[c]| >= 2 ensures terminator !in r[c] {
      var i := NewCodeOnto(d, keepFirst, c);
      assert r[c] == d[i];
    }
  }

  /** Chooses a sample, trains a table on it and finalizes the table, in either terminator
      mode.  Whatever the text and the random choices, the result is a table the round trip
      holds for. */
  method BuildTable(lines: seq<seq<byte>>, random: nat -> nat, visit: (nat, nat) -> nat, zeroTerminated: bool,
                    terminator: byte, charSigned: bool)
    returns (c: Coder, symbols: Symbols)
    requires lines != [] && FilterExact(terminator, charSigned) && (zeroTerminated ==> terminator == 0)
    ensures Final(c, symbols) && TerminatorFree(symbols, c.terminator)
    ensures c.zeroTerminated == zeroTerminated && c.terminator == terminator
  {
    hide Final, TerminatorFree, Healthy, Indexed, Renumbered, Encodable, Outcome, Succession, BestOf, NextCandidates;
    var sample := MakeSample(lines, random);
    var st;
    ghost var trials, b;
    st, trials, b := Train(sample, visit, zeroTerminated, terminator, charSigned);
    HealthySymbols(st, charSigned);
    ghost var d := st.Symbols();
    TrainedFinalizable(st);
    ghost var r := Finalize(st);
    RenumberedTerminatorFree(d, zeroTerminated, r, terminator);
    c := CoderOf(st);
    var coded := st.symbols[..st.nSymbols];
    symbols := seq(|coded|, k requires 0 <= k < |coded| => coded[k].bytes);
    assert symbols == r;
  }

  lemma TrainedFinalizable(st: SymbolTable)
    requires st.Valid() && Encodable(st.Symbols()) && st.Symbols() != [] && st.Symbols()[0] == [st.terminator]
    requires st.zeroTerminated ==> st.terminator == 0
    ensures Finalizable(st) && Distinct(st.Symbols())
  {
  }

  /** The whole codec: a table built from any text compresses any line, with any variant,
      and after export, import and decompression the buffer shows the line: all of it if
      and only if the variant does not step over a byte behind a zero. */
  method TrainAndRoundTrip(lines: seq<seq<byte>>, random: nat -> nat, visit: (nat, nat) -> nat, zeroTerminated: bool,
                           terminator: byte, charSigned: bool, line: seq<byte>, size: nat,
                           noSuffixOpt: bool, avoidBranch: bool)
    returns (length: nat, shown: seq<byte>)
    requires lines != [] && FilterExact(terminator, charSigned) && (zeroTerminated ==> terminator == 0)
    ensures var seen := SeenLine(Skips(zeroTerminated, noSuffixOpt, avoidBranch), line);
      length == |seen| && shown == Shown(seen, size, zeroTerminated)
    ensures length == |line| && shown == Shown(line, size, zeroTerminated) <==>
      !Skips(zeroTerminated, noSuffixOpt, avoidBranch) || ZeroEndsChunks(line)
  {
    hide Final, TerminatorFree, SeenLine, Skips, ZeroEndsChunks, Shown;
    var c, symbols := BuildTable(lines, random, visit, zeroTerminated, terminator, charSigned);
    length, shown := CompressExportImportDecompress(c, symbols, line, size, noSuffixOpt, avoidBranch);
  }
}
