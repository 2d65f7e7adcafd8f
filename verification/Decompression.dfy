/** The decoder (`fsst_decompress`): four codes at a time with eight-byte stores,
    a tail of at most three bytes, and a truncating loop near the buffer end. */
module Decompression {
  import opened Bytes
  import opened Dictionary

  // ------------------------------------------------------------- escape mask

  function BitOf(x: byte, weight: int, v: bv8): bv8
    requires weight > 0
  {
    if x / weight % 2 == 1 then v else 0
  }

  function Bits(x: byte): bv8 {
    BitOf(x, 1, 1) | BitOf(x, 2, 2) | BitOf(x, 4, 4) | BitOf(x, 8, 8) |
    BitOf(x, 16, 16) | BitOf(x, 32, 32) | BitOf(x, 64, 64) | BitOf(x, 128, 128)
  }

  /** Four bytes loaded into one little-endian word. */
  function Pack(a: bv8, b: bv8, c: bv8, d: bv8): bv32 {
    (a as bv32) | ((b as bv32) << 8) | ((c as bv32) << 16) | ((d as bv32) << 24)
  }

  function EscapeMask(x: bv32): bv32 {
    (x & 0x80808080) & ((((!x) & 0x7F7F7F7F) + 0x7F7F7F7F) ^ 0x80808080)
  }

  /** Number of trailing zero bits of a 32-bit vector. */
  function Ctz32(x: bv32): nat
    requires x != 0
    decreases x
  {
    if x & 1 == 1 then 0 else 1 + Ctz32(x >> 1)
  }

  lemma CtzSkipsByte(m: bv32)
    requires m != 0 && m & 0xFF == 0
    ensures m >> 8 != 0 && Ctz32(m) == 8 + Ctz32(m >> 8)
  {
    assert Ctz32(m) == 1 + Ctz32(m >> 1);
    assert Ctz32(m >> 1) == 1 + Ctz32(m >> 2) by { assert (m >> 1) >> 1 == m >> 2; }
    assert Ctz32(m >> 2) == 1 + Ctz32(m >> 3) by { assert (m >> 2) >> 1 == m >> 3; }
    assert Ctz32(m >> 3) == 1 + Ctz32(m >> 4) by { assert (m >> 3) >> 1 == m >> 4; }
    assert Ctz32(m >> 4) == 1 + Ctz32(m >> 5) by { assert (m >> 4) >> 1 == m >> 5; }
    assert Ctz32(m >> 5) == 1 + Ctz32(m >> 6) by { assert (m >> 5) >> 1 == m >> 6; }
    assert Ctz32(m >> 6) == 1 + Ctz32(m >> 7) by { assert (m >> 6) >> 1 == m >> 7; }
    assert Ctz32(m >> 7) == 1 + Ctz32(m >> 8) by { assert (m >> 7) >> 1 == m >> 8; }
  }

  lemma CtzOfFlaggedByte(m: bv32)
    requires m & 0xFF == 0x80
    ensures Ctz32(m) == 7
  {
    assert Ctz32(m) == 1 + Ctz32(m >> 1);
    assert Ctz32(m >> 1) == 1 + Ctz32(m >> 2) by { assert (m >> 1) >> 1 == m >> 2; }
    assert Ctz32(m >> 2) == 1 + Ctz32(m >> 3) by { assert (m >> 2) >> 1 == m >> 3; }
    assert Ctz32(m >> 3) == 1 + Ctz32(m >> 4) by { assert (m >> 3) >> 1 == m >> 4; }
    assert Ctz32(m >> 4) == 1 + Ctz32(m >> 5) by { assert (m >> 4) >> 1 == m >> 5; }
    assert Ctz32(m >> 5) == 1 + Ctz32(m >> 6) by { assert (m >> 5) >> 1 == m >> 6; }
    assert Ctz32(m >> 6) == 1 + Ctz32(m >> 7) by { assert (m >> 6) >> 1 == m >> 7; }
    assert Ctz32(m >> 7) == 0;
  }

  /** The mask flags exactly the bytes equal to 255. */
  lemma MaskFlags(a: bv8, b: bv8, c: bv8, d: bv8)
    ensures var m := EscapeMask(Pack(a, b, c, d));
      && m & 0xFF == (if a == 0xFF then 0x80 else 0)
      && (m >> 8) & 0xFF == (if b == 0xFF then 0x80 else 0)
      && (m >> 16) & 0xFF == (if c == 0xFF then 0x80 else 0)
      && (m >> 24) & 0xFF == (if d == 0xFF then 0x80 else 0)
  {
  }

  lemma BitsOfEscape(x: byte)
    ensures Bits(x) == 0xFF <==> x == ESCAPE
  {
  }

  /** Position of the first escape among four bytes, 4 when there is none. */
  function FirstEscape(a: byte, b: byte, c: byte, d: byte): nat {
    if a == ESCAPE then 0 else if b == ESCAPE then 1 else if c == ESCAPE then 2 else if d == ESCAPE then 3 else 4
  }

  lemma FirstEscapeOfFlags(m: bv32, a: bool, b: bool, c: bool, d: bool)
    requires m & 0xFF == (if a then 0x80 else 0)
    requires (m >> 8) & 0xFF == (if b then 0x80 else 0)
    requires (m >> 16) & 0xFF == (if c then 0x80 else 0)
    requires (m >> 24) & 0xFF == (if d then 0x80 else 0)
    ensures m == 0 <==> !a && !b && !c && !d
    ensures m != 0 ==> Ctz32(m) / 8 == if a then 0 else if b then 1 else if c then 2 else 3
  {
    if a {
      CtzOfFlaggedByte(m);
    } else if m != 0 {
      CtzSkipsByte(m);
      if b {
        CtzOfFlaggedByte(m >> 8);
      } else {
        CtzSkipsByte(m >> 8);
        assert (m >> 8) >> 8 == m >> 16;
        if c {
          CtzOfFlaggedByte(m >> 16);
        } else {
          CtzSkipsByte(m >> 16);
          assert (m >> 16) >> 8 == m >> 24;
          CtzOfFlaggedByte(m >> 24);
        }
      }
    }
  }

  /** The bit trick finds the first escape. */
  lemma EscapeMaskFindsFirst(a: byte, b: byte, c: byte, d: byte)
    ensures var m := EscapeMask(Pack(Bits(a), Bits(b), Bits(c), Bits(d)));
      && (m == 0 <==> FirstEscape(a, b, c, d) == 4)
      && (m != 0 ==> Ctz32(m) / 8 == FirstEscape(a, b, c, d))
  {
    hide Bits, Pack, EscapeMask, Ctz32;
    BitsOfEscape(a);
    BitsOfEscape(b);
    BitsOfEscape(c);
    BitsOfEscape(d);
    MaskFlags(Bits(a), Bits(b), Bits(c), Bits(d));
    FirstEscapeOfFlags(EscapeMask(Pack(Bits(a), Bits(b), Bits(c), Bits(d))),
                       a == ESCAPE, b == ESCAPE, c == ESCAPE, d == ESCAPE);
  }

  // ----------------------------------------------------------------- decoder

  /** The decoder's tables: the length and the eight stored bytes of every code. */
  datatype Decoder = Decoder(len: seq<nat>, symbol: seq<seq<byte>>, zeroTerminated: bool)

  /** The tables represent the symbols `d`, with "corrupt" behind them. */
  ghost predicate Represents(dec: Decoder, d: Symbols) {
    && |dec.len| == 255 && |dec.symbol| == 255 && Lengths(d)
    && forall c :: 0 <= c < 255 ==>
         && 1 <= dec.len[c] <= 8 && |dec.symbol[c]| == 8
         && dec.symbol[c][..dec.len[c]] == SymbolOf(d, c)
  }

  /** `posIn` codes are read; the rest decodes to what follows position `posOut`
      of the whole result. */
  ghost predicate Synced(d: Symbols, z: seq<byte>, posIn: nat, posOut: nat)
    requires Complete(z)
  {
    && posIn <= |z| && Complete(z[posIn..]) && posOut <= |Decode(d, z)|
    && Decode(d, z)[posOut..] == Decode(d, z[posIn..])
  }

  lemma SyncedCode(d: Symbols, z: seq<byte>, posIn: nat, posOut: nat)
    requires Complete(z) && Synced(d, z, posIn, posOut) && posIn < |z| && z[posIn] != ESCAPE
    ensures var x := SymbolOf(d, z[posIn]);
      && posOut + |x| <= |Decode(d, z)| && Decode(d, z)[posOut..posOut + |x|] == x
      && Synced(d, z, posIn + 1, posOut + |x|)
  {
    var whole, x, rest := Decode(d, z), SymbolOf(d, z[posIn]), z[posIn..];
    assert rest[1..] == z[posIn + 1..];
    assert whole[posOut..] == x + Decode(d, z[posIn + 1..]);
    assert whole[posOut..][|x|..] == whole[posOut + |x|..] && whole[posOut..][..|x|] == whole[posOut..posOut + |x|];
  }

  lemma SyncedEscape(d: Symbols, z: seq<byte>, posIn: nat, posOut: nat)
    requires Complete(z) && Synced(d, z, posIn, posOut) && posIn < |z| && z[posIn] == ESCAPE
    ensures posIn + 2 <= |z| && posOut < |Decode(d, z)| && Decode(d, z)[posOut] == z[posIn + 1]
    ensures Synced(d, z, posIn + 2, posOut + 1)
  {
    var whole, rest := Decode(d, z), z[posIn..];
    assert rest[2..] == z[posIn + 2..];
    assert whole[posOut..] == [z[posIn + 1]] + Decode(d, z[posIn + 2..]);
    assert whole[posOut..][1..] == whole[posOut + 1..];
    assert whole[posOut..][0] == whole[posOut];
  }

  /** The first `posOut` bytes of the buffer are the first bytes of the result. */
  ghost predicate Filled(d: Symbols, z: seq<byte>, out: seq<byte>, posIn: nat, posOut: nat)
    requires Complete(z)
  {
    && Synced(d, z, posIn, posOut)
    && var n := Min(posOut, |out|); out[..n] == Decode(d, z)[..n]
  }

  lemma FilledGrows(d: Symbols, z: seq<byte>, before: seq<byte>, after: seq<byte>, posIn: nat, posOut: nat,
                    posIn': nat, posOut': nat)
    requires Complete(z) && Filled(d, z, before, posIn, posOut) && Synced(d, z, posIn', posOut')
    requires |before| == |after| && posOut <= posOut'
    requires var n := Min(posOut, |after|); after[..n] == before[..n]
    requires var n, m := Min(posOut, |after|), Min(posOut', |after|); after[n..m] == Decode(d, z)[n..m]
    ensures Filled(d, z, after, posIn', posOut')
  {
    hide Decode, Complete;
    var whole, n, m := Decode(d, z), Min(posOut, |after|), Min(posOut', |after|);
    assert after[..m] == after[..n] + after[n..m] && whole[..m] == whole[..n] + whole[n..m];
  }

  lemma SliceOfSlice(s: seq<byte>, a: nat, n: nat, k: nat)
    requires a + n <= |s| && k <= n
    ensures s[a..a + n][..k] == s[a..a + k]
  {
  }

  /** An unaligned eight-byte store. */
  method Store8(output: array<byte>, pos: nat, word: seq<byte>)
    requires pos + 8 <= output.Length && |word| == 8
    modifies output
    ensures output[..pos] == old(output[..pos]) && output[pos..pos + 8] == word
  {
    for k := 0 to 8
      invariant output[..pos] == old(output[..pos]) && output[pos..pos + k] == word[..k]
    {
      output[pos + k] := word[k];
    }
  }

  /** Decodes one code with an eight-byte store. */
  method PutSymbol(dec: Decoder, z: seq<byte>, posIn: nat, output: array<byte>, posOut: nat, ghost d: Symbols)
    returns (posOut': nat)
    requires Represents(dec, d) && Complete(z) && Filled(d, z, output[..], posIn, posOut)
    requires posIn < |z| && z[posIn] != ESCAPE && posOut + 8 <= output.Length
    modifies output
    ensures Filled(d, z, output[..], posIn + 1, posOut') && posOut <= posOut' <= posOut + 8
  {
    hide Synced, Decode, Complete;
    SyncedCode(d, z, posIn, posOut);
    var code := z[posIn];
    ghost var before := output[..];
    Store8(output, posOut, dec.symbol[code]);
    posOut' := posOut + dec.len[code];
    SliceOfSlice(output[..], posOut, 8, dec.len[code]);
    FilledGrows(d, z, before, output[..], posIn, posOut, posIn + 1, posOut');
  }

  /** Decodes an escaped byte. */
  method PutEscaped(z: seq<byte>, posIn: nat, output: array<byte>, posOut: nat, ghost d: Symbols)
    returns (posOut': nat)
    requires Complete(z) && Filled(d, z, output[..], posIn, posOut)
    requires posIn < |z| && z[posIn] == ESCAPE && posOut < output.Length
    modifies output
    ensures posIn + 2 <= |z| && Filled(d, z, output[..], posIn + 2, posOut') && posOut' == posOut + 1
  {
    hide Synced, Decode, Complete;
    SyncedEscape(d, z, posIn, posOut);
    ghost var before := output[..];
    output[posOut] := z[posIn + 1];
    posOut' := posOut + 1;
    FilledGrows(d, z, before, output[..], posIn, posOut, posIn + 2, posOut');
  }

  /** One round of the fast loop: four codes, or the codes up to and including the
      first escape. */
  method DecodeBlock(dec: Decoder, z: seq<byte>, posIn0: nat, output: array<byte>, posOut0: nat, ghost d: Symbols)
    returns (posIn: nat, posOut: nat)
    requires Represents(dec, d) && Complete(z) && Filled(d, z, output[..], posIn0, posOut0)
    requires posIn0 + 4 <= |z| && posOut0 + 32 <= output.Length
    modifies output
    ensures Filled(d, z, output[..], posIn, posOut) && posIn0 < posIn
  {
    hide Represents, Complete, Filled, Bits, Pack, EscapeMask, Ctz32;
    posIn, posOut := posIn0, posOut0;
    var a, b, c, e := z[posIn], z[posIn + 1], z[posIn + 2], z[posIn + 3];
    var escapeMask := EscapeMask(Pack(Bits(a), Bits(b), Bits(c), Bits(e)));
    EscapeMaskFindsFirst(a, b, c, e);
    if escapeMask == 0 {
      posOut := PutSymbol(dec, z, posIn, output, posOut, d);
      posOut := PutSymbol(dec, z, posIn + 1, output, posOut, d);
      posOut := PutSymbol(dec, z, posIn + 2, output, posOut, d);
      posOut := PutSymbol(dec, z, posIn + 3, output, posOut, d);
      posIn := posIn + 4;
    } else {
      var firstEscapePos := Ctz32(escapeMask) / 8;
      if firstEscapePos >= 3 {
        posOut := PutSymbol(dec, z, posIn, output, posOut, d);
        posIn := posIn + 1;
      }
      if firstEscapePos >= 2 {
        posOut := PutSymbol(dec, z, posIn, output, posOut, d);
        posIn := posIn + 1;
      }
      if firstEscapePos >= 1 {
        posOut := PutSymbol(dec, z, posIn, output, posOut, d);
        posIn := posIn + 1;
      }
      posOut := PutEscaped(z, posIn, output, posOut, d);
      posIn := posIn + 2;
    }
  }

  /** Handles the last one to three bytes without a loop. */
  method DecodeTail(dec: Decoder, z: seq<byte>, posIn0: nat, output: array<byte>, posOut0: nat, ghost d: Symbols)
    returns (posIn: nat, posOut: nat)
    requires Represents(dec, d) && Complete(z) && Filled(d, z, output[..], posIn0, posOut0)
    requires posIn0 <= |z| < posIn0 + 4 && posOut0 + 32 <= output.Length
    modifies output
    ensures Filled(d, z, output[..], posIn, posOut) && posIn == |z|
  {
    hide Represents, Complete, Filled;
    LastIsNoEscape(d, z, output[..], posIn0, posOut0);
    posIn, posOut := posIn0, posOut0;
    if posIn + 2 <= |z| {
      SpeculativeByte(d, z, output[..], posIn, posOut, z[posIn + 1]);
      ghost var before := output[..];
      output[posOut] := z[posIn + 1];
      assert output[..] == before[posOut := z[posIn + 1]];
      if z[posIn] != ESCAPE {
        posOut := PutSymbol(dec, z, posIn, output, posOut, d);
        posIn := posIn + 1;
        if z[posIn] != ESCAPE {
          posOut := PutSymbol(dec, z, posIn, output, posOut, d);
          posIn := posIn + 1;
        } else {
          posOut := PutEscaped(z, posIn, output, posOut, d);
          posIn := posIn + 2;
        }
      } else {
        EscapedAlready(d, z, output[..], posIn, posOut);
        posIn, posOut := posIn + 2, posOut + 1;
      }
    }
    if posIn < |z| {
      LastIsNoEscape(d, z, output[..], posIn, posOut);
      posOut := PutSymbol(dec, z, posIn, output, posOut, d);
      posIn := posIn + 1;
    }
  }

  /** The last byte of a complete stream is not an escape that still waits for its byte. */
  lemma LastIsNoEscape(d: Symbols, z: seq<byte>, out: seq<byte>, posIn: nat, posOut: nat)
    requires Complete(z) && Filled(d, z, out, posIn, posOut)
    ensures posIn + 1 == |z| ==> z[posIn] != ESCAPE
  {
  }

  /** Bytes at or behind the write position do not matter yet. */
  lemma SpeculativeByte(d: Symbols, z: seq<byte>, out: seq<byte>, posIn: nat, posOut: nat, x: byte)
    requires Complete(z) && Filled(d, z, out, posIn, posOut) && posOut < |out|
    ensures Filled(d, z, out[posOut := x], posIn, posOut)
  {
    assert out[posOut := x][..posOut] == out[..posOut];
  }

  /** The escaped byte stands at the write position already. */
  lemma EscapedAlready(d: Symbols, z: seq<byte>, out: seq<byte>, posIn: nat, posOut: nat)
    requires Complete(z) && Filled(d, z, out, posIn, posOut)
    requires posIn + 2 <= |z| && z[posIn] == ESCAPE && posOut < |out| && out[posOut] == z[posIn + 1]
    ensures Filled(d, z, out, posIn + 2, posOut + 1)
  {
    hide Synced, Decode, Complete;
    SyncedEscape(d, z, posIn, posOut);
    assert out[..posOut + 1] == out[..posOut] + [out[posOut]];
    assert Decode(d, z)[..posOut + 1] == Decode(d, z)[..posOut] + [Decode(d, z)[posOut]];
  }

  /** Writes the part of a symbol that fits. */
  method WriteFitting(output: array<byte>, pos: nat, word: seq<byte>, len: nat)
    requires len <= |word|
    modifies output
    ensures output[..Min(pos, output.Length)] == old(output[..Min(pos, output.Length)])
    ensures forall k :: pos <= k < pos + len && k < output.Length ==> output[k] == word[k - pos]
  {
    var endWrite := Min(pos + len, output.Length);
    var posWrite := pos;
    while posWrite < endWrite
      invariant pos <= posWrite && (posWrite <= endWrite || posWrite == pos)
      invariant output[..Min(pos, output.Length)] == old(output[..Min(pos, output.Length)])
      invariant forall k :: pos <= k < posWrite && k < endWrite ==> output[k] == word[k - pos]
    {
      output[posWrite] := word[posWrite - pos];
      posWrite := posWrite + 1;
    }
  }

  /** Decodes one code byte by byte, writing only what fits. */
  method PutTruncated(dec: Decoder, z: seq<byte>, posIn: nat, output: array<byte>, posOut: nat, ghost d: Symbols)
    returns (posOut': nat)
    requires Represents(dec, d) && Complete(z) && Filled(d, z, output[..], posIn, posOut)
    requires posIn < |z| && z[posIn] != ESCAPE
    modifies output
    ensures Filled(d, z, output[..], posIn + 1, posOut')
  {
    hide Synced, Decode, Complete, SymbolOf;
    SyncedCode(d, z, posIn, posOut);
    ghost var before, x := output[..], SymbolOf(d, z[posIn]);
    var code := z[posIn];
    assert x == dec.symbol[code][..dec.len[code]];
    posOut' := posOut + dec.len[code];
    WriteFitting(output, posOut, dec.symbol[code], dec.len[code]);
    TruncatedSlice(Decode(d, z), output[..], x, posOut);
    FilledGrows(d, z, before, output[..], posIn, posOut, posIn + 1, posOut');
  }

  lemma TruncatedSlice(whole: seq<byte>, out: seq<byte>, x: seq<byte>, pos: nat)
    requires pos + |x| <= |whole| && whole[pos..pos + |x|] == x
    requires forall k :: pos <= k < pos + |x| && k < |out| ==> out[k] == x[k - pos]
    ensures var n, m := Min(pos, |out|), Min(pos + |x|, |out|); out[n..m] == whole[n..m]
  {
    var n, m := Min(pos, |out|), Min(pos + |x|, |out|);
    forall k | n <= k < m ensures out[k] == whole[k] {
      var j := k - pos;
      assert x[j] == whole[pos + j];
    }
  }

  lemma FilledWithin(d: Symbols, z: seq<byte>, out: seq<byte>, posIn: nat, posOut: nat)
    requires Complete(z) && Filled(d, z, out, posIn, posOut)
    ensures posIn <= |z|
  {
    hide Decode, Complete;
  }

  /** Truncating loop for the codes the fast paths left. */
  method DecodeSlowly(dec: Decoder, z: seq<byte>, posIn0: nat, output: array<byte>, posOut0: nat, ghost d: Symbols)
    returns (posOut: nat)
    requires Represents(dec, d) && Complete(z) && Filled(d, z, output[..], posIn0, posOut0)
    modifies output
    ensures Filled(d, z, output[..], |z|, posOut)
  {
    hide Represents, Complete, Filled, Decode, Synced;
    FilledWithin(d, z, output[..], posIn0, posOut0);
    var posIn := posIn0;
    posOut := posOut0;
    while posIn < |z|
      invariant Filled(d, z, output[..], posIn, posOut) && posIn <= |z|
    {
      if z[posIn] != ESCAPE {
        posOut := PutTruncated(dec, z, posIn, output, posOut, d);
        posIn := posIn + 1;
      } else if posOut < output.Length {
        posOut := PutEscaped(z, posIn, output, posOut, d);
        posIn := posIn + 2;
      } else {
        EscapedBeyond(d, z, output[..], posIn, posOut);
        posIn, posOut := posIn + 2, posOut + 1;
      }
    }
  }

  /** An escaped byte that does not fit is only counted. */
  lemma EscapedBeyond(d: Symbols, z: seq<byte>, out: seq<byte>, posIn: nat, posOut: nat)
    requires Complete(z) && Filled(d, z, out, posIn, posOut)
    requires posIn < |z| && z[posIn] == ESCAPE && |out| <= posOut
    ensures posIn + 2 <= |z| && Filled(d, z, out, posIn + 2, posOut + 1)
  {
    hide Synced, Decode, Complete;
    SyncedEscape(d, z, posIn, posOut);
    FilledGrows(d, z, out, out, posIn, posOut, posIn + 2, posOut + 1);
  }

  /** What a buffer of `size` bytes shows of a decoded string: its first bytes,
      the last of them zeroed when a zero-terminated string fills the buffer. */
  function Shown(s: seq<byte>, size: nat, zeroTerminated: bool): (r: seq<byte>)
    ensures |r| == Min(|s|, size)
  {
    var prefix := s[..Min(|s|, size)];
    if zeroTerminated && |s| >= size > 0 then prefix[size - 1 := 0] else prefix
  }

  /** Decodes a string into a buffer.  Returns the full decoded length, whatever
      the buffer size.  `underflow` reports the one case in which the closing
      store of the terminator has no byte to go to. */
  method Decompress(dec: Decoder, z: seq<byte>, output: array<byte>, ghost d: Symbols)
    returns (posOut: nat, underflow: bool)
    requires Represents(dec, d) && Complete(z)
    modifies output
    ensures posOut == |Decode(d, z)|
    ensures output[..Min(posOut, output.Length)] == Shown(Decode(d, z), output.Length, dec.zeroTerminated)
    ensures underflow <==> dec.zeroTerminated && output.Length == 0
  {
    var posIn := 0;
    posOut := 0;
    FilledStart(d, z, output[..]);
    hide Represents, Complete, Decode, Filled, Shown;
    while posOut + 32 <= output.Length && posIn + 4 <= |z|
      invariant posIn <= |z| && Filled(d, z, output[..], posIn, posOut)
      decreases |z| - posIn
    {
      posIn, posOut := DecodeBlock(dec, z, posIn, output, posOut, d);
    }
    if posOut + 32 <= output.Length {
      posIn, posOut := DecodeTail(dec, z, posIn, output, posOut, d);
    }
    posOut := DecodeSlowly(dec, z, posIn, output, posOut, d);
    FilledEnd(d, z, output[..], posOut, dec.zeroTerminated);
    underflow := false;
    if posOut >= output.Length && dec.zeroTerminated {
      if output.Length == 0 {
        underflow := true;
      } else {
        ghost var before := output[..];
        output[output.Length - 1] := 0;
        assert output[..] == before[output.Length - 1 := 0];
      }
    }
    assert output[..Min(posOut, output.Length)] == output[..][..Min(posOut, output.Length)];
  }

  lemma FilledStart(d: Symbols, z: seq<byte>, out: seq<byte>)
    requires Complete(z)
    ensures Filled(d, z, out, 0, 0)
  {
    assert z[0..] == z && Decode(d, z)[0..] == Decode(d, z);
  }

  /** When all codes are read the buffer shows the result, but for the closing zero. */
  lemma FilledEnd(d: Symbols, z: seq<byte>, out: seq<byte>, posOut: nat, zeroTerminated: bool)
    requires Complete(z) && Filled(d, z, out, |z|, posOut)
    ensures posOut == |Decode(d, z)|
    ensures var n := Min(posOut, |out|);
      (if zeroTerminated && posOut >= |out| > 0 then out[|out| - 1 := 0] else out)[..n]
        == Shown(Decode(d, z), |out|, zeroTerminated)
  {
    assert z[|z|..] == [];
    var whole := Decode(d, z);
    assert |whole[posOut..]| == 0;
    if zeroTerminated && posOut >= |out| > 0 {
      assert out[|out| - 1 := 0][..|out|] == whole[..|out|][|out| - 1 := 0];
    }
  }
}
