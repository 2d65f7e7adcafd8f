/** What an FSST symbol table means: greedy longest-symbol replacement.

    A dictionary is the sequence of its symbols, and the code of a symbol is its
    position.  Byte 255 escapes the byte that follows it. */
module Dictionary {
  import opened Bytes

  const ESCAPE: byte := 255
  const MAX_LENGTH := 8

  type Symbols = seq<seq<byte>>

  predicate Lengths(d: Symbols) {
    forall i :: 0 <= i < |d| ==> 1 <= |d[i]| <= MAX_LENGTH
  }

  predicate Distinct(d: Symbols) {
    forall i, j :: 0 <= i < j < |d| ==> d[i] != d[j]
  }

  /** A dictionary that byte-sized codes below the escape can number. */
  predicate Encodable(d: Symbols) {
    |d| <= 255 && Lengths(d) && Distinct(d)
  }

  /** Position of the longest of the first `k` symbols that `s` starts with
      (the latest of them on a tie), or -1. */
  function Best(d: Symbols, s: seq<byte>, k: nat): (r: int)
    requires k <= |d|
    ensures -1 <= r < k
    ensures r >= 0 ==> d[r] <= s
    ensures forall j :: 0 <= j < k && d[j] <= s ==> r >= 0 && |d[j]| <= |d[r]|
    ensures forall j :: r < j < k && r >= 0 && d[j] <= s ==> |d[j]| < |d[r]|
  {
    if k == 0 then -1
    else
      var r := Best(d, s, k - 1);
      if d[k - 1] <= s && (r < 0 || |d[r]| <= |d[k - 1]|) then k - 1 else r
  }

  function Longest(d: Symbols, s: seq<byte>): (r: int)
    ensures -1 <= r < |d|
    ensures r >= 0 ==> d[r] <= s
    ensures forall j :: 0 <= j < |d| && d[j] <= s ==> r >= 0 && |d[j]| <= |d[r]|
    ensures forall j :: r < j < |d| && r >= 0 && d[j] <= s ==> |d[j]| < |d[r]|
  {
    Best(d, s, |d|)
  }

  /** Those postconditions leave only one candidate. */
  lemma LongestUnique(d: Symbols, s: seq<byte>, i: nat)
    requires i < |d| && d[i] <= s
    requires forall j :: 0 <= j < |d| && d[j] <= s ==> |d[j]| <= |d[i]|
    requires forall j :: i < j < |d| && d[j] <= s ==> |d[j]| < |d[i]|
    ensures Longest(d, s) == i
  {
    var r := Longest(d, s);
    assert |d[i]| <= |d[r]| && |d[r]| <= |d[i]|;
  }

  /** The symbols two strings start with decide the choice, nothing else does. */
  lemma LongestSamePrefixes(d: Symbols, s: seq<byte>, u: seq<byte>)
    requires forall j :: 0 <= j < |d| ==> (d[j] <= s <==> d[j] <= u)
    ensures Longest(d, s) == Longest(d, u)
  {
    var r := Longest(d, s);
    if r >= 0 {
      LongestUnique(d, u, r);
    }
  }

  /** Position of the last occurrence of `x` in the dictionary, or -1. */
  function IndexOf(d: Symbols, x: seq<byte>): (r: int)
    ensures -1 <= r < |d|
    ensures r >= 0 ==> d[r] == x
    ensures forall j :: r < j < |d| ==> d[j] != x
  {
    if d == [] then -1
    else if d[|d| - 1] == x then |d| - 1
    else
      var r := IndexOf(d[..|d| - 1], x);
      assert forall j :: r < j < |d| - 1 ==> d[..|d| - 1][j] == d[j];
      r
  }

  /** Bytes of the symbol chosen at the start of `s`: the longest symbol, or the
      escaped first byte. */
  function Step(d: Symbols, s: seq<byte>): (n: nat)
    requires s != [] && Lengths(d)
    ensures 1 <= n <= |s|
  {
    var i := Longest(d, s);
    if i >= 0 then |d[i]| else 1
  }

  function Emit(d: Symbols, s: seq<byte>): (z: seq<byte>)
    requires s != [] && Encodable(d)
    ensures 1 <= |z| <= 2
  {
    var i := Longest(d, s);
    if i >= 0 then [i] else [ESCAPE, s[0]]
  }

  /** Greedy encoding of a string. */
  function Encode(d: Symbols, s: seq<byte>): (z: seq<byte>)
    requires Encodable(d)
    ensures |z| <= 2 * |s|
    decreases |s|
  {
    if s == [] then [] else Emit(d, s) + Encode(d, s[Step(d, s)..])
  }

  const CHUNK := 511

  /** What a compressor sees of a chunk if it steps over every zero byte together with
      the byte behind it; all of it, if it does not. */
  function Seen(skips: bool, s: seq<byte>): (u: seq<byte>)
    ensures |u| <= |s|
    decreases |s|
  {
    if !skips || s == [] then s
    else if s[0] == 0 then [0] + Seen(skips, if |s| >= 2 then s[2..] else [])
    else [s[0]] + Seen(skips, s[1..])
  }

  /** What it sees of a line cut into chunks of at most 511 bytes. */
  function SeenLine(skips: bool, s: seq<byte>): (u: seq<byte>)
    ensures |u| <= |s|
    decreases |s|
  {
    if |s| <= CHUNK then Seen(skips, s) else Seen(skips, s[..CHUNK]) + SeenLine(skips, s[CHUNK..])
  }

  /** The chunks of a line are encoded independently. */
  function EncodeLine(d: Symbols, skips: bool, s: seq<byte>): (z: seq<byte>)
    requires Encodable(d)
    ensures |z| <= 2 * |s|
    decreases |s|
  {
    if |s| <= CHUNK then Encode(d, Seen(skips, s))
    else Encode(d, Seen(skips, s[..CHUNK])) + EncodeLine(d, skips, s[CHUNK..])
  }

  /** A code stream in which every escape is followed by its byte. */
  predicate Complete(z: seq<byte>)
    decreases |z|
  {
    z == [] ||
    (if z[0] == ESCAPE then |z| >= 2 && Complete(z[2..]) else Complete(z[1..]))
  }

  /** The eight bytes "corrupt\0" that stand for every code without a symbol. */
  const CORRUPT: seq<byte> := [0x63, 0x6f, 0x72, 0x72, 0x75, 0x70, 0x74, 0]

  function SymbolOf(d: Symbols, code: byte): (x: seq<byte>) {
    if code < |d| then d[code] else CORRUPT
  }

  /** Reference decoder, one code at a time. */
  function Decode(d: Symbols, z: seq<byte>): (s: seq<byte>)
    requires Complete(z)
    decreases |z|
  {
    if z == [] then []
    else if z[0] == ESCAPE then [z[1]] + Decode(d, z[2..])
    else SymbolOf(d, z[0]) + Decode(d, z[1..])
  }

  lemma {:induction false} DecodeAppend(d: Symbols, a: seq<byte>, b: seq<byte>)
    requires Complete(a) && Complete(b)
    ensures Complete(a + b) && Decode(d, a + b) == Decode(d, a) + Decode(d, b)
    decreases |a|
  {
    if a == [] {
      assert a + b == b;
    } else {
      hide SymbolOf;
      var n := if a[0] == ESCAPE then 2 else 1;
      var head := if a[0] == ESCAPE then [a[1]] else SymbolOf(d, a[0]);
      assert (a + b)[n..] == a[n..] + b;
      DecodeAppend(d, a[n..], b);
      assert Decode(d, a) == head + Decode(d, a[n..]);
      assert Decode(d, a + b) == head + Decode(d, a[n..] + b);
    }
  }

  /** One greedy step emits a complete code for exactly the bytes it consumes. */
  lemma EmitDecodes(d: Symbols, s: seq<byte>)
    requires Encodable(d) && s != []
    ensures Complete(Emit(d, s)) && Decode(d, Emit(d, s)) == s[..Step(d, s)]
  {
    var i := Longest(d, s);
    if i >= 0 {
      assert [i][1..] == [];
      assert Decode(d, [i]) == d[i] + Decode(d, []);
    } else {
      assert [ESCAPE, s[0]][2..] == [];
      assert Decode(d, [ESCAPE, s[0]]) == [s[0]] + Decode(d, []);
    }
  }

  lemma EncodeSplits(d: Symbols, s: seq<byte>)
    requires Encodable(d) && s != []
    ensures Encode(d, s) == Emit(d, s) + Encode(d, s[Step(d, s)..])
  {
  }

  /** Decoding undoes greedy encoding. */
  lemma {:induction false} DecodeEncode(d: Symbols, s: seq<byte>)
    requires Encodable(d)
    ensures Complete(Encode(d, s)) && Decode(d, Encode(d, s)) == s
    decreases |s|
  {
    if s != [] {
      hide Emit, Step, Decode, Complete, Encode, Longest, Distinct;
      var n := Step(d, s);
      EncodeSplits(d, s);
      DecodeEncode(d, s[n..]);
      EmitDecodes(d, s);
      DecodeAppend(d, Emit(d, s), Encode(d, s[n..]));
      assert s == s[..n] + s[n..];
    }
  }

  /** A compressed line decodes to what was seen of it. */
  lemma {:induction false} DecodeEncodeLine(d: Symbols, skips: bool, s: seq<byte>)
    requires Encodable(d)
    ensures Complete(EncodeLine(d, skips, s)) && Decode(d, EncodeLine(d, skips, s)) == SeenLine(skips, s)
    decreases |s|
  {
    if |s| <= CHUNK {
      DecodeEncode(d, Seen(skips, s));
    } else {
      var head := Seen(skips, s[..CHUNK]);
      DecodeEncode(d, head);
      DecodeEncodeLine(d, skips, s[CHUNK..]);
      DecodeAppend(d, Encode(d, head), EncodeLine(d, skips, s[CHUNK..]));
    }
  }

  /** Equal compressed forms mean that the same was seen of both strings, and conversely. */
  lemma EncodeLineInjective(d: Symbols, skips: bool, s: seq<byte>, u: seq<byte>)
    requires Encodable(d)
    ensures EncodeLine(d, skips, s) == EncodeLine(d, skips, u) ==> SeenLine(skips, s) == SeenLine(skips, u)
    ensures !skips ==> (EncodeLine(d, skips, s) == EncodeLine(d, skips, u) <==> s == u)
  {
    DecodeEncodeLine(d, skips, s);
    DecodeEncodeLine(d, skips, u);
    SeenLineWholeIff(skips, s);
    SeenLineWholeIff(skips, u);
  }

  // ------------------------------------------------------ which bytes are passed over

  /** No zero stands before the last byte of a chunk. */
  predicate ZeroOnlyLast(s: seq<byte>) {
    forall k :: 0 <= k < |s| - 1 ==> s[k] != 0
  }

  /** No zero stands before the last byte of any chunk of a line. */
  predicate ZeroEndsChunks(s: seq<byte>) {
    forall k :: 0 <= k < |s| - 1 && k % CHUNK != CHUNK - 1 ==> s[k] != 0
  }

  /** A chunk is seen whole exactly if nothing is skipped or no zero stands before its last byte. */
  lemma {:induction false} SeenWholeIff(skips: bool, s: seq<byte>)
    ensures Seen(skips, s) == s <==> !skips || ZeroOnlyLast(s)
    ensures |Seen(skips, s)| == |s| ==> Seen(skips, s) == s
    decreases |s|
  {
    if skips && s != [] {
      if s[0] != 0 {
        SeenWholeIff(skips, s[1..]);
        assert s == [s[0]] + s[1..];
        assert forall k :: 0 <= k < |s| - 2 ==> s[1..][k] == s[k + 1];
        assert ZeroOnlyLast(s[1..]) ==> ZeroOnlyLast(s);
      } else if |s| >= 2 {
        assert |Seen(skips, s)| < |s|;
      }
    }
  }

  lemma OneChunkZeros(s: seq<byte>)
    requires |s| <= CHUNK
    ensures ZeroEndsChunks(s) <==> ZeroOnlyLast(s)
  {
  }

  lemma ChunkZeros(s: seq<byte>)
    requires |s| > CHUNK
    ensures ZeroEndsChunks(s) <==> ZeroOnlyLast(s[..CHUNK]) && ZeroEndsChunks(s[CHUNK..])
  {
    var head, tail := s[..CHUNK], s[CHUNK..];
    if ZeroEndsChunks(s) {
      forall k | 0 <= k < |tail| - 1 && k % CHUNK != CHUNK - 1 ensures tail[k] != 0 {
        assert tail[k] == s[k + CHUNK] && (k + CHUNK) % CHUNK == k % CHUNK;
      }
    }
    if ZeroOnlyLast(head) && ZeroEndsChunks(tail) {
      forall k | 0 <= k < |s| - 1 && k % CHUNK != CHUNK - 1 ensures s[k] != 0 {
        if k < CHUNK {
          assert head[k] == s[k];
        } else {
          assert tail[k - CHUNK] == s[k] && (k - CHUNK) % CHUNK == k % CHUNK;
        }
      }
    }
  }

  lemma {:induction false} SeenLineWholeIff(skips: bool, s: seq<byte>)
    ensures SeenLine(skips, s) == s <==> !skips || ZeroEndsChunks(s)
    ensures |SeenLine(skips, s)| == |s| ==> SeenLine(skips, s) == s
    decreases |s|
  {
    hide Seen, ZeroEndsChunks, ZeroOnlyLast;
    if |s| <= CHUNK {
      OneChunkZeros(s);
      SeenWholeIff(skips, s);
    } else {
      SeenWholeIff(skips, s[..CHUNK]);
      SeenLineWholeIff(skips, s[CHUNK..]);
      ChunkZeros(s);
      assert s == s[..CHUNK] + s[CHUNK..];
      assert |SeenLine(skips, s)| == |Seen(skips, s[..CHUNK])| + |SeenLine(skips, s[CHUNK..])|;
    }
  }

  /** A chunk's output is its greedy encoding exactly if it is seen whole. */
  lemma EncodesWholeIff(d: Symbols, skips: bool, s: seq<byte>)
    requires Encodable(d)
    ensures Encode(d, Seen(skips, s)) == Encode(d, s) <==> !skips || ZeroOnlyLast(s)
  {
    SeenWholeIff(skips, s);
    DecodeEncode(d, s);
    DecodeEncode(d, Seen(skips, s));
  }

  /** The same for a line: stepping over zeros changes its compressed form, and what that
      decodes to, exactly if a zero stands before the last byte of one of its chunks. */
  lemma EncodesLineWholeIff(d: Symbols, skips: bool, s: seq<byte>)
    requires Encodable(d)
    ensures EncodeLine(d, skips, s) == EncodeLine(d, false, s) <==> !skips || ZeroEndsChunks(s)
  {
    SeenLineWholeIff(skips, s);
    SeenLineWholeIff(false, s);
    DecodeEncodeLine(d, skips, s);
    DecodeEncodeLine(d, false, s);
    if !skips || ZeroEndsChunks(s) {
      EncodeLineWhole(d, skips, s);
    }
  }

  lemma {:induction false} EncodeLineWhole(d: Symbols, skips: bool, s: seq<byte>)
    requires Encodable(d) && (!skips || ZeroEndsChunks(s))
    ensures EncodeLine(d, skips, s) == EncodeLine(d, false, s)
    decreases |s|
  {
    hide Encode, Encodable, Seen, ZeroEndsChunks, ZeroOnlyLast;
    SeenWholeIff(false, s[..Min(CHUNK, |s|)]);
    if |s| <= CHUNK {
      assert s[..|s|] == s;
      OneChunkZeros(s);
      SeenWholeIff(skips, s);
    } else {
      ChunkZeros(s);
      SeenWholeIff(skips, s[..CHUNK]);
      EncodeLineWhole(d, skips, s[CHUNK..]);
    }
  }

  /** A zero with another byte behind it: the byte is gone after decompression. */
  lemma ByteBehindZeroLost(d: Symbols, b: byte)
    requires Encodable(d)
    ensures EncodeLine(d, true, [0, b]) != EncodeLine(d, false, [0, b])
    ensures Complete(EncodeLine(d, true, [0, b])) && Decode(d, EncodeLine(d, true, [0, b])) == [0]
  {
    assert [0, b][2..] == [];
    assert Seen(true, [0, b]) == [0];
    DecodeEncodeLine(d, true, [0, b]);
    DecodeEncodeLine(d, false, [0, b]);
  }
}
