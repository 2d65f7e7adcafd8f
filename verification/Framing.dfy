/** The file format of the command-line tool: each block is preceded by its length in three
    bytes, and the reader takes each block together with the length of the next. */
module Framing {
  import opened Bytes
  import opened Pipeline

  const LENGTH_LIMIT := 0x100_0000

  /** Three bytes, highest first; what does not fit is lost. */
  function Serialize(l: nat): (s: seq<byte>)
    ensures |s| == 3
  {
    [l / 65536 % 256, l / 256 % 256, l % 256]
  }

  function Deserialize(s: seq<byte>): nat
    requires |s| == 3
  {
    (s[0] as int) * 65536 + (s[1] as int) * 256 + s[2] as int
  }

  lemma LowBytes(l: nat)
    ensures l % LENGTH_LIMIT == 65536 * (l / 65536 % 256) + 256 * (l / 256 % 256) + l % 256
  {
    var m := l / 256;
    var x := m / 256;
    var r := 256 * (m % 256) + l % 256;
    assert l == 65536 * x + r;
    assert x == l / 65536;
    Remainder(l, x / 256, 65536 * (x % 256) + r);
  }

  lemma Remainder(l: nat, q: nat, r: nat)
    requires l == LENGTH_LIMIT * q + r && r < LENGTH_LIMIT
    ensures l % LENGTH_LIMIT == r
  {
  }

  lemma SameBytes(a: byte, b: byte, c: byte, x: byte, y: byte, z: byte)
    ensures 65536 * (a as int) + 256 * (b as int) + c as int == 65536 * (x as int) + 256 * (y as int) + z as int
      <==> a == x && b == y && c == z
  {
  }

  /** The three bytes of a length, highest first, and the only ones it has. */
  lemma SerializedBytes(l: nat, a: byte, b: byte, c: byte)
    ensures Serialize(l) == [a, b, c] <==> l % LENGTH_LIMIT == 65536 * (a as int) + 256 * (b as int) + c as int
  {
    var s := Serialize(l);
    LowBytes(l);
    SameBytes(s[0], s[1], s[2], a, b, c);
    assert s == [s[0], s[1], s[2]];
  }

  /** A length survives exactly if it is below 2^24. */
  lemma LengthSurvivesIff(l: nat)
    ensures Deserialize(Serialize(l)) == l <==> l < LENGTH_LIMIT
  {
    var a, b, c := l / 65536, l / 256 % 256, l % 256;
    assert l / 256 == 256 * a + b;
    assert l == 65536 * a + 256 * b + c;
  }

  /** The blocks of the file; a block's length counts the three length bytes too. */
  function Framed(blocks: seq<Block>): seq<byte> {
    if blocks == [] then [] else Serialize(|blocks[0]| + 3) + blocks[0] + Framed(blocks[1..])
  }

  predicate Framable(blocks: seq<Block>) {
    forall k :: 0 <= k < |blocks| ==> blocks[k] != [] && |blocks[k]| + 3 < LENGTH_LIMIT
  }

  /** What is left of the file when block `k` is about to be read: its length is known,
      the block and all further frames are still to come. */
  function Remaining(blocks: seq<Block>, k: nat): seq<byte> {
    if k < |blocks| then blocks[k] + Framed(blocks[k + 1..]) else []
  }

  lemma FramedNext(blocks: seq<Block>)
    requires blocks != []
    ensures |Framed(blocks)| >= 3 && Framed(blocks)[..3] == Serialize(|blocks[0]| + 3)
    ensures Framed(blocks)[3..] == blocks[0] + Framed(blocks[1..])
  {
    var head, tail := Serialize(|blocks[0]| + 3), blocks[0] + Framed(blocks[1..]);
    assert Framed(blocks) == head + tail;
  }

  /** Where the frame of block `k` starts. */
  function FrameStart(blocks: seq<Block>, k: nat): (p: nat)
    requires k <= |blocks|
  {
    if k == 0 then 0 else FrameStart(blocks, k - 1) + 3 + |blocks[k - 1]|
  }

  lemma FrameStartFirst(blocks: seq<Block>)
    ensures FrameStart(blocks, 0) == 0
  {
  }

  lemma {:induction false} FrameStartShift(blocks: seq<Block>, k: nat)
    requires 0 < k <= |blocks|
    ensures FrameStart(blocks, k) == 3 + |blocks[0]| + FrameStart(blocks[1..], k - 1)
    decreases k
  {
    if k > 1 {
      FrameStartShift(blocks, k - 1);
      assert blocks[1..][k - 2] == blocks[k - 1];
    }
  }

  /** A block stands behind its length in three bytes, highest first. */
  ghost predicate FrameAt(f: seq<byte>, p: nat, b: Block) {
    && p + 3 + |b| <= |f| && f[p + 3..p + 3 + |b|] == b
    && 65536 * (f[p] as int) + 256 * (f[p + 1] as int) + f[p + 2] as int == |b| + 3
  }

  /** The file, frame by frame: three bytes that give the block's length plus three, highest
      first, and then the block. */
  lemma {:induction false} FramedLayout(blocks: seq<Block>, k: nat)
    requires k < |blocks| && |blocks[k]| + 3 < LENGTH_LIMIT
    ensures FrameAt(Framed(blocks), FrameStart(blocks, k), blocks[k])
    decreases |blocks|
  {
    hide Serialize, FrameStart, FrameAt;
    var f, n, tail := Framed(blocks), 3 + |blocks[0]|, Framed(blocks[1..]);
    assert f == Serialize(n) + blocks[0] + tail;
    hide Framed;
    if k == 0 {
      FrameStartFirst(blocks);
      FirstFrame(blocks[0], tail);
    } else {
      FramedLayout(blocks[1..], k - 1);
      FrameStartShift(blocks, k);
      LaterFrame(Serialize(n) + blocks[0], tail, FrameStart(blocks[1..], k - 1), blocks[k]);
    }
  }

  lemma FirstFrame(b: Block, tail: seq<byte>)
    requires |b| + 3 < LENGTH_LIMIT
    ensures FrameAt(Serialize(3 + |b|) + b + tail, 0, b)
  {
    hide Serialize;
    var s := Serialize(3 + |b|);
    SerializedBytes(3 + |b|, s[0], s[1], s[2]);
    assert s == [s[0], s[1], s[2]];
    assert (s + b + tail)[3..3 + |b|] == b;
  }

  lemma LaterFrame(head: seq<byte>, tail: seq<byte>, q: nat, b: Block)
    requires FrameAt(tail, q, b)
    ensures FrameAt(head + tail, |head| + q, b)
  {
    var f := head + tail;
    assert f[|head| + q + 3..|head| + q + 3 + |b|] == tail[q + 3..q + 3 + |b|];
  }

  class BlockReader {
    var rest: seq<byte>   // what the stream has not delivered yet
    var blksz: nat        // length of the next block, zero at the end

    /** The next read will yield block `k`. */
    ghost predicate Ready(blocks: seq<Block>, k: nat)
      reads this
    {
      && Framable(blocks)
      && rest == Remaining(blocks, k)
      && blksz == if k < |blocks| then |blocks[k]| + 3 else 0
    }

    /** Opens a file: the first three bytes are the length of the first block. */
    constructor (file: seq<byte>, ghost blocks: seq<Block>)
      requires Framable(blocks) && blocks != [] && file == Framed(blocks)
      ensures Ready(blocks, 0)
    {
      FramedNext(blocks);
      LengthSurvivesIff(|blocks[0]| + 3);
      assert blocks[0 + 1..] == blocks[1..];
      rest := file[3..];
      blksz := Deserialize(file[..3]);
    }

    /** One turn of the reader in decompression mode. */
    method Next(ghost blocks: seq<Block>, ghost k: nat) returns (block: Block)
      requires Ready(blocks, k)
      modifies this
      ensures Ready(blocks, k + 1)
      ensures block == if k < |blocks| then blocks[k] else []
    {
      ReadSplits(blocks, k);
      var n := Min(blksz, |rest|);
      var buf := rest[..n];
      rest := rest[n..];
      if blksz != 0 && n == blksz {
        blksz := Deserialize(buf[n - 3..]);
        block := buf[..n - 3];
      } else {
        blksz := 0;
        block := buf;
      }
    }
  }

  /** A read of a block's length returns the block and the next length, or the last block
      alone, or nothing. */
  lemma ReadSplits(blocks: seq<Block>, k: nat)
    requires Framable(blocks)
    ensures var rest := Remaining(blocks, k);
      if k + 1 < |blocks| then
        var l := |blocks[k]| + 3;
        && l <= |rest| && rest[..l][..l - 3] == blocks[k] && Deserialize(rest[..l][l - 3..]) == |blocks[k + 1]| + 3
        && rest[l..] == Remaining(blocks, k + 1)
      else if k + 1 == |blocks| then rest == blocks[k]
      else rest == []
  {
    if k + 1 < |blocks| {
      var more := blocks[k + 1..];
      FramedNext(more);
      LengthSurvivesIff(|blocks[k + 1]| + 3);
      assert more[0] == blocks[k + 1] && more[1..] == blocks[k + 2..];
      var l := |blocks[k]| + 3;
      var rest := blocks[k] + Framed(more);
      assert rest[..l] == blocks[k] + Framed(more)[..3];
      assert rest[l..] == Framed(more)[3..];
    } else if k + 1 == |blocks| {
      assert blocks[k + 1..] == [] && blocks[k] + [] == blocks[k];
    }
  }

  /** Reading the file a compressor wrote yields its blocks, in order, and then nothing:
      what the pipeline's reader is assumed to do. */
  method ReadAll(file: seq<byte>, ghost blocks: seq<Block>, count: nat) returns (got: seq<Block>)
    requires Framable(blocks) && blocks != [] && file == Framed(blocks)
    ensures |got| == count
    ensures forall transform: Block -> Block, k :: 0 <= k < count ==> got[k] == Job(blocks, transform).Read(k)
  {
    var r := new BlockReader(file, blocks);
    got := [];
    for k := 0 to count
      invariant fresh(r) && r.Ready(blocks, k)
      invariant |got| == k && forall j :: 0 <= j < k ==> got[j] == if j < |blocks| then blocks[j] else []
    {
      var block := r.Next(blocks, k);
      got := got + [block];
    }
  }
}
