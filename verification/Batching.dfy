/** The vectorised compressor (`compressSIMD`): lines are cut into chunks, chunks are
    collected into batches across line boundaries, and the codes are copied out in
    order.  Batching cannot be seen in the result. */
module Batching {
  import opened Bytes
  import opened Dictionary
  import opened CountingSort
  import opened FinalTables
  import opened Compression
  import opened Jobs
  import opened BatchPlan
  import opened BatchBudget

  /** A place in the text: how far line `line` has been handled, and whether any job
      of that line exists yet. */
  datatype Pos = Pos(line: nat, off: nat, seen: bool)

  /** The chunk of line `line` that starts at `off`. */
  datatype Piece = Piece(line: nat, off: nat, len: nat) {
    function End(): Pos { Pos(line, off + len, true) }
  }

  /** A chunk as the compressor cuts it. */
  predicate Cut(lines: Lines, p: Piece) {
    p.line < |lines| && p.off <= |lines[p.line]| && p.len == Min(CHUNK, |lines[p.line]| - p.off)
  }

  function TextOf(lines: Lines, p: Piece): seq<byte>
    requires Cut(lines, p)
  {
    lines[p.line][p.off..p.off + p.len]
  }

  /** Chunk `p` comes next at `pos`: in the same line, or first in the following one. */
  predicate Joined(lines: Lines, pos: Pos, line: nat, off: nat) {
    || (line == pos.line && off == pos.off)
    || (pos.seen && line == pos.line + 1 && off == 0 && pos.line < |lines| && pos.off == |lines[pos.line]|)
  }

  /** The chunks run from `from` to `to` without gap or overlap. */
  ghost predicate Chain(lines: Lines, chunks: seq<Piece>, from: Pos, to: Pos) {
    && (forall i :: 0 <= i < |chunks| ==> Cut(lines, chunks[i]))
    && (if chunks == [] then from == to
        else Joined(lines, from, chunks[0].line, chunks[0].off) && chunks[|chunks| - 1].End() == to)
    && forall i, k :: 0 <= i && k == i + 1 && k < |chunks| ==>
         Joined(lines, chunks[i].End(), chunks[k].line, chunks[k].off)
  }

  lemma ChainExtends(lines: Lines, chunks: seq<Piece>, from: Pos, to: Pos, p: Piece)
    requires Chain(lines, chunks, from, to) && Cut(lines, p) && Joined(lines, to, p.line, p.off)
    ensures Chain(lines, chunks + [p], from, p.End())
  {
    hide Cut, Joined;
  }

  // ------------------------------------------------------------------ copying out

  /** What has been copied out: all lines before `pos.line`, and the codes of
      `pos.line` up to `pos.off`, located by `strOut` (-1 while unset) and `lenOut`. */
  ghost predicate Written(r: Symbols, lines: Lines, dst: seq<byte>, strOut: seq<int>, lenOut: seq<nat>, pos: Pos)
    requires Encodable(r)
  {
    && pos.line < |lines| <= |strOut| && |lines| <= |lenOut| && pos.off <= |lines[pos.line]|
    && Located(r, false, lines, pos.line, strOut, lenOut)
    && (var base, line := EncodeLines(r, false, lines[..pos.line]), lines[pos.line];
        && base <= dst
        && dst[|base|..] + EncodeLine(r, false, line[pos.off..]) == EncodeLine(r, false, line)
        && (if pos.seen then strOut[pos.line] == |base| && lenOut[pos.line] == |dst| - |base|
            else pos.off == 0 && dst == base))
  }

  /** Lines from `a` on and before `b` have been started but nothing of them copied out. */
  ghost predicate Blank(strOut: seq<int>, lenOut: seq<nat>, a: int, b: nat) {
    && b <= |strOut| && b <= |lenOut|
    && forall l :: 0 <= l && a <= l < b ==> strOut[l] == -1 && lenOut[l] == 0
  }

  /** A line is complete: the text so far is the encoding of one more line. */
  lemma WrittenLine(r: Symbols, lines: Lines, dst: seq<byte>, strOut: seq<int>, lenOut: seq<nat>, pos: Pos)
    requires Encodable(r) && Written(r, lines, dst, strOut, lenOut, pos)
    requires pos.seen && pos.off == |lines[pos.line]|
    ensures dst == EncodeLines(r, false, lines[..pos.line + 1])
    ensures Located(r, false, lines, pos.line + 1, strOut, lenOut)
  {
    hide EncodeLines, EncodeLine, Encodable;
    var base, line := EncodeLines(r, false, lines[..pos.line]), lines[pos.line];
    EncodeLinesStep(r, false, lines, pos.line);
    EncodeNothing(r, false);
    assert line[|line|..] == [];
    assert dst == base + dst[|base|..];
  }

  lemma WrittenFresh(r: Symbols, lines: Lines, dst: seq<byte>, strOut: seq<int>, lenOut: seq<nat>, l: nat)
    requires Encodable(r) && l < |lines| && dst == EncodeLines(r, false, lines[..l])
    requires Located(r, false, lines, l, strOut, lenOut)
    ensures Written(r, lines, dst, strOut, lenOut, Pos(l, 0, false))
  {
    hide EncodeLines, EncodeLine, Encodable;
    var next := lines[l];
    assert next[0..] == next;
    assert [] + EncodeLine(r, false, next) == EncodeLine(r, false, next);
  }

  /** The position of a chunk that comes next. */
  function Arrived(pos: Pos, p: Piece): Pos {
    if p.line == pos.line then pos else Pos(p.line, 0, false)
  }

  lemma WrittenArrives(r: Symbols, lines: Lines, dst: seq<byte>, strOut: seq<int>, lenOut: seq<nat>, pos: Pos, p: Piece)
    requires Encodable(r) && Written(r, lines, dst, strOut, lenOut, pos)
    requires Cut(lines, p) && Joined(lines, pos, p.line, p.off)
    ensures Written(r, lines, dst, strOut, lenOut, Arrived(pos, p)) && Arrived(pos, p).off == p.off
  {
    hide Written, Encodable, EncodeLines;
    if p.line != pos.line {
      WrittenLine(r, lines, dst, strOut, lenOut, pos);
      WrittenFresh(r, lines, dst, strOut, lenOut, p.line);
    }
  }

  lemma SlicesOfRest(line: seq<byte>, off: nat, n: nat)
    requires off + n <= |line|
    ensures line[off..][..n] == line[off..off + n] && line[off..][n..] == line[off + n..]
  {
  }

  lemma CodesAppend(r: Symbols, line: seq<byte>, off: nat, n: nat, done: seq<byte>)
    requires Encodable(r) && off <= |line| && n == Min(CHUNK, |line| - off)
    requires done + EncodeLine(r, false, line[off..]) == EncodeLine(r, false, line)
    ensures (done + Encode(r, line[off..off + n])) + EncodeLine(r, false, line[off + n..]) == EncodeLine(r, false, line)
  {
    hide Encode, EncodeLine, Encodable;
    SlicesOfRest(line, off, n);
    EncodeLineSplit(r, false, line[off..]);
    var x, y := Encode(r, line[off..off + n]), EncodeLine(r, false, line[off + n..]);
    assert EncodeLine(r, false, line[off..]) == x + y;
    AppendAssociates(done, x, y);
  }

  /** What copying out one more job does to `strOut` and `lenOut`. */
  function NoteStart(strOut: seq<int>, l: nat, at: nat): seq<int>
    requires l < |strOut|
  {
    if strOut[l] == -1 then strOut[l := at] else strOut
  }

  lemma LocatedKept(r: Symbols, lines: Lines, n: nat, strOut: seq<int>, lenOut: seq<nat>, strOut': seq<int>,
                    lenOut': seq<nat>)
    requires Encodable(r) && Located(r, false, lines, n, strOut, lenOut)
    requires |strOut'| == |strOut| && |lenOut'| == |lenOut|
    requires forall l :: 0 <= l < n ==> strOut'[l] == strOut[l] && lenOut'[l] == lenOut[l]
    ensures Located(r, false, lines, n, strOut', lenOut')
  {
  }

  /** Copying out the codes of the next chunk. */
  lemma WrittenStep(r: Symbols, lines: Lines, dst: seq<byte>, strOut: seq<int>, lenOut: seq<nat>, pos: Pos, p: Piece)
    requires Encodable(r) && Written(r, lines, dst, strOut, lenOut, pos)
    requires Cut(lines, p) && p.line == pos.line && p.off == pos.off
    requires !pos.seen ==> strOut[p.line] == -1 && lenOut[p.line] == 0
    ensures var z := Encode(r, TextOf(lines, p));
      Written(r, lines, dst + z, NoteStart(strOut, p.line, |dst|), lenOut[p.line := lenOut[p.line] + |z|], p.End())
  {
    hide EncodeLines, EncodeLine, Encode, Encodable, Located;
    var z, l := Encode(r, TextOf(lines, p)), p.line;
    var base := EncodeLines(r, false, lines[..l]);
    var strOut', lenOut': seq<nat> := NoteStart(strOut, l, |dst|), lenOut[l := lenOut[l] + |z|];
    LocatedKept(r, lines, l, strOut, lenOut, strOut', lenOut');
    CodesAppend(r, lines[l], p.off, p.len, dst[|base|..]);
    assert (dst + z)[|base|..] == dst[|base|..] + z;
  }

  function PiecesOf(lines: Lines, chunks: seq<Piece>): (ps: seq<seq<byte>>)
    requires forall i :: 0 <= i < |chunks| ==> Cut(lines, chunks[i])
    ensures |ps| == |chunks| && forall i :: 0 <= i < |chunks| ==> ps[i] == TextOf(lines, chunks[i])
  {
    seq(|chunks|, i requires 0 <= i < |chunks| => TextOf(lines, chunks[i]))
  }

  /** Where the text stands once the first `i` chunks are handled. */
  function After(chunks: seq<Piece>, from: Pos, i: nat): Pos
    requires i <= |chunks|
  {
    if i == 0 then from else chunks[i - 1].End()
  }

  lemma ChainNext(lines: Lines, chunks: seq<Piece>, from: Pos, to: Pos, i: nat)
    requires Chain(lines, chunks, from, to) && i <= |chunks|
    ensures i < |chunks| ==>
      Cut(lines, chunks[i]) && Joined(lines, After(chunks, from, i), chunks[i].line, chunks[i].off)
    ensures i == |chunks| ==> After(chunks, from, i) == to
  {
    hide Cut, Joined;
  }

  function FirstBlank(pos: Pos): nat { if pos.seen then pos.line + 1 else pos.line }

  /** The text is written up to `pos`, and the lines started beyond it are blank. */
  ghost predicate Copied(r: Symbols, lines: Lines, dst: seq<byte>, strOut: seq<int>, lenOut: seq<nat>, pos: Pos,
                         started: nat)
    requires Encodable(r)
  {
    Written(r, lines, dst, strOut, lenOut, pos) && Blank(strOut, lenOut, FirstBlank(pos), started)
  }

  lemma CopiedStep(r: Symbols, lines: Lines, dst: seq<byte>, strOut: seq<int>, lenOut: seq<nat>, pos: Pos,
                   started: nat, p: Piece)
    requires Encodable(r) && Copied(r, lines, dst, strOut, lenOut, pos, started)
    requires Cut(lines, p) && Joined(lines, pos, p.line, p.off) && p.line < started
    ensures p.line < |strOut| && p.line < |lenOut|
    ensures var z := Encode(r, TextOf(lines, p));
      Copied(r, lines, dst + z, NoteStart(strOut, p.line, |dst|), lenOut[p.line := lenOut[p.line] + |z|],
             p.End(), started)
  {
    hide Written, Encodable, Encode;
    WrittenArrives(r, lines, dst, strOut, lenOut, pos, p);
    WrittenStep(r, lines, dst, strOut, lenOut, Arrived(pos, p), p);
  }

  lemma DoneJob(r: Symbols, b: seq<byte>, plan: seq<Job>, lines: Lines, chunks: seq<Piece>, finished: seq<Job>, i: nat)
    requires Encodable(r) && (forall k :: 0 <= k < |chunks| ==> Cut(lines, chunks[k])) && i < |chunks|
    requires Done(r, b, plan, PiecesOf(lines, chunks), finished)
    ensures i < |finished| && IN_SIZE + finished[i].out + finished[i].end <= |b|
    ensures var o := IN_SIZE + finished[i].out;
      b[o..o + finished[i].end] == Encode(r, TextOf(lines, chunks[i]))
  {
    hide Encode, Encodable, Cut;
    var pieces := PiecesOf(lines, chunks);
    assert finished[i] == Outcome(r, plan, pieces, i) && Compressed(r, b, plan, pieces, i);
  }

  /** Copies out one job. */
  method CopyJob(dst: seq<byte>, codes: seq<byte>, lineNr: nat, strOut: array<int>, lenOut: array<nat>,
                 ghost lines: Lines, ghost pos: Pos, ghost started: nat, ghost p: Piece, ghost r: Symbols)
    returns (dst': seq<byte>)
    requires Encodable(r) && Copied(r, lines, dst, strOut[..], lenOut[..], pos, started)
    requires Cut(lines, p) && Joined(lines, pos, p.line, p.off) && p.line < started && lineNr == p.line
    requires codes == Encode(r, TextOf(lines, p))
    modifies strOut, lenOut
    ensures Copied(r, lines, dst', strOut[..], lenOut[..], p.End(), started)
  {
    hide Copied, Encodable, Encode, Cut, Joined;
    CopiedStep(r, lines, dst, strOut[..], lenOut[..], pos, started, p);
    ghost var strOut0: seq<int>, lenOut0: seq<nat> := strOut[..], lenOut[..];
    if strOut[lineNr] == -1 {
      strOut[lineNr] := |dst|;
    }
    lenOut[lineNr] := lenOut[lineNr] + |codes|;
    dst' := dst + codes;
    assert strOut[..] == NoteStart(strOut0, lineNr, |dst|);
    assert lenOut[..] == lenOut0[lineNr := lenOut0[lineNr] + |codes|];
  }

  /** Copies out a finished batch, job by job in the order of the text. */
  method CopyOut(b: array<byte>, finished: seq<Job>, jobLine: seq<nat>, dst0: seq<byte>,
                 strOut: array<int>, lenOut: array<nat>, ghost plan: seq<Job>, ghost lines: Lines,
                 ghost chunks: seq<Piece>, ghost from: Pos, ghost to: Pos, ghost started: nat, ghost r: Symbols)
    returns (dst: seq<byte>)
    requires Encodable(r) && Chain(lines, chunks, from, to)
    requires Done(r, b[..], plan, PiecesOf(lines, chunks), finished)
    requires |jobLine| == |finished| == |chunks|
    requires forall i :: 0 <= i < |chunks| ==> jobLine[i] == chunks[i].line < started
    requires Copied(r, lines, dst0, strOut[..], lenOut[..], from, started)
    modifies strOut, lenOut
    ensures Copied(r, lines, dst, strOut[..], lenOut[..], to, started)
  {
    hide Copied, Encodable, Encode, Cut, Joined, Done;
    dst := dst0;
    for i := 0 to |finished|
      invariant Copied(r, lines, dst, strOut[..], lenOut[..], After(chunks, from, i), started)
      invariant b[..] == old(b[..])
    {
      ChainNext(lines, chunks, from, to, i);
      DoneJob(r, b[..], plan, lines, chunks, finished, i);
      var o := IN_SIZE + finished[i].out;
      var codes := b[o..o + finished[i].end];
      assert codes == b[..][o..o + finished[i].end];
      dst := CopyJob(dst, codes, jobLine[i], strOut, lenOut, lines, After(chunks, from, i), started, chunks[i], r);
    }
    ChainNext(lines, chunks, from, to, |chunks|);
  }

  // ------------------------------------------------------------ filling a batch

  /** The batch under construction: jobs, their lines, next free input and output
      offsets, and the number of empty jobs. */
  datatype Batch = Batch(input: seq<Job>, jobLine: seq<nat>, inOff: nat, outOff: nat, empty: nat)

  const NO_JOBS := Batch([], [], 0, 0, 0)

  /** Jobs lie below the next free offsets. */
  ghost predicate Bounded(bt: Batch, pieces: seq<seq<byte>>) {
    && |bt.input| == |pieces| && bt.inOff <= BATCH * |bt.input|
    && forall i :: 0 <= i < |pieces| ==>
         && bt.input[i].end <= bt.inOff && (pieces[i] != [] ==> bt.input[i].end < bt.inOff)
         && bt.input[i].out + Room(|pieces[i]|) <= bt.outOff
  }

  ghost predicate Filled(lines: Lines, bt: Batch, chunks: seq<Piece>, b: seq<byte>, terminator: byte) {
    && (forall i :: 0 <= i < |chunks| ==> Cut(lines, chunks[i]))
    && |bt.jobLine| == |chunks| && (forall i :: 0 <= i < |chunks| ==> bt.jobLine[i] == chunks[i].line)
    && Laid(bt.input, PiecesOf(lines, chunks))
    && Staged(b, bt.input, PiecesOf(lines, chunks), terminator)
    && Bounded(bt, PiecesOf(lines, chunks))
    && ShortJobs(bt.input) && bt.empty == Equal(LengthKeys(bt.input), CHUNK)
  }

  /** The next job, before its fields are packed. */
  function NextJob(bt: Batch, n: nat): Job {
    Job(bt.inOff, bt.inOff + n, |bt.input|, bt.outOff)
  }

  /** The batch with one more job. */
  function WithJob(bt: Batch, line: nat, n: nat): Batch {
    Batch(bt.input + [NextJob(bt, n)], bt.jobLine + [line],
          if n == 0 then bt.inOff else bt.inOff + n + 1, bt.outOff + Room(n),
          if n == 0 then bt.empty + 1 else bt.empty)
  }

  lemma BoundedGrows(bt: Batch, pieces: seq<seq<byte>>, line: nat, text: seq<byte>)
    requires Bounded(bt, pieces) && |bt.input| < BATCH && |text| <= CHUNK
    ensures Bounded(WithJob(bt, line, |text|), pieces + [text])
  {
  }

  lemma LaidGrows(bt: Batch, pieces: seq<seq<byte>>, line: nat, text: seq<byte>)
    requires Laid(bt.input, pieces) && Bounded(bt, pieces) && |bt.input| < BATCH && |text| <= CHUNK
    requires bt.outOff + Room(|text|) <= OUT_SIZE
    ensures Laid(WithJob(bt, line, |text|).input, pieces + [text])
  {
  }

  /** The staging buffer with one more chunk, ended by the terminator. */
  ghost predicate Appended(before: seq<byte>, after: seq<byte>, inOff: nat, text: seq<byte>, terminator: byte) {
    && |before| == |after|
    && (forall k :: 0 <= k < inOff && k < |after| ==> after[k] == before[k])
    && (text != [] ==>
          inOff + |text| < |after| && after[inOff..inOff + |text|] == text && after[inOff + |text|] == terminator)
  }

  lemma StagedGrows(before: seq<byte>, after: seq<byte>, bt: Batch, pieces: seq<seq<byte>>, line: nat,
                    text: seq<byte>, terminator: byte)
    requires Staged(before, bt.input, pieces, terminator) && Bounded(bt, pieces) && |bt.input| < BATCH
    requires |text| <= CHUNK
    requires Appended(before, after, bt.inOff, text, terminator)
    ensures Staged(after, WithJob(bt, line, |text|).input, pieces + [text], terminator)
  {
    var input', pieces' := WithJob(bt, line, |text|).input, pieces + [text];
    forall p | 0 <= p < |input'| && pieces'[p] != []
      ensures input'[p].end < IN_SIZE && input'[p].cur <= input'[p].end
      ensures after[input'[p].cur..input'[p].end] == pieces'[p] && after[input'[p].end] == terminator
    {
      if p < |pieces| {
        assert after[input'[p].cur..input'[p].end] == before[bt.input[p].cur..bt.input[p].end];
      }
    }
  }

  lemma KeysGrow(jobs: seq<Job>, j: Job)
    requires ShortJobs(jobs) && j.cur <= j.end <= j.cur + CHUNK
    ensures ShortJobs(jobs + [j])
    ensures Equal(LengthKeys(jobs + [j]), CHUNK) == Equal(LengthKeys(jobs), CHUNK) + (if j.cur == j.end then 1 else 0)
  {
    var keys := LengthKeys(jobs + [j]);
    assert keys[..|jobs|] == LengthKeys(jobs);
  }

  lemma TextLength(lines: Lines, p: Piece)
    requires Cut(lines, p)
    ensures |TextOf(lines, p)| == p.len <= CHUNK
  {
  }

  lemma FilledGrows(lines: Lines, bt: Batch, chunks: seq<Piece>, before: seq<byte>, after: seq<byte>,
                    terminator: byte, p: Piece)
    requires Filled(lines, bt, chunks, before, terminator) && Cut(lines, p) && |bt.input| < BATCH
    requires bt.outOff + Room(p.len) <= OUT_SIZE
    requires Appended(before, after, bt.inOff, TextOf(lines, p), terminator)
    ensures Filled(lines, WithJob(bt, p.line, p.len), chunks + [p], after, terminator)
  {
    hide Laid, Staged, Bounded, Appended, Equal, Cut, TextOf;
    var text := TextOf(lines, p);
    TextLength(lines, p);
    var pieces := PiecesOf(lines, chunks);
    assert PiecesOf(lines, chunks + [p]) == pieces + [text];
    LaidGrows(bt, pieces, p.line, text);
    BoundedGrows(bt, pieces, p.line, text);
    StagedGrows(before, after, bt, pieces, p.line, text, terminator);
    KeysGrow(bt.input, NextJob(bt, p.len));
  }

  /** Nothing is lost when the next job is packed, as long as it can be registered;
      and even when it cannot, its length is computed right. */
  lemma NextJobFits(bt: Batch, pieces: seq<seq<byte>>, n: nat)
    requires Bounded(bt, pieces) && |bt.input| < BATCH && n <= CHUNK
    ensures var j := NextJob(bt, n); var k := Packed(j.cur, j.end, j.pos, j.out);
      k.end - k.cur == n && (bt.outOff + Room(n) <= OUT_SIZE ==> k == j)
  {
  }

  /** Copies a chunk to the staging buffer behind the others. */
  method StageChunk(b: array<byte>, inOff: nat, text: seq<byte>, terminator: byte)
    requires inOff + |text| < b.Length && text != []
    modifies b
    ensures Appended(old(b[..]), b[..], inOff, text, terminator)
  {
    ghost var before := b[..];
    for k := 0 to |text|
      invariant forall m :: 0 <= m < inOff ==> b[m] == before[m]
      invariant b[inOff..inOff + k] == text[..k]
    {
      b[inOff + k] := text[k];
    }
    b[inOff + |text|] := terminator;
    assert b[..][inOff..inOff + |text|] == text;
  }

  lemma FilledBounds(lines: Lines, bt: Batch, chunks: seq<Piece>, b: seq<byte>, terminator: byte)
    requires Filled(lines, bt, chunks, b, terminator)
    ensures bt.inOff <= BATCH * |bt.input| && |b| == IN_SIZE + OUT_SIZE && |bt.input| == |chunks|
    ensures (forall i :: 0 <= i < |chunks| ==> Cut(lines, chunks[i])) && Bounded(bt, PiecesOf(lines, chunks))
  {
    hide Laid, Equal, Cut;
  }

  lemma FilledFull(lines: Lines, bt: Batch, chunks: seq<Piece>, b: seq<byte>, terminator: byte, outOff: nat)
    requires Filled(lines, bt, chunks, b, terminator) && bt.outOff <= outOff
    ensures Filled(lines, bt.(outOff := outOff), chunks, b, terminator)
  {
    hide Laid, Equal, Cut, Staged;
  }

  lemma AppendedNothing(b: seq<byte>, inOff: nat, terminator: byte)
    ensures Appended(b, b, inOff, [], terminator)
  {
  }

  /** Registers the next chunk as a job, unless the batch might overflow. */
  method AddChunk(b: array<byte>, lines: Lines, curLine: nat, curOff: nat, bt: Batch, terminator: byte,
                  ghost chunks: seq<Piece>)
    returns (registered: bool, curOff': nat, bt': Batch)
    requires curLine < |lines| && curOff <= |lines[curLine]|
    requires Filled(lines, bt, chunks, b[..], terminator) && |bt.input| < BATCH && bt.outOff <= OUT_SIZE
    modifies b
    ensures var p := Piece(curLine, curOff, Min(CHUNK, |lines[curLine]| - curOff));
      if registered then
        && Filled(lines, bt', chunks + [p], b[..], terminator) && bt'.outOff == bt.outOff + Room(p.len) <= OUT_SIZE
        && curOff' == curOff + p.len && |bt'.input| == |bt.input| + 1
      else
        && Filled(lines, bt', chunks, b[..], terminator) && bt'.outOff == bt.outOff + Room(p.len) > OUT_SIZE
        && curOff' == curOff && bt'.input == bt.input
  {
    hide Filled, Appended, Bounded, Cut;
    FilledBounds(lines, bt, chunks, b[..], terminator);
    var chunk := Min(CHUNK, |lines[curLine]| - curOff);
    ghost var p := Piece(curLine, curOff, chunk);
    ghost var before := b[..];
    ChunkIsCut(lines, p);
    NextJobFits(bt, PiecesOf(lines, chunks), chunk);
    var job := Packed(bt.inOff, bt.inOff + chunk, |bt.input|, bt.outOff);
    var outOff := bt.outOff + 7 + 2 * (job.end - job.cur);
    if outOff > OUT_SIZE {
      FilledFull(lines, bt, chunks, b[..], terminator, outOff);
      return false, curOff, bt.(outOff := outOff);
    }
    var text := lines[curLine][curOff..curOff + chunk];
    if chunk == 0 {
      AppendedNothing(before, bt.inOff, terminator);
      bt' := Batch(bt.input + [job], bt.jobLine + [curLine], bt.inOff, outOff, bt.empty + 1);
    } else {
      StageChunk(b, bt.inOff, text, terminator);
      bt' := Batch(bt.input + [job], bt.jobLine + [curLine], bt.inOff + chunk + 1, outOff, bt.empty);
    }
    FilledGrows(lines, bt, chunks, before, b[..], terminator, p);
    registered, curOff' := true, curOff + chunk;
  }

  lemma ChunkIsCut(lines: Lines, p: Piece)
    requires p.line < |lines| && p.off <= |lines[p.line]| && p.len == Min(CHUNK, |lines[p.line]| - p.off)
    ensures Cut(lines, p) && TextOf(lines, p) == lines[p.line][p.off..p.off + p.len]
  {
  }

  ghost predicate LinesBelow(chunks: seq<Piece>, started: nat) {
    forall i :: 0 <= i < |chunks| ==> chunks[i].line < started
  }

  /** The batch and the text agree: the chunks registered since the last flush lead
      from `from` to `pos`, and all belong to started lines. */
  ghost predicate Gathered(lines: Lines, bt: Batch, chunks: seq<Piece>, b: seq<byte>, terminator: byte,
                           from: Pos, pos: Pos, started: nat) {
    Filled(lines, bt, chunks, b, terminator) && Chain(lines, chunks, from, pos) && LinesBelow(chunks, started)
  }

  /** One round of the inner loop. */
  method GatherOne(b: array<byte>, lines: Lines, curLine: nat, curOff: nat, bt: Batch, terminator: byte,
                   ghost chunks: seq<Piece>, ghost from: Pos, ghost pos: Pos)
    returns (registered: bool, curOff': nat, bt': Batch, ghost chunks': seq<Piece>, ghost pos': Pos)
    requires curLine < |lines| && curOff <= |lines[curLine]|
    requires Gathered(lines, bt, chunks, b[..], terminator, from, pos, curLine + 1)
    requires Joined(lines, pos, curLine, curOff) && |bt.input| < BATCH && bt.outOff <= OUT_SIZE
    modifies b
    ensures Gathered(lines, bt', chunks', b[..], terminator, from, pos', curLine + 1)
    ensures var n := Min(CHUNK, |lines[curLine]| - curOff);
      && bt'.outOff == bt.outOff + Room(n) && registered == (bt'.outOff <= OUT_SIZE)
      && curOff' == if registered then curOff + n else curOff
    ensures registered ==> pos' == Pos(curLine, curOff', true) && |bt'.input| == |bt.input| + 1
    ensures !registered ==> pos' == pos && bt'.input == bt.input
  {
    hide Filled, Chain, Joined, Cut;
    ghost var p := Piece(curLine, curOff, Min(CHUNK, |lines[curLine]| - curOff));
    chunks', pos' := chunks, pos;
    registered, curOff', bt' := AddChunk(b, lines, curLine, curOff, bt, terminator, chunks);
    if registered {
      ChunkIsCut(lines, p);
      ChainExtends(lines, chunks, from, pos, p);
      chunks', pos' := chunks + [p], p.End();
    }
  }

  lemma JoinedHere(lines: Lines, pos: Pos)
    ensures Joined(lines, pos, pos.line, pos.off)
  {
  }

  /** The batch as the plan sees it. */
  function FillOf(bt: Batch, flushed: int): Fill { Fill(|bt.input|, bt.outOff, flushed) }

  /** The inner loop: cuts the line into chunks until the batch is full or the line ends. */
  method GatherLine(b: array<byte>, lines: Lines, curLine: nat, curOff0: nat, bt0: Batch, terminator: byte,
                    ghost chunks0: seq<Piece>, ghost from: Pos, ghost pos0: Pos, ghost flushed: int)
    returns (curOff: nat, bt: Batch, ghost chunks: seq<Piece>, ghost pos: Pos)
    requires curLine < |lines| && Aligned(|lines[curLine]|, curOff0)
    requires Gathered(lines, bt0, chunks0, b[..], terminator, from, pos0, curLine + 1)
    requires Joined(lines, pos0, curLine, curOff0) && Open(|bt0.input|, bt0.outOff)
    modifies b
    ensures Gathered(lines, bt, chunks, b[..], terminator, from, pos, curLine + 1)
    ensures Aligned(|lines[curLine]|, curOff) && Joined(lines, pos, curLine, curOff)
    ensures curOff0 <= curOff && 0 < |bt.input| <= BATCH
    ensures bt0.input == [] ==> curOff0 < curOff || (|bt.input| < BATCH && bt.outOff <= OUT_SIZE)
    ensures var plan := FillLine(|lines[curLine]|, curOff0, FillOf(bt0, flushed));
      if |bt.input| < BATCH && bt.outOff <= OUT_SIZE then
        plan == FillOf(bt, flushed) && pos == Pos(curLine, |lines[curLine]|, true)
      else
        plan == FillLine(|lines[curLine]|, curOff, Fill(0, 0, curOff))
  {
    hide Gathered, Joined, Cut, FillLine, Aligned;
    AlignedNext(|lines[curLine]|, curOff0);
    curOff, bt, chunks, pos := curOff0, bt0, chunks0, pos0;
    while true
      invariant Gathered(lines, bt, chunks, b[..], terminator, from, pos, curLine + 1)
      invariant curOff0 <= curOff <= |lines[curLine]| && Joined(lines, pos, curLine, curOff)
      invariant Aligned(|lines[curLine]|, curOff) && Open(|bt.input|, bt.outOff)
      invariant if curOff == curOff0 then bt == bt0 else curOff < |lines[curLine]| && bt.input != []
      invariant FillLine(|lines[curLine]|, curOff, FillOf(bt, flushed))
                  == FillLine(|lines[curLine]|, curOff0, FillOf(bt0, flushed))
      decreases |lines[curLine]| - curOff
    {
      AlignedNext(|lines[curLine]|, curOff);
      FillStep(|lines[curLine]|, curOff, FillOf(bt, flushed));
      var registered;
      registered, curOff, bt, chunks, pos := GatherOne(b, lines, curLine, curOff, bt, terminator, chunks, from, pos);
      if !registered {
        return;
      }
      JoinedHere(lines, pos);
      if |bt.input| == BATCH || curOff >= |lines[curLine]| {
        return;
      }
    }
  }

  // -------------------------------------------------------------- flush and run

  /** Everything the loops keep between two steps: the batch, the text copied out
      before it, and the lines started so far. */
  ghost predicate Running(r: Symbols, lines: Lines, bt: Batch, chunks: seq<Piece>, b: seq<byte>, terminator: byte,
                          dst: seq<byte>, strOut: seq<int>, lenOut: seq<nat>, from: Pos, pos: Pos, started: nat)
    requires Encodable(r)
  {
    && Gathered(lines, bt, chunks, b, terminator, from, pos, started)
    && Copied(r, lines, dst, strOut, lenOut, from, started) && FirstBlank(from) <= started
  }

  lemma FilledNothing(lines: Lines, b: seq<byte>, terminator: byte)
    requires |b| == IN_SIZE + OUT_SIZE
    ensures Filled(lines, NO_JOBS, [], b, terminator)
  {
  }

  lemma FlushEnds(lines: Lines, bt: Batch, chunks: seq<Piece>, b: seq<byte>, b': seq<byte>, terminator: byte,
                  from: Pos, pos: Pos, started: nat)
    requires Gathered(lines, bt, chunks, b, terminator, from, pos, started) && FirstBlank(from) <= started
    requires |b'| == |b|
    ensures Gathered(lines, NO_JOBS, [], b', terminator, pos, pos, started) && FirstBlank(pos) <= started
  {
    hide Cut, Joined, Laid, Equal, PiecesOf;
    FilledBounds(lines, bt, chunks, b, terminator);
    FilledNothing(lines, b', terminator);
  }

  lemma FlushStarts(lines: Lines, bt: Batch, chunks: seq<Piece>, b: seq<byte>, terminator: byte, from: Pos,
                    pos: Pos, started: nat)
    requires Gathered(lines, bt, chunks, b, terminator, from, pos, started)
    ensures forall i :: 0 <= i < |chunks| ==> Cut(lines, chunks[i])
    ensures Laid(bt.input, PiecesOf(lines, chunks)) && Staged(b, bt.input, PiecesOf(lines, chunks), terminator)
    ensures ShortJobs(bt.input) && bt.empty == Equal(LengthKeys(bt.input), CHUNK)
    ensures |bt.jobLine| == |chunks| == |bt.input| && Chain(lines, chunks, from, pos)
    ensures forall i :: 0 <= i < |chunks| ==> bt.jobLine[i] == chunks[i].line < started
  {
    hide Cut, Joined, Equal, Staged, Chain;
  }

  lemma DoneSize(r: Symbols, b: seq<byte>, plan: seq<Job>, pieces: seq<seq<byte>>, finished: seq<Job>)
    requires Encodable(r) && Done(r, b, plan, pieces, finished)
    ensures |finished| == |plan| == |pieces|
  {
  }

  /** Compresses the batch and copies it out. */
  method Flush(c: Coder, b: array<byte>, bt: Batch, kernel: Kernel, dst0: seq<byte>, strOut: array<int>,
               lenOut: array<nat>,
               ghost lines: Lines, ghost chunks: seq<Piece>, ghost from: Pos, ghost pos: Pos, ghost started: nat,
               ghost r: Symbols)
    returns (dst: seq<byte>)
    requires Final(c, r) && TerminatorFree(r, c.terminator)
    requires Running(r, lines, bt, chunks, b[..], c.terminator, dst0, strOut[..], lenOut[..], from, pos, started)
    requires bt.empty <= |bt.input| ==> Possible(kernel, |bt.input| - bt.empty)
    modifies b, strOut, lenOut
    ensures Running(r, lines, NO_JOBS, [], b[..], c.terminator, dst, strOut[..], lenOut[..], pos, pos, started)
  {
    hide Final, TerminatorFree, Encodable, Gathered, Copied, Laid, Staged, Chain, Done, Possible, Equal, Cut,
         PiecesOf, ShortJobs;
    FinalEncodable(c, r);
    ghost var before := b[..];
    FlushStarts(lines, bt, chunks, before, c.terminator, from, pos, started);
    ghost var pieces := PiecesOf(lines, chunks);
    var finished := RunBatch(c, b, bt.input, bt.empty, kernel, r, pieces);
    DoneSize(r, b[..], bt.input, pieces, finished);
    ghost var after := b[..];
    dst := CopyOut(b, finished, bt.jobLine, dst0, strOut, lenOut, bt.input, lines, chunks, from, pos, started, r);
    FlushEnds(lines, bt, chunks, before, b[..], c.terminator, from, pos, started);
  }

  /** How much has been copied out is a matter of the place reached. */
  lemma WrittenCodes(r: Symbols, lines: Lines, dst: seq<byte>, strOut: seq<int>, lenOut: seq<nat>, pos: Pos,
                     line: nat, off: nat)
    requires Encodable(r) && Written(r, lines, dst, strOut, lenOut, pos)
    requires line < |lines| && Aligned(|lines[line]|, off) && Joined(lines, pos, line, off)
    ensures |dst| == CodesAt(r, lines, line, off)
  {
    hide EncodeLines, EncodeLine, Encodable, Located;
    var p := Piece(line, off, Min(CHUNK, |lines[line]| - off));
    WrittenArrives(r, lines, dst, strOut, lenOut, pos, p);
    EncodeLineCut(r, false, lines[line], off);
  }

  lemma RunningCodes(r: Symbols, lines: Lines, bt: Batch, chunks: seq<Piece>, b: seq<byte>, terminator: byte,
                     dst: seq<byte>, strOut: seq<int>, lenOut: seq<nat>, pos: Pos, started: nat, line: nat, off: nat)
    requires Encodable(r) && Running(r, lines, bt, chunks, b, terminator, dst, strOut, lenOut, pos, pos, started)
    requires line < |lines| && Aligned(|lines[line]|, off) && Joined(lines, pos, line, off)
    ensures |dst| == CodesAt(r, lines, line, off)
  {
    hide Encodable, Written, Gathered, Joined, Aligned, CodesAt;
    WrittenCodes(r, lines, dst, strOut, lenOut, pos, line, off);
  }

  lemma WrittenLength(r: Symbols, lines: Lines, dst: seq<byte>, strOut: seq<int>, lenOut: seq<nat>, pos: Pos)
    requires Encodable(r) && Written(r, lines, dst, strOut, lenOut, pos)
    ensures pos.line < |lines| && |dst| <= 2 * TotalLength(lines[..pos.line + 1])
  {
    hide EncodeLines, EncodeLine, Encodable, Located;
    EncodeLinesStep(r, false, lines, pos.line);
    var base, line := EncodeLines(r, false, lines[..pos.line]), lines[pos.line];
    assert |dst[|base|..]| <= |EncodeLine(r, false, line)|;
  }

  /** What has been copied out is at most twice the started lines. */
  lemma RunningLength(r: Symbols, lines: Lines, bt: Batch, chunks: seq<Piece>, b: seq<byte>, terminator: byte,
                      dst: seq<byte>, strOut: seq<int>, lenOut: seq<nat>, from: Pos, pos: Pos, started: nat)
    requires Encodable(r) && from.seen && started <= |lines|
    requires Running(r, lines, bt, chunks, b, terminator, dst, strOut, lenOut, from, pos, started)
    ensures |dst| <= 2 * TotalLength(lines[..started])
  {
    hide Encodable, Written, Gathered, TotalLength;
    WrittenLength(r, lines, dst, strOut, lenOut, from);
    TotalLengthMonotone(lines[..started], from.line + 1);
    assert lines[..started][..from.line + 1] == lines[..from.line + 1];
  }

  /** Starting a line marks it blank. */
  lemma RunningStarts(r: Symbols, lines: Lines, bt: Batch, chunks: seq<Piece>, b: seq<byte>, terminator: byte,
                      dst: seq<byte>, strOut: seq<int>, lenOut: seq<nat>, from: Pos, pos: Pos, started: nat)
    requires Encodable(r) && started < |lines| <= |strOut| && |lines| <= |lenOut|
    requires Running(r, lines, bt, chunks, b, terminator, dst, strOut, lenOut, from, pos, started)
    ensures Running(r, lines, bt, chunks, b, terminator, dst, strOut[started := -1], lenOut[started := 0],
                    from, pos, started + 1)
  {
    hide Encodable, EncodeLines, EncodeLine, Located, Filled, Chain;
    LocatedKept(r, lines, from.line, strOut, lenOut, strOut[started := -1], lenOut[started := 0]);
  }

  /** Adding jobs leaves what was copied out alone. */
  lemma RunningGathers(r: Symbols, lines: Lines, bt: Batch, chunks: seq<Piece>, b: seq<byte>, terminator: byte,
                       dst: seq<byte>, strOut: seq<int>, lenOut: seq<nat>, from: Pos, pos: Pos, started: nat,
                       bt': Batch, chunks': seq<Piece>, b': seq<byte>, pos': Pos)
    requires Encodable(r) && Running(r, lines, bt, chunks, b, terminator, dst, strOut, lenOut, from, pos, started)
    requires Gathered(lines, bt', chunks', b', terminator, from, pos', started)
    ensures Running(r, lines, bt', chunks', b', terminator, dst, strOut, lenOut, from, pos', started)
  {
    hide Encodable, Gathered, Copied;
  }

  lemma RunningParts(r: Symbols, lines: Lines, bt: Batch, chunks: seq<Piece>, b: seq<byte>, terminator: byte,
                     dst: seq<byte>, strOut: seq<int>, lenOut: seq<nat>, from: Pos, pos: Pos, started: nat)
    requires Encodable(r) && Running(r, lines, bt, chunks, b, terminator, dst, strOut, lenOut, from, pos, started)
    ensures Gathered(lines, bt, chunks, b, terminator, from, pos, started)
    ensures |lines| <= |strOut| && |lines| <= |lenOut| && from.line < |lines|
    ensures 0 < started <= |lines| && from == pos == Pos(started - 1, |lines[started - 1]|, true) ==>
      dst == EncodeLines(r, false, lines[..started]) && Located(r, false, lines, started, strOut, lenOut)
  {
    hide Encodable, Gathered, EncodeLines, Located;
    if 0 < started <= |lines| && from == pos == Pos(started - 1, |lines[started - 1]|, true) {
      WrittenLine(r, lines, dst, strOut, lenOut, from);
    }
  }

  lemma PosOf(lines: Lines, bt: Batch, chunks: seq<Piece>, b: seq<byte>, terminator: byte, from: Pos, pos: Pos,
              started: nat)
    requires Gathered(lines, bt, chunks, b, terminator, from, pos, started) && bt.input != []
    ensures pos.seen
  {
    hide Cut, Joined, PiecesOf, Equal;
  }

  /** The loop over the batches that one line takes part in. */
  method BatchLine(c: Coder, b: array<byte>, lines: Lines, curLine: nat, size: nat, budget0: nat, bt0: Batch,
                   dst0: seq<byte>, strOut: array<int>, lenOut: array<nat>, vector: (nat, nat) -> Kernel, t0: nat,
                   ghost chunks0: seq<Piece>, ghost from0: Pos, ghost pos0: Pos, ghost r: Symbols)
    returns (budget: nat, bt: Batch, dst: seq<byte>, t: nat, ghost chunks: seq<Piece>, ghost from: Pos, ghost pos: Pos)
    requires Final(c, r) && TerminatorFree(r, c.terminator) && size < WORD
    requires forall t, n :: Possible(vector(t, n), n)
    requires curLine < |lines| && Joined(lines, pos0, curLine, 0)
    requires Running(r, lines, bt0, chunks0, b[..], c.terminator, dst0, strOut[..], lenOut[..],
                     from0, pos0, curLine + 1)
    requires Open(|bt0.input|, bt0.outOff) && budget0 >= 7
    requires budget0 >= size - 2 * TotalLength(lines[..curLine + 1])
    modifies b, strOut, lenOut
    ensures Running(r, lines, bt, chunks, b[..], c.terminator, dst, strOut[..], lenOut[..], from, pos, curLine + 1)
    ensures pos == Pos(curLine, |lines[curLine]|, true)
    ensures Open(|bt.input|, bt.outOff) && budget >= size - 2 * TotalLength(lines[..curLine + 1])
    ensures Meter(|bt.input|, bt.outOff, budget)
              == NextMeter(r, lines, curLine, size, Meter(|bt0.input|, bt0.outOff, budget0 + 2 * |lines[curLine]|))
    ensures (bt == NO_JOBS && from == pos) || Starts(lines, curLine + 1, budget)
  {
    hide Final, TerminatorFree, Encodable, Running, Gathered, Joined, TotalLength, Possible, FillLine, Aligned,
         BudgetAfter, CodesAt, SpaceLeft, NextMeter;
    FinalEncodable(c, r);
    budget, bt, dst, t, chunks, from, pos := budget0, bt0, dst0, t0, chunks0, from0, pos0;
    var curOff := 0;
    ghost var len, flushed := |lines[curLine]|, -1;
    LineBegins(r, lines, curLine, size, budget0);
    while true
      invariant Running(r, lines, bt, chunks, b[..], c.terminator, dst, strOut[..], lenOut[..], from, pos, curLine + 1)
      invariant Open(|bt.input|, bt.outOff) && budget >= size - 2 * TotalLength(lines[..curLine + 1])
      invariant curOff <= len && Aligned(len, curOff) && Joined(lines, pos, curLine, curOff) && flushed <= len
      invariant FillLine(len, curOff, FillOf(bt, flushed)) == FillLine(len, 0, FillOf(bt0, -1))
      invariant budget == BudgetAfter(r, lines, curLine, size, budget0, flushed)
      decreases len - curOff, if bt.input == [] then 0 else 1
    {
      RunningParts(r, lines, bt, chunks, b[..], c.terminator, dst, strOut[..], lenOut[..], from, pos, curLine + 1);
      ghost var bt1, chunks1, b1, pos1 := bt, chunks, b[..], pos;
      curOff, bt, chunks, pos := GatherLine(b, lines, curLine, curOff, bt, c.terminator, chunks, from, pos, flushed);
      RunningGathers(r, lines, bt1, chunks1, b1, c.terminator, dst, strOut[..], lenOut[..], from, pos1, curLine + 1,
                     bt, chunks, b[..], pos);
      AlignedNext(len, curOff);
      var sameLine := |bt.input| == BATCH || bt.outOff > OUT_SIZE;
      if !sameLine {
        LineEnded(r, lines, curLine, size, budget0, Fill(|bt0.input|, bt0.outOff, -1), FillOf(bt, flushed), budget);
      }
      if sameLine || curLine + 1 >= |lines| || 2 * |lines[curLine + 1]| + 7 > budget {
        PosOf(lines, bt, chunks, b[..], c.terminator, from, pos, curLine + 1);
        var work := if bt.empty <= |bt.input| then |bt.input| - bt.empty else 0;
        dst := Flush(c, b, bt, vector(t, work), dst, strOut, lenOut, lines, chunks, from, pos, curLine + 1, r);
        bt, chunks, from, t := NO_JOBS, [], pos, t + 1;
        RunningLength(r, lines, bt, chunks, b[..], c.terminator, dst, strOut[..], lenOut[..], from, pos, curLine + 1);
        RunningCodes(r, lines, bt, chunks, b[..], c.terminator, dst, strOut[..], lenOut[..], pos, curLine + 1,
                     curLine, curOff);
        RunningParts(r, lines, bt, chunks, b[..], c.terminator, dst, strOut[..], lenOut[..], from, pos, curLine + 1);
        SpaceLeftAtLeast(size, |dst|);
        budget := SpaceLeft(size, |dst|);
        BudgetFlushed(r, lines, curLine, size, budget0, curOff);
      }
      if !sameLine {
        return;
      }
      flushed := curOff;
    }
  }

  lemma SpaceLeftAtLeast(size: nat, used: nat)
    requires size < WORD
    ensures SpaceLeft(size, used) >= size - used
  {
  }

  lemma BudgetFlushed(r: Symbols, lines: Lines, k: nat, size: nat, budget: nat, off: nat)
    requires Encodable(r) && size < WORD && k < |lines| && off <= |lines[k]|
    ensures BudgetAfter(r, lines, k, size, budget, off) == SpaceLeft(size, CodesAt(r, lines, k, off))
  {
  }

  lemma LineBegins(r: Symbols, lines: Lines, k: nat, size: nat, budget: nat)
    requires Encodable(r) && size < WORD && k < |lines|
    ensures BudgetAfter(r, lines, k, size, budget, -1) == budget && Aligned(|lines[k]|, 0)
  {
  }

  /** The line has been registered: the state is that of the plan, up to a last flush. */
  lemma LineEnded(r: Symbols, lines: Lines, k: nat, size: nat, budget0: nat, f: Fill, g: Fill, budget: nat)
    requires Encodable(r) && size < WORD && k < |lines| && budget0 >= 7
    requires Open(f.jobs, f.room) && f.flushed == -1 && g == FillLine(|lines[k]|, 0, f)
    requires budget == BudgetAfter(r, lines, k, size, budget0, g.flushed)
    ensures NextMeter(r, lines, k, size, Meter(f.jobs, f.room, budget0 + 2 * |lines[k]|)) ==
      if Starts(lines, k + 1, budget) then Meter(g.jobs, g.room, budget)
      else Meter(0, 0, SpaceLeft(size, |EncodeLines(r, false, lines[..k + 1])|))
  {
    hide BudgetAfter, SpaceLeft, EncodeLines, FillLine, Encodable;
  }

  lemma RunningInit(r: Symbols, lines: Lines, b: seq<byte>, terminator: byte, strOut: seq<int>, lenOut: seq<nat>)
    requires Encodable(r) && 0 < |lines| <= |strOut| && |lines| <= |lenOut| && |b| == IN_SIZE + OUT_SIZE
    ensures Running(r, lines, NO_JOBS, [], b, terminator, [], strOut, lenOut, Pos(0, 0, false), Pos(0, 0, false), 0)
  {
    FilledNothing(lines, b, terminator);
    hide Filled, EncodeLine, Encodable;
    assert EncodeLines(r, false, lines[..0]) == [];
    WrittenFresh(r, lines, [], strOut, lenOut, 0);
  }

  lemma TotalAdds(lines: Lines, n: nat)
    requires n < |lines|
    ensures TotalLength(lines[..n + 1]) == TotalLength(lines[..n]) + |lines[n]|
  {
    assert lines[..n + 1][..n] == lines[..n];
  }

  /** Starts a line: charges the budget with it, marks it blank and registers it. */
  method TakeLine(c: Coder, b: array<byte>, lines: Lines, curLine: nat, size: nat, budget0: nat, bt0: Batch,
                  dst0: seq<byte>, strOut: array<int>, lenOut: array<nat>, vector: (nat, nat) -> Kernel, t0: nat,
                  ghost chunks0: seq<Piece>, ghost from0: Pos, ghost pos0: Pos, ghost r: Symbols)
    returns (budget: nat, bt: Batch, dst: seq<byte>, t: nat, ghost chunks: seq<Piece>, ghost from: Pos, ghost pos: Pos)
    requires Final(c, r) && TerminatorFree(r, c.terminator) && size < WORD
    requires forall t, n :: Possible(vector(t, n), n)
    requires Starts(lines, curLine, budget0) && Open(|bt0.input|, bt0.outOff)
    requires if curLine == 0 then pos0 == Pos(0, 0, false) else pos0 == Pos(curLine - 1, |lines[curLine - 1]|, true)
    requires Running(r, lines, bt0, chunks0, b[..], c.terminator, dst0, strOut[..], lenOut[..], from0, pos0, curLine)
    requires budget0 >= size - 2 * TotalLength(lines[..curLine])
    modifies b, strOut, lenOut
    ensures Running(r, lines, bt, chunks, b[..], c.terminator, dst, strOut[..], lenOut[..], from, pos, curLine + 1)
    ensures pos == Pos(curLine, |lines[curLine]|, true)
    ensures Open(|bt.input|, bt.outOff) && budget >= size - 2 * TotalLength(lines[..curLine + 1])
    ensures Meter(|bt.input|, bt.outOff, budget)
              == NextMeter(r, lines, curLine, size, Meter(|bt0.input|, bt0.outOff, budget0))
    ensures (bt == NO_JOBS && from == pos) || Starts(lines, curLine + 1, budget)
  {
    hide Final, TerminatorFree, Encodable, Running, Joined, TotalLength, Possible, NextMeter, Gathered, Located,
         EncodeLines;
    FinalEncodable(c, r);
    TotalAdds(lines, curLine);
    RunningParts(r, lines, bt0, chunks0, b[..], c.terminator, dst0, strOut[..], lenOut[..], from0, pos0, curLine);
    RunningStarts(r, lines, bt0, chunks0, b[..], c.terminator, dst0, strOut[..], lenOut[..], from0, pos0, curLine);
    MarkBlank(strOut, lenOut, curLine);
    JoinedNext(lines, pos0, curLine);
    var charged := budget0 - 2 * |lines[curLine]|;
    budget, bt, dst, t, chunks, from, pos :=
      BatchLine(c, b, lines, curLine, size, charged, bt0, dst0, strOut, lenOut, vector, t0, chunks0, from0, pos0, r);
  }

  /** The vectorised compressor.  For every behaviour of the vector unit, the lines it
      completes are exactly the lines it started, which are those of the plan, and their
      bytes are those of the scalar compressor.  They fit the destination if the lengths
      are covered. */
  method CompressSIMD(c: Coder, b: array<byte>, lines: Lines, size: nat, strOut: array<int>, lenOut: array<nat>,
                      vector: (nat, nat) -> Kernel, ghost r: Symbols)
    returns (curLine: nat, dst: seq<byte>)
    requires Final(c, r) && TerminatorFree(r, c.terminator) && size < WORD
    requires forall t, n :: Possible(vector(t, n), n)
    requires b.Length == IN_SIZE + OUT_SIZE && strOut.Length >= |lines| && lenOut.Length >= |lines|
    modifies b, strOut, lenOut
    ensures curLine == LinesCompleted(r, lines, size)
    ensures dst == EncodeLines(r, false, lines[..curLine])
    ensures Located(r, false, lines, curLine, strOut[..], lenOut[..])
    ensures curLine < |lines| ==> 2 * TotalLength(lines) + 7 > size
    ensures 2 * TotalLength(lines) + 7 <= size ==> |dst| + 7 <= size
    ensures CoveredThroughout(LengthsOf(lines)) ==> |dst| <= size
  {
    hide Final, TerminatorFree, Encodable, Running, Joined, TotalLength, Possible, Located, EncodeLines, NextMeter,
         CoveredThroughout;
    FinalEncodable(c, r);
    curLine, dst := 0, [];
    NothingLocated(r, false, lines, strOut[..], lenOut[..]);
    if |lines| == 0 {
      return;
    }
    var budget: nat, bt, t := size, NO_JOBS, 0;
    ghost var chunks: seq<Piece>, from, pos := [], Pos(0, 0, false), Pos(0, 0, false);
    RunningInit(r, lines, b[..], c.terminator, strOut[..], lenOut[..]);
    JoinedHere(lines, pos);
    while curLine < |lines|
      invariant curLine <= |lines|
      invariant Running(r, lines, bt, chunks, b[..], c.terminator, dst, strOut[..], lenOut[..], from, pos, curLine)
      invariant Open(|bt.input|, bt.outOff) && budget >= size - 2 * TotalLength(lines[..curLine])
      invariant LinesCompleted(r, lines, size)
                  == StopsAt(r, lines, curLine, size, Meter(|bt.input|, bt.outOff, budget))
      invariant curLine == 0 ==> pos == Pos(0, 0, false) && dst == []
      invariant curLine > 0 ==> pos == Pos(curLine - 1, |lines[curLine - 1]|, true)
      invariant (bt == NO_JOBS && from == pos) || Starts(lines, curLine, budget)
    {
      if 2 * |lines[curLine]| + 7 > budget {
        TotalAdds(lines, curLine);
        TotalLengthMonotone(lines, curLine + 1);
        break;
      }
      budget, bt, dst, t, chunks, from, pos :=
        TakeLine(c, b, lines, curLine, size, budget, bt, dst, strOut, lenOut, vector, t, chunks, from, pos, r);
      curLine := curLine + 1;
    }
    if curLine > 0 {
      RunningParts(r, lines, bt, chunks, b[..], c.terminator, dst, strOut[..], lenOut[..], from, pos, curLine);
    } else {
      NothingLocated(r, false, lines, strOut[..], lenOut[..]);
    }
    TotalLengthMonotone(lines, curLine);
    if CoveredThroughout(LengthsOf(lines)) {
      CoveredFits(r, lines, size);
    }
  }

  method MarkBlank(strOut: array<int>, lenOut: array<nat>, l: nat)
    requires l < strOut.Length && l < lenOut.Length
    modifies strOut, lenOut
    ensures strOut[..] == old(strOut[..])[l := -1] && lenOut[..] == old(lenOut[..])[l := 0]
  {
    strOut[l] := -1;
    lenOut[l] := 0;
  }

  lemma JoinedNext(lines: Lines, pos: Pos, l: nat)
    requires l < |lines|
    requires if l == 0 then pos == Pos(0, 0, false) else pos == Pos(l - 1, |lines[l - 1]|, true)
    ensures Joined(lines, pos, l, 0)
  {
  }
}
