/** Walking a file: the extents of a sub-range, and the bounded, possibly overlapping
    segments of a range. */
module FileExtents {
  import opened FileRanges
  import opened Bytes

  datatype Kind = Data | Hole

  datatype Extent = Extent(kind: Kind, range: Range)

  const NO_EXTENT := Extent(Data, Range(0, 0))

  /** The extents follow one another from `lo` to `hi`. */
  predicate Tiles(rs: seq<Range>, lo: nat, hi: nat) {
    if rs == [] then lo == hi else rs[0].offset == lo && Tiles(rs[1..], rs[0].End(), hi)
  }

  function RangesOf(es: seq<Extent>): (rs: seq<Range>)
    ensures |rs| == |es| && forall i :: 0 <= i < |es| ==> rs[i] == es[i].range
  {
    seq(|es|, i requires 0 <= i < |es| => es[i].range)
  }

  /** The extents cover a file of `size` bytes. */
  predicate Partition(es: seq<Extent>, size: nat) {
    Tiles(RangesOf(es), 0, size)
  }

  lemma {:induction false} TilesAt(rs: seq<Range>, lo: nat, hi: nat, i: nat)
    requires Tiles(rs, lo, hi) && i < |rs|
    ensures lo <= rs[i].offset && rs[i].End() <= hi
    ensures i == 0 ==> rs[i].offset == lo
    ensures if i + 1 < |rs| then rs[i + 1].offset == rs[i].End() else rs[i].End() == hi
  {
    if i > 0 {
      TilesAt(rs[1..], rs[0].End(), hi, i - 1);
      TilesAt(rs[1..], rs[0].End(), hi, 0);
    } else if |rs| > 1 {
      TilesAt(rs[1..], rs[0].End(), hi, 0);
    }
  }

  lemma {:induction false} TilesAppend(rs: seq<Range>, lo: nat, mid: nat, r: Range)
    requires Tiles(rs, lo, mid) && r.offset == mid
    ensures Tiles(rs + [r], lo, r.End())
  {
    if rs == [] {
      assert [r][1..] == [];
    } else {
      assert (rs + [r])[1..] == rs[1..] + [r];
      TilesAppend(rs[1..], rs[0].End(), mid, r);
    }
  }

  /** A piece of an extent: inside it, and of its kind. */
  predicate PieceOf(p: Extent, e: Extent) {
    p.kind == e.kind && e.range.offset <= p.range.offset && p.range.End() <= e.range.End()
  }

  // ----------------------------------------------------------- extent iterator

  class ExtentIterator {
    const extents: seq<Extent>
    const endOffset: nat
    var it: nat
    var cur: Extent

    predicate AtEnd()
      reads this
    {
      it == |extents|
    }

    /** The iterator stands on the piece that starts at `at`, or everything up to `at`
        has been produced. */
    ghost predicate Valid(size: nat, at: nat)
      reads this
    {
      && Partition(extents, size) && it <= |extents|
      && (if AtEnd() then at == Min(endOffset, size)
          else
            && extents[it].range.offset <= at == cur.range.offset && at < endOffset
            && cur.range.End() == Min(extents[it].range.End(), endOffset) && at <= cur.range.End()
            && cur.kind == extents[it].kind)
    }

    constructor (extents: seq<Extent>, range: Range, ghost size: nat)
      requires Partition(extents, size) && range.End() <= size
      ensures this.extents == extents && endOffset == range.End()
      ensures Valid(size, range.offset)
      ensures range.size > 0 ==> !AtEnd() && cur.range.size > 0
    {
      this.extents := extents;
      endOffset := range.End();
      it, cur := 0, NO_EXTENT;
      new;
      if range.size > 0 {
        ghost var rs := RangesOf(extents);
        while it != |extents| && extents[it].range.End() <= range.offset
          invariant it <= |extents|
          invariant it < |extents| ==> rs[it].offset <= range.offset
          invariant it == |extents| ==> size <= range.offset
        {
          TilesAt(rs, 0, size, it);
          it := it + 1;
        }
        TilesNonEmpty(rs, 0, size);
        if it != |extents| {
          var ext := extents[it];
          cur := Extent(ext.kind, Range(range.offset, Min(ext.range.End(), endOffset) - range.offset));
        }
      } else {
        it := |extents|;
      }
    }

    /** The next piece starts where this one ends. */
    method Advance(ghost size: nat)
      requires Valid(size, cur.range.offset) && !AtEnd() && endOffset <= size
      modifies this
      ensures Valid(size, old(cur.range.End()))
      ensures old(it) < it
    {
      ghost var rs := RangesOf(extents);
      TilesAt(rs, 0, size, it);
      it := it + 1;
      if it != |extents| && extents[it].range.offset < endOffset {
        TilesAt(rs, 0, size, it);
        var ext := extents[it];
        if ext.range.End() > endOffset {
          ext := Extent(ext.kind, Range(ext.range.offset, endOffset - ext.range.offset));
        }
        cur := ext;
      } else {
        it := |extents|;
        cur := NO_EXTENT;
      }
    }
  }

  lemma TilesNonEmpty(rs: seq<Range>, lo: nat, hi: nat)
    requires Tiles(rs, lo, hi)
    ensures rs == [] ==> lo == hi
    ensures rs != [] ==> rs[0].offset == lo
  {
  }

  /** Every piece lies inside one extent and keeps its kind. */
  ghost predicate Pieces(ps: seq<Extent>, es: seq<Extent>) {
    forall k :: 0 <= k < |ps| ==> exists i :: 0 <= i < |es| && PieceOf(ps[k], es[i])
  }

  lemma PiecesGrow(ps: seq<Extent>, es: seq<Extent>, lo: nat, mid: nat, p: Extent, i: nat)
    requires Pieces(ps, es) && Tiles(RangesOf(ps), lo, mid)
    requires i < |es| && PieceOf(p, es[i]) && p.range.offset == mid
    ensures Pieces(ps + [p], es) && Tiles(RangesOf(ps + [p]), lo, p.range.End())
  {
    TilesAppend(RangesOf(ps), lo, mid, p.range);
    assert RangesOf(ps + [p]) == RangesOf(ps) + [p.range];
  }

  /** Walks the extents of a sub-range: adjoining pieces that cover it exactly, each
      inside one extent and of its kind. */
  method CollectExtents(extents: seq<Extent>, range: Range, ghost size: nat) returns (pieces: seq<Extent>)
    requires Partition(extents, size) && range.End() <= size
    ensures Tiles(RangesOf(pieces), range.offset, range.End())
    ensures Pieces(pieces, extents)
  {
    hide Partition;
    var iter := new ExtentIterator(extents, range, size);
    pieces := [];
    ghost var at := range.offset;
    while !iter.AtEnd()
      invariant fresh(iter) && iter.extents == extents && iter.endOffset == range.End()
      invariant iter.Valid(size, at)
      invariant Tiles(RangesOf(pieces), range.offset, at) && Pieces(pieces, extents)
      decreases |extents| - iter.it
    {
      var piece := iter.cur;
      PiecesGrow(pieces, extents, range.offset, at, piece, iter.it);
      pieces, at := pieces + [piece], piece.range.End();
      iter.Advance(size);
    }
  }

  // ---------------------------------------------------------- segment iterator

  class SegmentIterator {
    const range: Range
    const maxBytes: nat
    const overlap: nat
    var offset: nat
    var seg: Range
    var atEnd: bool

    /** After a segment: it lies in the range and is as long as allowed unless it is the
        last; the next one starts `overlap` bytes before its end. */
    ghost predicate Valid()
      reads this
    {
      && overlap < maxBytes
      && (if atEnd then range.size <= offset
          else
            && range.offset <= seg.offset && seg.End() <= range.End() && 0 < seg.size <= maxBytes
            && (if seg.End() < range.End()
                then seg.size == maxBytes && range.offset + offset == seg.End() - overlap
                else range.offset + offset == seg.End()))
    }

    constructor (range: Range, maxBytes: nat, overlap: nat)
      requires overlap < maxBytes
      ensures Valid() && this.range == range && this.maxBytes == maxBytes && this.overlap == overlap
      ensures atEnd <==> range.size == 0
      ensures !atEnd ==> seg.offset == range.offset
    {
      this.range, this.maxBytes, this.overlap := range, maxBytes, overlap;
      offset, seg, atEnd := 0, Range(0, 0), false;
      new;
      Step();
    }

    /** `advance`. */
    method Step()
      requires overlap < maxBytes
      modifies this
      ensures Valid()
      ensures atEnd <==> range.size <= old(offset)
      ensures !atEnd ==> seg.offset == range.offset + old(offset)
    {
      var size := range.size;
      atEnd := offset >= size;
      if atEnd {
        seg := Range(0, 0);
      } else {
        var len := Min(maxBytes, size - offset);
        seg := Range(range.offset + offset, len);
        offset := offset + len;
        if offset < size {
          offset := offset - overlap;
        }
      }
    }
  }

  /** Segments of a range: each within the limit, all but the last as long as it, and
      consecutive ones sharing exactly `overlap` bytes. */
  ghost predicate Segmented(segs: seq<Range>, range: Range, maxBytes: nat, overlap: nat) {
    && (forall k :: 0 <= k < |segs| ==>
          0 < segs[k].size <= maxBytes && range.offset <= segs[k].offset && segs[k].End() <= range.End())
    && (forall k :: 0 <= k < |segs| - 1 ==> segs[k].size == maxBytes)
    && (forall k, m :: 0 <= k && m == k + 1 && m < |segs| ==> segs[m].offset + overlap == segs[k].End())
    && (segs != [] ==> segs[0].offset == range.offset)
  }

  lemma SegmentedGrows(segs: seq<Range>, range: Range, maxBytes: nat, overlap: nat, s: Range)
    requires Segmented(segs, range, maxBytes, overlap)
    requires 0 < s.size <= maxBytes && range.offset <= s.offset && s.End() <= range.End()
    requires if segs == [] then s.offset == range.offset
             else segs[|segs| - 1].size == maxBytes && s.offset + overlap == segs[|segs| - 1].End()
    ensures Segmented(segs + [s], range, maxBytes, overlap)
  {
  }

  /** Walks the segments of a range.  It ends because the overlap is smaller than a
      segment, and the last segment ends with the range. */
  method CollectSegments(range: Range, maxBytes: nat, overlap: nat) returns (segs: seq<Range>)
    requires overlap < maxBytes
    ensures Segmented(segs, range, maxBytes, overlap)
    ensures if range.size == 0 then segs == [] else segs != [] && segs[|segs| - 1].End() == range.End()
  {
    var iter := new SegmentIterator(range, maxBytes, overlap);
    segs := [];
    while !iter.atEnd
      invariant fresh(iter) && iter.range == range && iter.maxBytes == maxBytes && iter.overlap == overlap
      invariant iter.Valid()
      invariant Segmented(segs, range, maxBytes, overlap)
      invariant if segs == [] then (if iter.atEnd then range.size == 0 else iter.seg.offset == range.offset)
                else if iter.atEnd then segs[|segs| - 1].End() == range.End()
                else segs[|segs| - 1].size == maxBytes && iter.seg.offset + overlap == segs[|segs| - 1].End()
      decreases !iter.atEnd, range.End() - (if iter.atEnd then 0 else iter.seg.offset)
    {
      SegmentedGrows(segs, range, maxBytes, overlap, iter.seg);
      segs := segs + [iter.seg];
      iter.Step();
    }
  }

  // ------------------------------------------------------------------ as_string

  /** Without overlap, segments tile their range. */
  lemma {:induction false} SegmentsTile(segs: seq<Range>, range: Range, maxBytes: nat, n: nat)
    requires Segmented(segs, range, maxBytes, 0) && n <= |segs|
    ensures Tiles(segs[..n], range.offset, if n == 0 then range.offset else segs[n - 1].End())
  {
    if n > 0 {
      SegmentsTile(segs, range, maxBytes, n - 1);
      if n > 1 {
        assert segs[n - 1].offset + 0 == segs[n - 2].End();
      }
      TilesAppend(segs[..n - 1], range.offset, segs[n - 1].offset, segs[n - 1]);
      assert segs[..n] == segs[..n - 1] + [segs[n - 1]];
    }
  }

  /** What the file holds between two offsets. */
  function Slice(file: seq<byte>, lo: nat, hi: nat): seq<byte>
    requires lo <= hi <= |file|
  {
    file[lo..hi]
  }

  lemma SliceExtends(file: seq<byte>, lo: nat, mid: nat, hi: nat)
    requires lo <= mid <= hi <= |file|
    ensures Slice(file, lo, mid) + Slice(file, mid, hi) == Slice(file, lo, hi)
  {
  }

  /** Appends one extent's bytes, segment by segment. */
  method AppendExtent(file: seq<byte>, range: Range, segmentSize: nat, res0: seq<byte>) returns (res: seq<byte>)
    requires segmentSize > 0 && range.End() <= |file|
    ensures res == res0 + Slice(file, range.offset, range.End())
  {
    res := res0;
    var iter := new SegmentIterator(range, segmentSize, 0);
    ghost var at := range.offset;
    assert Slice(file, at, at) == [];
    while !iter.atEnd
      invariant fresh(iter) && iter.range == range && iter.maxBytes == segmentSize && iter.overlap == 0 && iter.Valid()
      invariant range.offset <= at <= range.End() && res == res0 + Slice(file, range.offset, at)
      invariant if iter.atEnd then at == range.End() else iter.seg.offset == at
      decreases !iter.atEnd, range.End() - at
    {
      var seg := iter.seg;
      SliceExtends(file, range.offset, at, seg.End());
      res := res + file[seg.offset..seg.End()];
      at := seg.End();
      iter.Step();
    }
  }

  /** `as_string`: the nested walk returns the bytes of the sub-range. */
  method AsString(file: seq<byte>, extents: seq<Extent>, range: Range, segmentSize: nat) returns (res: seq<byte>)
    requires Partition(extents, |file|) && range.End() <= |file| && segmentSize > 0
    ensures res == file[range.offset..range.End()]
  {
    hide Partition, Slice;
    res := [];
    var iter := new ExtentIterator(extents, range, |file|);
    ghost var at: nat := range.offset;
    SliceNothing(file, at);
    while !iter.AtEnd()
      invariant fresh(iter) && iter.extents == extents && iter.endOffset == range.End()
      invariant iter.Valid(|file|, at)
      invariant range.offset <= at <= range.End() && res == Slice(file, range.offset, at)
      decreases |extents| - iter.it
    {
      var piece := iter.cur.range;
      res := AppendExtent(file, piece, segmentSize, res);
      SliceExtends(file, range.offset, at, piece.End());
      at := piece.End();
      iter.Advance(|file|);
    }
    SliceIs(file, range.offset, range.End());
  }

  lemma SliceNothing(file: seq<byte>, at: nat)
    requires at <= |file|
    ensures Slice(file, at, at) == []
  {
  }

  lemma SliceIs(file: seq<byte>, lo: nat, hi: nat)
    requires lo <= hi <= |file|
    ensures Slice(file, lo, hi) == file[lo..hi]
  {
  }
}
