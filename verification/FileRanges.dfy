/** Algebra of file ranges: the common part of two lists of ranges, and the gaps a list
    leaves in a file. */
module FileRanges {
  import opened Bytes

  datatype Range = Range(offset: nat, size: nat) {
    function End(): nat { offset + size }
    predicate Has(x: int) { offset <= x < End() }
  }

  datatype Result<T> = Ok(value: T) | OutOfRange

  type Ranges = seq<Range>

  /** Some range contains `x`. */
  predicate Covers(rs: Ranges, x: int) {
    rs != [] && (rs[0].Has(x) || Covers(rs[1..], x))
  }

  /** In order and without overlap; ranges may touch or be empty. */
  predicate Sorted(rs: Ranges) {
    forall i, j :: 0 <= i < j < |rs| ==> rs[i].End() <= rs[j].offset
  }

  predicate NonEmpty(rs: Ranges) {
    forall i :: 0 <= i < |rs| ==> rs[i].size > 0
  }

  lemma {:induction false} CoversAppend(rs: Ranges, r: Range, x: int)
    ensures Covers(rs + [r], x) <==> Covers(rs, x) || r.Has(x)
  {
    if rs == [] {
      assert [r][1..] == [];
    } else {
      assert (rs + [r])[1..] == rs[1..] + [r];
      CoversAppend(rs[1..], r, x);
    }
  }

  /** Points of later ranges lie behind the first one. */
  lemma {:induction false} CoveredBehind(rs: Ranges, lo: nat, x: int)
    requires Sorted(rs) && (rs != [] ==> lo <= rs[0].offset)
    ensures Covers(rs, x) ==> lo <= x
  {
    if rs != [] {
      CoveredBehind(rs[1..], lo, x);
    }
  }

  lemma SortedTail(rs: Ranges)
    requires Sorted(rs) && rs != []
    ensures Sorted(rs[1..]) && (|rs| > 1 ==> rs[0].End() <= rs[1..][0].offset)
  {
  }

  // --------------------------------------------------------------- intersection

  function Max(a: nat, b: nat): nat { if a < b then b else a }

  function Common(r: Range, s: Range): Range {
    var lo, hi := Max(r.offset, s.offset), Min(r.End(), s.End());
    Range(lo, if lo < hi then hi - lo else 0)
  }

  lemma CommonPoints(r: Range, s: Range, x: int)
    ensures Common(r, s).Has(x) <==> r.Has(x) && s.Has(x)
  {
  }

  /** The range that ends first has nothing in common with the others of the other list. */
  lemma FirstDone(a: Ranges, b: Ranges, x: int)
    requires Sorted(a) && Sorted(b) && a != [] && b != [] && a[0].End() <= b[0].End()
    ensures Covers(a, x) && Covers(b, x) <==>
              Common(a[0], b[0]).Has(x) || (Covers(a[1..], x) && Covers(b, x))
  {
    SortedTail(b);
    CoveredBehind(b[1..], b[0].End(), x);
    CommonPoints(a[0], b[0], x);
  }

  /** Sorted output that ends before both lists go on. */
  ghost predicate Emitted(out: Ranges, a: Ranges, b: Ranges) {
    && Sorted(out) && NonEmpty(out)
    && (a != [] && b != [] ==> forall k :: 0 <= k < |out| ==> out[k].End() <= Max(a[0].offset, b[0].offset))
  }

  lemma EmittedStep(out: Ranges, a: Ranges, b: Ranges)
    requires Emitted(out, a, b) && Sorted(a) && Sorted(b) && a != [] && b != []
    ensures var c := Common(a[0], b[0]);
      var out' := if c.size > 0 then out + [c] else out;
      && (a[0].End() <= b[0].End() ==> Emitted(out', a[1..], b))
      && (b[0].End() <= a[0].End() ==> Emitted(out', a, b[1..]))
  {
    SortedTail(a);
    SortedTail(b);
  }

  /** `intersect_ranges`: sorted, non-empty, and covering exactly the common points. */
  method IntersectRanges(a: Ranges, b: Ranges) returns (out: Ranges)
    requires Sorted(a) && Sorted(b)
    ensures Sorted(out) && NonEmpty(out)
    ensures forall x :: Covers(out, x) <==> Covers(a, x) && Covers(b, x)
  {
    hide Emitted, Covers, Sorted;
    out := [];
    var ia, ib := 0, 0;
    assert a[0..] == a && b[0..] == b;
    EmittedStart(a, b);
    while ia < |a| && ib < |b|
      invariant ia <= |a| && ib <= |b| && Sorted(a[ia..]) && Sorted(b[ib..])
      invariant Emitted(out, a[ia..], b[ib..])
      invariant Accounted(a, b, out, a[ia..], b[ib..])
      decreases |a| - ia + |b| - ib
    {
      var lo := Max(a[ia].offset, b[ib].offset);
      var hi := Min(a[ia].End(), b[ib].End());
      StepCovers(out, a[ia..], b[ib..]);
      EmittedStep(out, a[ia..], b[ib..]);
      SortedTail(a[ia..]);
      SortedTail(b[ib..]);
      assert a[ia..][1..] == a[ia + 1..] && b[ib..][1..] == b[ib + 1..];
      if lo < hi {
        out := out + [Range(lo, hi - lo)];
      }
      if a[ia].End() <= b[ib].End() {
        ia := ia + 1;
      } else {
        ib := ib + 1;
      }
    }
    EmittedEnd(a, b, out, a[ia..], b[ib..]);
  }

  /** The common points are in the output, or still to come. */
  ghost predicate Accounted(a: Ranges, b: Ranges, out: Ranges, restA: Ranges, restB: Ranges) {
    forall x :: Covers(a, x) && Covers(b, x) <==> Covers(out, x) || (Covers(restA, x) && Covers(restB, x))
  }

  lemma EmittedStart(a: Ranges, b: Ranges)
    ensures Emitted([], a, b) && Accounted(a, b, [], a, b)
  {
  }

  lemma EmittedEnd(a: Ranges, b: Ranges, out: Ranges, restA: Ranges, restB: Ranges)
    requires Emitted(out, restA, restB) && Accounted(a, b, out, restA, restB) && (restA == [] || restB == [])
    ensures Sorted(out) && NonEmpty(out)
    ensures forall x :: Covers(out, x) <==> Covers(a, x) && Covers(b, x)
  {
  }

  lemma StepCovers(out: Ranges, a: Ranges, b: Ranges)
    requires Sorted(a) && Sorted(b) && a != [] && b != []
    ensures var c := Common(a[0], b[0]);
      var out' := if c.size > 0 then out + [c] else out;
      forall x :: (Covers(out, x) || (Covers(a, x) && Covers(b, x))) <==>
        (Covers(out', x) || (if a[0].End() <= b[0].End() then Covers(a[1..], x) && Covers(b, x)
                             else Covers(a, x) && Covers(b[1..], x)))
  {
    var c := Common(a[0], b[0]);
    var out' := if c.size > 0 then out + [c] else out;
    forall x
      ensures (Covers(out, x) || (Covers(a, x) && Covers(b, x))) <==>
        (Covers(out', x) || (if a[0].End() <= b[0].End() then Covers(a[1..], x) && Covers(b, x)
                             else Covers(a, x) && Covers(b[1..], x)))
    {
      CoversAppend(out, c, x);
      CommonPoints(b[0], a[0], x);
      CommonPoints(a[0], b[0], x);
      if a[0].End() <= b[0].End() {
        FirstDone(a, b, x);
      } else {
        FirstDone(b, a, x);
      }
    }
  }

  // ------------------------------------------------------------------ complement

  function Gap(lo: nat, hi: nat): Ranges {
    if lo < hi then [Range(lo, hi - lo)] else []
  }

  /** The gaps between `pos` and `size` that the ranges leave. */
  function Gaps(rs: Ranges, pos: nat, size: nat): Ranges {
    if rs == [] then Gap(pos, size) else Gap(pos, rs[0].offset) + Gaps(rs[1..], rs[0].End(), size)
  }

  predicate Within(rs: Ranges, size: nat) {
    forall i :: 0 <= i < |rs| ==> rs[i].End() <= size
  }

  /** `complement_ranges`; it refuses exactly the lists that reach beyond the file. */
  method ComplementRanges(ranges: Ranges, size: nat) returns (r: Result<Ranges>)
    ensures r.OutOfRange? <==> !Within(ranges, size)
    ensures r.Ok? ==> r.value == Gaps(ranges, 0, size)
  {
    var out: Ranges, pos: nat := [], 0;
    assert ranges[0..] == ranges;
    for i := 0 to |ranges|
      invariant Within(ranges[..i], size)
      invariant out + Gaps(ranges[i..], pos, size) == Gaps(ranges, 0, size)
    {
      var h := ranges[i];
      if h.End() > size {
        return OutOfRange;
      }
      assert ranges[i..][0] == h && ranges[i..][1..] == ranges[i + 1..];
      ConcatAssociates(out, Gap(pos, h.offset), Gaps(ranges[i + 1..], h.End(), size));
      if pos < h.offset {
        out := out + [Range(pos, h.offset - pos)];
      } else {
        assert out + [] == out;
      }
      pos := h.End();
    }
    assert ranges[|ranges|..] == [];
    if pos < size {
      out := out + [Range(pos, size - pos)];
    }
    r := Ok(out);
  }

  lemma ConcatAssociates(a: Ranges, b: Ranges, c: Ranges)
    ensures (a + b) + c == a + (b + c)
  {
  }

  lemma {:induction false} CoversConcat(a: Ranges, b: Ranges, x: int)
    ensures Covers(a + b, x) <==> Covers(a, x) || Covers(b, x)
  {
    if a == [] {
      assert a + b == b;
    } else {
      assert (a + b)[1..] == a[1..] + b;
      CoversConcat(a[1..], b, x);
    }
  }

  lemma GapPoints(lo: nat, hi: nat, x: int)
    ensures Covers(Gap(lo, hi), x) <==> lo <= x < hi
  {
    if lo < hi {
      assert Gap(lo, hi)[1..] == [];
    }
  }

  /** Sorted ranges from `pos` on, inside the file. */
  predicate Fits(rs: Ranges, pos: nat, size: nat) {
    Sorted(rs) && Within(rs, size) && pos <= size && (rs != [] ==> pos <= rs[0].offset)
  }

  lemma FitsTail(rs: Ranges, pos: nat, size: nat)
    requires Fits(rs, pos, size) && rs != []
    ensures Fits(rs[1..], rs[0].End(), size)
  {
  }

  /** Ranges and gaps split the file: every point is in exactly one of the two. */
  lemma {:induction false} GapsPartition(rs: Ranges, pos: nat, size: nat, x: int)
    requires Fits(rs, pos, size)
    ensures pos <= x < size ==> (Covers(Gaps(rs, pos, size), x) <==> !Covers(rs, x))
    ensures !(pos <= x < size) ==> !Covers(Gaps(rs, pos, size), x) && !Covers(rs, x)
  {
    if rs == [] {
      GapPoints(pos, size, x);
    } else {
      FitsTail(rs, pos, size);
      var t, e := rs[1..], rs[0].End();
      GapsPartition(t, e, size, x);
      CoversConcat(Gap(pos, rs[0].offset), Gaps(t, e, size), x);
      GapPoints(pos, rs[0].offset, x);
    }
  }

  function Total(rs: Ranges): nat {
    if rs == [] then 0 else rs[0].size + Total(rs[1..])
  }

  lemma GapTotal(lo: nat, hi: nat, rest: Ranges)
    requires lo <= hi
    ensures Total(Gap(lo, hi) + rest) == hi - lo + Total(rest)
  {
    if lo < hi {
      assert (Gap(lo, hi) + rest)[1..] == rest;
    } else {
      assert Gap(lo, hi) + rest == rest;
    }
  }

  /** No byte is lost or counted twice. */
  lemma {:induction false} GapsConserve(rs: Ranges, pos: nat, size: nat)
    requires Fits(rs, pos, size)
    ensures Total(rs) + Total(Gaps(rs, pos, size)) == size - pos
  {
    if rs == [] {
      assert Gap(pos, size) + [] == Gap(pos, size);
      GapTotal(pos, size, []);
    } else {
      FitsTail(rs, pos, size);
      GapsConserve(rs[1..], rs[0].End(), size);
      GapTotal(pos, rs[0].offset, Gaps(rs[1..], rs[0].End(), size));
    }
  }

  // ----------------------------------------------------------- double complement

  /** Non-empty ranges that do not touch. */
  predicate Normal(rs: Ranges) {
    NonEmpty(rs) && forall i, j :: 0 <= i < j < |rs| ==> rs[i].End() < rs[j].offset
  }

  lemma NormalTail(rs: Ranges)
    requires Normal(rs) && rs != []
    ensures Normal(rs[1..]) && Sorted(rs) && rs[0].size > 0 && (|rs| > 1 ==> rs[0].End() < rs[1..][0].offset)
  {
  }

  lemma {:induction false} GapsOfGaps(rs: Ranges, q: nat, pos: nat, size: nat)
    requires Normal(rs) && Fits(rs, pos, size) && q <= pos
    requires q < pos && rs != [] ==> pos < rs[0].offset
    ensures Gaps(Gaps(rs, pos, size), q, size) == Gap(q, pos) + rs
    decreases |rs|
  {
    hide Normal, Fits, Gaps, Gap;
    FitsSize(rs, pos, size);
    if rs == [] {
      GapsNone(pos, size);
      GapsOfGap(q, pos, size);
    } else {
      NormalTail(rs);
      FitsTail(rs, pos, size);
      var h, t := rs[0], rs[1..];
      GapsOfGaps(t, h.offset, h.End(), size);
      GapsHead(rs, pos, size);
      WholeGap(rs);
      GapAround(Gaps(t, h.End(), size), q, pos, h.offset, size, rs);
    }
  }

  lemma WholeGap(rs: Ranges)
    requires rs != [] && rs[0].size > 0
    ensures Gap(rs[0].offset, rs[0].End()) + rs[1..] == rs
  {
  }

  /** A gap before `rest`, seen from `q`. */
  lemma GapAround(rest: Ranges, q: nat, pos: nat, at: nat, size: nat, rs: Ranges)
    requires q <= pos <= at && (q < pos ==> pos < at) && Gaps(rest, at, size) == rs
    ensures Gaps(Gap(pos, at) + rest, q, size) == Gap(q, pos) + rs
  {
    hide Gaps;
    if pos < at {
      GapsFirst(Range(pos, at - pos), rest, q, size);
    } else {
      assert Gap(pos, at) + rest == rest && Gap(q, pos) + rs == rs;
    }
  }

  lemma GapsNone(pos: nat, size: nat)
    ensures Gaps([], pos, size) == Gap(pos, size)
  {
  }

  lemma GapsHead(rs: Ranges, pos: nat, size: nat)
    requires rs != []
    ensures Gaps(rs, pos, size) == Gap(pos, rs[0].offset) + Gaps(rs[1..], rs[0].End(), size)
  {
  }

  lemma GapsOfGap(q: nat, pos: nat, size: nat)
    requires q <= pos <= size
    ensures Gaps(Gap(pos, size), q, size) == Gap(q, pos) + []
  {
    if pos < size {
      GapsFirst(Range(pos, size - pos), [], q, size);
      assert Gap(pos, size) == [Range(pos, size - pos)] + [];
    }
  }

  lemma FitsSize(rs: Ranges, pos: nat, size: nat)
    requires Fits(rs, pos, size)
    ensures pos <= size && (rs != [] ==> pos <= rs[0].offset)
  {
  }

  lemma GapsFirst(r: Range, rest: Ranges, q: nat, size: nat)
    ensures Gaps([r] + rest, q, size) == Gap(q, r.offset) + Gaps(rest, r.End(), size)
  {
    assert ([r] + rest)[1..] == rest;
  }

  lemma {:induction false} GapsNonEmpty(rs: Ranges, pos: nat, size: nat)
    ensures NonEmpty(Gaps(rs, pos, size))
  {
    if rs != [] {
      GapsNonEmpty(rs[1..], rs[0].End(), size);
    }
  }

  /** The gaps between sorted ranges lie from `pos` on, sorted. */
  lemma {:induction false} GapsFit(rs: Ranges, pos: nat, size: nat)
    requires Fits(rs, pos, size)
    ensures Fits(Gaps(rs, pos, size), pos, size)
  {
    if rs != [] {
      FitsTail(rs, pos, size);
      GapsFit(rs[1..], rs[0].End(), size);
    }
  }

  /** Non-empty ranges keep their gaps apart. */
  lemma {:induction false} GapsNormal(rs: Ranges, pos: nat, size: nat)
    requires Fits(rs, pos, size) && NonEmpty(rs)
    ensures Normal(Gaps(rs, pos, size))
    ensures forall i :: 0 <= i < |Gaps(rs, pos, size)| ==> pos <= Gaps(rs, pos, size)[i].offset
  {
    if rs != [] {
      FitsTail(rs, pos, size);
      GapsNormal(rs[1..], rs[0].End(), size);
    }
  }

  /** Complementing twice gives the list back exactly if its ranges are non-empty and do
      not touch. */
  lemma DoubleComplementIff(rs: Ranges, size: nat)
    requires Sorted(rs) && Within(rs, size)
    ensures Gaps(Gaps(rs, 0, size), 0, size) == rs <==> Normal(rs)
  {
    if Normal(rs) {
      GapsOfGaps(rs, 0, 0, size);
      assert Gap(0, 0) + rs == rs;
    } else {
      GapsFit(rs, 0, size);
      GapsNonEmpty(rs, 0, size);
      GapsNormal(Gaps(rs, 0, size), 0, size);
    }
  }

  /** Two ranges that touch come back as one: the condition cannot be dropped. */
  lemma TouchingRangesMerge()
    ensures var rs := [Range(0, 5), Range(5, 5)];
      Sorted(rs) && Within(rs, 20) && Gaps(Gaps(rs, 0, 20), 0, 20) == [Range(0, 10)]
  {
    var rs := [Range(0, 5), Range(5, 5)];
    assert rs[1..] == [Range(5, 5)] && rs[1..][1..] == [];
    assert Gaps(rs, 0, 20) == [] + ([] + [Range(10, 10)]);
    assert [Range(10, 10)][1..] == [];
    assert Gaps([Range(10, 10)], 0, 20) == [Range(0, 10)] + [];
  }
}
