/** The scalar compressor (`compressBulk`): three branch variants over one
    lookup, on a staging buffer whose bytes after the terminator are arbitrary. */
module Compression {
  import opened Bytes
  import opened Dictionary
  import opened SymbolTables
  import opened Finalizing
  import opened FinalTables

  /** Symbols of two bytes or more do not contain the terminator. */
  predicate TerminatorFree(r: Symbols, terminator: byte) {
    forall i :: 0 <= i < |r| && |r[i]| >= 2 ==> terminator !in r[i]
  }

  /** Eight bytes loaded at the start of `rest`: they run on into the terminator
      and whatever follows it. */
  ghost predicate Window(w: seq<byte>, rest: seq<byte>, terminator: byte) {
    && |w| == 8 && rest != []
    && (forall k :: 0 <= k < 8 && k < |rest| ==> w[k] == rest[k])
    && (|rest| < 8 ==> w[|rest|] == terminator)
  }

  /** A string that starts the window and is longer than `rest` contains the terminator. */
  lemma LongerMatchMeetsTerminator(x: seq<byte>, w: seq<byte>, rest: seq<byte>, terminator: byte)
    requires Window(w, rest, terminator)
    ensures x <= w && |rest| < |x| ==> terminator in x
    ensures |x| <= |rest| ==> (x <= w <==> |x| <= 8 && x <= rest)
  {
    if x <= w && |rest| < |x| {
      assert x[|rest|] == w[|rest|];
    }
  }

  /** A match never runs past the terminator, so the bytes behind it cannot
      change the choice. */
  lemma WindowChoosesSame(r: Symbols, terminator: byte, w: seq<byte>, rest: seq<byte>)
    requires Lengths(r) && TerminatorFree(r, terminator) && Window(w, rest, terminator)
    ensures Longest(r, w) == Longest(r, rest)
  {
    forall j | 0 <= j < |r| ensures r[j] <= w <==> r[j] <= rest {
      LongerMatchMeetsTerminator(r[j], w, rest, terminator);
    }
    LongestSamePrefixes(r, w, rest);
  }

  predicate Hit(c: Coder, w: seq<byte>)
    requires |c.hashTab| == HASH_SIZE
  {
    var bucket := c.hashTab[Slot(Load(w))];
    bucket.Icl() < ICL_FREE && bucket.WordMatches(Load(w))
  }

  /** The bucket test accepts exactly when a symbol of three bytes or more matches. */
  lemma HitIsLongest(c: Coder, r: Symbols, w: seq<byte>)
    requires Encodable(r) && Lookups(c, r) && |w| == 8
    ensures var bucket := c.hashTab[Slot(Load(w))];
      if Hit(c, w) then
        && bucket.Taken? && BucketCode(bucket) % 256 == Longest(r, w) && Longest(r, w) >= 0
        && bucket.symbol.bytes == r[Longest(r, w)]
      else forall j :: 0 <= j < |r| && r[j] <= w ==> |r[j]| <= 2
  {
    hide Load, Slot, Longest, Distinct;
    var h := Slot(Load(w));
    assert BucketOk(r, 0, h, c.hashTab[h]);
    IclOrder(c.hashTab[h], w);
    HashHit(c.hashTab, r, 0, w);
  }

  lemma ShortPrefix(x: seq<byte>, w: seq<byte>)
    requires x <= w && |w| >= 2
    ensures |x| == 1 ==> x == [w[0]]
    ensures |x| >= 2 ==> x[..2] == [w[0], w[1]]
    ensures |x| == 2 ==> x == [w[0], w[1]]
  {
  }

  /** Without a long match, the pair entry carries code, escape bit and length of
      the choice. */
  lemma MissIsPairEntry(c: Coder, r: Symbols, w: seq<byte>)
    requires Encodable(r) && Lookups(c, r) && |w| == 8
    requires forall j :: 0 <= j < |r| && r[j] <= w ==> |r[j]| <= 2
    ensures var e, i := c.shortCodes[Pair(w[0], w[1])], Longest(r, w);
      if i >= 0 then e == |r[i]| * LEN_UNIT + i else e == ESCAPE_ENTRY
  {
    assert c.shortCodes[Pair(w[0], w[1])] == PairEntry(r, w[0], w[1]);
    var pair, single := IndexOf(r, [w[0], w[1]]), IndexOf(r, [w[0]]);
    if pair >= 0 {
      LongestUnique(r, w, pair);
    } else {
      forall j | 0 <= j < |r| && r[j] <= w ensures |r[j]| == 1 && j == single {
        ShortPrefix(r[j], w);
      }
      if single >= 0 {
        LongestUnique(r, w, single);
      }
    }
  }

  lemma {:induction false} BelowByteLim(r: Symbols, histo: seq<nat>, keepFirst: bool, i: nat, len: nat)
    requires Grouped(r, histo, keepFirst) && 2 <= len <= 9 && i < |r|
    requires Flag(keepFirst) <= i < Start(histo, keepFirst, len)
    ensures |r[i]| >= 2
  {
    if Start(histo, keepFirst, len - 1) <= i {
      assert |r[i]| == len - 1;
    } else {
      BelowByteLim(r, histo, keepFirst, i, len - 1);
    }
  }

  /** A pair that no longer symbol extends is the longest match wherever it matches. */
  lemma LonePairIsLongest(r: Symbols, w: seq<byte>, i: nat)
    requires i < |r| && |w| >= 2 && r[i] == [w[0], w[1]] && Lone(r, i)
    ensures Longest(r, w) == i
  {
    forall j | 0 <= j < |r| && r[j] <= w && j != i ensures |r[j]| < 2 {
      ShortPrefix(r[j], w);
    }
    LongestUnique(r, w, i);
  }

  /** A pair entry below `suffixLim` is the choice, without looking at the hash. */
  lemma SuffixShortcut(r: Symbols, suffixLim: nat, keepFirst: bool, w: seq<byte>)
    requires Encodable(r) && SuffixSplit(r, suffixLim, keepFirst) && (keepFirst ==> |r| > 0 && r[0] == [0])
    requires |w| == 8 && PairEntry(r, w[0], w[1]) % 256 < suffixLim
    ensures var i := PairEntry(r, w[0], w[1]) % 256;
      i < |r| && ((keepFirst && i == 0 && w[0] == 0) || (Longest(r, w) == i && |r[i]| == 2))
  {
    var i := PairEntry(r, w[0], w[1]) % 256;
    if i >= Flag(keepFirst) {
      assert |r[i]| == 2 && Lone(r, i);
      LonePairIsLongest(r, w, i);
    }
  }

  // ---------------------------------------------------------------- compressor

  /** The bytes one step consumes.  Two variants step over a zero terminator and
      the byte behind it. */
  ghost predicate Advances(zeroTerminated: bool, r: Symbols, rest: seq<byte>, adv: nat)
    requires rest != [] && Lengths(r)
  {
    adv == Step(r, rest) || (zeroTerminated && rest[0] == 0 && adv == 2)
  }

  lemma PairEntryParts(r: Symbols, i: int, e: nat)
    requires Encodable(r) && -1 <= i < |r|
    requires if i >= 0 then e == |r[i]| * LEN_UNIT + i && |r[i]| <= 2 else e == ESCAPE_ENTRY
    ensures if i >= 0 then e % 256 == i && e / 256 % 2 == 0 && e / LEN_UNIT == |r[i]|
            else e % 256 == 255 && e / 256 % 2 == 1 && e / LEN_UNIT == 1
  {
  }

  /** What one iteration of `compressVariant` does: the byte it writes, how many
      more bytes of output it keeps, how far it moves, and whether it took the
      early exit that skips the speculative write of the escaped byte. */
  datatype Choice = Choice(code: byte, extra: nat, advance: nat, early: bool)

  function Variant(c: Coder, w: seq<byte>, noSuffixOpt: bool, avoidBranch: bool): Choice
    requires |c.shortCodes| == 65536 && |c.hashTab| == HASH_SIZE && |c.lenHisto| == 9 && |w| == 8
  {
    var code := c.shortCodes[Pair(w[0], w[1])];
    if noSuffixOpt && code % 256 < c.suffixLim then Choice(code % 256, 0, 2, true)
    else if Hit(c, w) then
      var bucket := c.hashTab[Slot(Load(w))];
      Choice(BucketCode(bucket) % 256, 0, if bucket.Taken? then |bucket.symbol.bytes| else 0, false)
    else if avoidBranch then Choice(code % 256, code / 256 % 2, code / LEN_UNIT, false)
    else if code % 256 < c.nSymbols + Flag(c.zeroTerminated) - c.lenHisto[0] then Choice(code % 256, 0, 2, false)
    else Choice(code % 256, code / 256 % 2, 1, false)
  }

  /** In zero-terminated mode the zero byte has code 0 and nothing longer starts with it. */
  lemma ZeroIsCodeZero(c: Coder, r: Symbols, w: seq<byte>, rest: seq<byte>)
    requires Final(c, r) && TerminatorFree(r, c.terminator) && Window(w, rest, c.terminator)
    ensures c.zeroTerminated && w[0] == 0 ==> Longest(r, rest) == 0
  {
    if c.zeroTerminated && w[0] == 0 {
      forall j | 0 <= j < |r| && r[j] <= rest ensures j == 0 {
        assert r[j][0] == 0;
        assert |r[j]| == 1;
        assert r[j] == [0];
      }
      LongestUnique(r, rest, 0);
    }
  }

  lemma CodeBelowByteLim(c: Coder, r: Symbols, i: int)
    requires Final(c, r) && -1 <= i < |r|
    requires (if i >= 0 then i else 255) < ByteLim(c.lenHisto, c.zeroTerminated, |r|)
    ensures i >= 0 && (|r[i]| >= 2 || (c.zeroTerminated && r[i] == [0]))
  {
    if i >= Flag(c.zeroTerminated) {
      BelowByteLim(r, c.lenHisto, c.zeroTerminated, i, 9);
    }
  }

  lemma CodeAboveByteLim(c: Coder, r: Symbols, i: int)
    requires Final(c, r) && -1 <= i < |r|
    requires (if i >= 0 then i else 255) >= ByteLim(c.lenHisto, c.zeroTerminated, |r|)
    ensures i >= 0 ==> |r[i]| == 1
  {
  }

  ghost predicate ChoiceRight(c: Coder, r: Symbols, rest: seq<byte>, ch: Choice)
    requires rest != [] && Encodable(r)
  {
    var i := Longest(r, rest);
    && (if i >= 0 then ch.code == i && ch.extra == 0 else ch.code == ESCAPE && ch.extra == 1 && !ch.early)
    && Advances(c.zeroTerminated, r, rest, ch.advance)
  }

  lemma EarlyExitRight(c: Coder, r: Symbols, w: seq<byte>, rest: seq<byte>)
    requires Final(c, r) && TerminatorFree(r, c.terminator) && Window(w, rest, c.terminator)
    requires c.shortCodes[Pair(w[0], w[1])] % 256 < c.suffixLim
    ensures ChoiceRight(c, r, rest, Choice(c.shortCodes[Pair(w[0], w[1])] % 256, 0, 2, true))
  {
    WindowChoosesSame(r, c.terminator, w, rest);
    assert c.shortCodes[Pair(w[0], w[1])] == PairEntry(r, w[0], w[1]);
    SuffixShortcut(r, c.suffixLim, c.zeroTerminated, w);
    ZeroIsCodeZero(c, r, w, rest);
  }

  lemma MissRight(c: Coder, r: Symbols, w: seq<byte>, rest: seq<byte>, avoidBranch: bool)
    requires Final(c, r) && TerminatorFree(r, c.terminator) && Window(w, rest, c.terminator) && !Hit(c, w)
    ensures ChoiceRight(c, r, rest, Variant(c, w, false, avoidBranch))
  {
    WindowChoosesSame(r, c.terminator, w, rest);
    HitIsLongest(c, r, w);
    MissIsPairEntry(c, r, w);
    var i, code := Longest(r, rest), c.shortCodes[Pair(w[0], w[1])];
    PairEntryParts(r, i, code);
    if !avoidBranch {
      if code % 256 < c.nSymbols + Flag(c.zeroTerminated) - c.lenHisto[0] {
        CodeBelowByteLim(c, r, i);
      } else {
        CodeAboveByteLim(c, r, i);
      }
    }
  }

  /** Every variant makes the greedy choice, at every position. */
  lemma VariantRight(c: Coder, r: Symbols, w: seq<byte>, rest: seq<byte>, noSuffixOpt: bool, avoidBranch: bool)
    requires Final(c, r) && TerminatorFree(r, c.terminator) && Window(w, rest, c.terminator)
    ensures ChoiceRight(c, r, rest, Variant(c, w, noSuffixOpt, avoidBranch))
  {
    if noSuffixOpt && c.shortCodes[Pair(w[0], w[1])] % 256 < c.suffixLim {
      EarlyExitRight(c, r, w, rest);
    } else if Hit(c, w) {
      HitIsLongest(c, r, w);
      WindowChoosesSame(r, c.terminator, w, rest);
    } else {
      MissRight(c, r, w, rest, avoidBranch);
    }
  }

  /** The variants emit the same code and escape flag at every position. */
  lemma VariantsAgree(c: Coder, r: Symbols, w: seq<byte>, rest: seq<byte>,
                      suffix1: bool, avoid1: bool, suffix2: bool, avoid2: bool)
    requires Final(c, r) && TerminatorFree(r, c.terminator) && Window(w, rest, c.terminator)
    ensures var a, b := Variant(c, w, suffix1, avoid1), Variant(c, w, suffix2, avoid2);
      a.code == b.code && a.extra == b.extra && a.code == Emit(r, rest)[0] && 1 + a.extra == |Emit(r, rest)|
  {
    VariantRight(c, r, w, rest, suffix1, avoid1);
    VariantRight(c, r, w, rest, suffix2, avoid2);
  }

  /** They move alike too, except over the zero byte of zero-terminated mode,
      which all but the predicated variant step over together with its successor. */
  lemma VariantAdvanceExact(c: Coder, r: Symbols, w: seq<byte>, rest: seq<byte>, noSuffixOpt: bool, avoidBranch: bool)
    requires Final(c, r) && TerminatorFree(r, c.terminator) && Window(w, rest, c.terminator)
    ensures Variant(c, w, noSuffixOpt, avoidBranch).advance == Step(r, rest) <==>
              !(c.zeroTerminated && rest[0] == 0 && (noSuffixOpt || !avoidBranch))
  {
    VariantRight(c, r, w, rest, noSuffixOpt, avoidBranch);
    if c.zeroTerminated && rest[0] == 0 {
      ZeroIsCodeZero(c, r, w, rest);
      WindowChoosesSame(r, c.terminator, w, rest);
      HitIsLongest(c, r, w);
      MissIsPairEntry(c, r, w);
      StartAtLeast(c.lenHisto, true, 9);
    }
  }

  /** All but the predicated variant pass over the byte behind a zero. */
  predicate Skips(zeroTerminated: bool, noSuffixOpt: bool, avoidBranch: bool) {
    zeroTerminated && (noSuffixOpt || !avoidBranch)
  }

  function Advance(skips: bool, r: Symbols, rest: seq<byte>): (n: nat)
    requires rest != [] && Lengths(r)
    ensures n >= 1
  {
    if skips && rest[0] == 0 then 2 else Step(r, rest)
  }

  /** One iteration of `compressVariant` on the window `w`. */
  method EmitNext(c: Coder, w: seq<byte>, out: array<byte>, o: nat, noSuffixOpt: bool, avoidBranch: bool,
                  ghost r: Symbols, ghost rest: seq<byte>)
    returns (adv: nat, o': nat)
    requires Final(c, r) && TerminatorFree(r, c.terminator) && Window(w, rest, c.terminator)
    requires o + 2 <= out.Length
    modifies out
    ensures o' == o + |Emit(r, rest)| && out[o..o'] == Emit(r, rest)
    ensures adv == Advance(Skips(c.zeroTerminated, noSuffixOpt, avoidBranch), r, rest)
    ensures out[..o] == old(out[..o])
  {
    VariantRight(c, r, w, rest, noSuffixOpt, avoidBranch);
    VariantAdvanceExact(c, r, w, rest, noSuffixOpt, avoidBranch);
    var choice := Variant(c, w, noSuffixOpt, avoidBranch);
    if !choice.early {
      out[o + 1] := w[0];
    }
    out[o] := choice.code;
    adv, o' := choice.advance, o + 1 + choice.extra;
  }

  function Drop(s: seq<byte>, n: nat): seq<byte> {
    if n <= |s| then s[n..] else []
  }

  /** Skipping keeps what stands before the first zero and the zero itself. */
  lemma {:induction false} SeenStarts(x: seq<byte>, s: seq<byte>)
    requires |x| <= 1 || 0 !in x
    ensures x <= Seen(true, s) <==> x <= s
    decreases |s|
  {
    if x != [] && s != [] {
      if |x| > 1 && x[0] == s[0] {
        assert s[0] == x[0] && x[0] in x;
        SeenStarts(x[1..], s[1..]);
        assert x == [x[0]] + x[1..] && s == [s[0]] + s[1..];
      } else {
        assert Seen(true, s)[0] == s[0];
      }
    }
  }

  lemma {:induction false} SeenAfter(s: seq<byte>, n: nat)
    requires n <= |s| && 0 !in s[..n]
    ensures n <= |Seen(true, s)| && Seen(true, s)[n..] == Seen(true, s[n..])
    decreases |s|
  {
    if n > 0 {
      assert s[0] == s[..n][0] && s[1..][..n - 1] == s[..n][1..];
      SeenAfter(s[1..], n - 1);
      assert s[1..][n - 1..] == s[n..];
      assert Seen(true, s) == [s[0]] + Seen(true, s[1..]);
    }
  }

  /** The choice depends only on what is seen. */
  lemma SeenChoosesSame(r: Symbols, s: seq<byte>)
    requires Lengths(r) && TerminatorFree(r, 0)
    ensures Longest(r, Seen(true, s)) == Longest(r, s)
  {
    forall j | 0 <= j < |r| ensures r[j] <= Seen(true, s) <==> r[j] <= s {
      SeenStarts(r[j], s);
    }
    LongestSamePrefixes(r, Seen(true, s), s);
  }

  lemma NoZeroInside(r: Symbols, s: seq<byte>)
    requires Lengths(r) && TerminatorFree(r, 0) && s != []
    ensures s[0] != 0 ==> 0 !in s[..Step(r, s)]
    ensures s[0] == 0 ==> Step(r, s) == 1
  {
    var i, n := Longest(r, s), Step(r, s);
    if i >= 0 && n > 1 {
      assert r[i] == s[..n];
      assert s[0] == r[i][0];
    }
  }

  /** One step splits the encoding of what is seen of the remaining bytes. */
  lemma EncodeAfterStep(skips: bool, r: Symbols, rest: seq<byte>)
    requires Encodable(r) && rest != [] && (skips ==> TerminatorFree(r, 0))
    ensures Encode(r, Seen(skips, rest))
              == Emit(r, rest) + Encode(r, Seen(skips, Drop(rest, Advance(skips, r, rest))))
  {
    hide TerminatorFree, Longest, Distinct;
    if skips {
      var u, n := Seen(true, rest), Step(r, rest);
      NoZeroInside(r, rest);
      SeenChoosesSame(r, rest);
      assert u[0] == rest[0];
      assert Encode(r, u) == Emit(r, u) + Encode(r, u[Step(r, u)..]);
      if rest[0] != 0 {
        SeenAfter(rest, n);
      } else {
        assert u[1..] == Seen(true, Drop(rest, 2));
      }
    }
  }

  lemma AppendAssociates(a: seq<byte>, b: seq<byte>, x: seq<byte>)
    ensures (a + b) + x == a + (b + x)
  {
  }

  lemma SliceGrows(before: seq<byte>, after: seq<byte>, lo: nat, mid: nat, hi: nat)
    requires lo <= mid <= hi <= |after| == |before| && after[..mid] == before[..mid]
    ensures after[lo..hi] == before[lo..mid] + after[mid..hi]
    ensures after[..lo] == before[..lo]
  {
    assert before[lo..mid] == before[..mid][lo..] && after[lo..mid] == after[..mid][lo..];
    assert after[..lo] == after[..mid][..lo] && before[..lo] == before[..mid][..lo];
  }

  lemma StagedWindow(buf: seq<byte>, end: nat, cur: nat, terminator: byte)
    requires |buf| == 520 && cur < end <= CHUNK && buf[end] == terminator
    ensures Window(buf[cur..cur + 8], buf[..end][cur..], terminator)
  {
  }

  /** `cur` bytes of the chunk are done and their codes stand at `out[o0..o]`. */
  ghost predicate Progress(r: Symbols, skips: bool, chunk: seq<byte>, cur: nat, out: seq<byte>, o0: nat, o: nat)
    requires Encodable(r)
  {
    && cur <= |chunk| + 1 && o0 <= o <= o0 + 2 * Min(cur, |chunk|) && o <= |out|
    && out[o0..o] + Encode(r, Seen(skips, Drop(chunk, cur))) == Encode(r, Seen(skips, chunk))
  }

  lemma ProgressStarts(r: Symbols, skips: bool, chunk: seq<byte>, out: seq<byte>, o0: nat)
    requires Encodable(r) && o0 <= |out|
    ensures Progress(r, skips, chunk, 0, out, o0, o0)
  {
    assert Drop(chunk, 0) == chunk;
  }

  lemma ProgressEnds(r: Symbols, skips: bool, chunk: seq<byte>, cur: nat, out: seq<byte>, o0: nat, o: nat)
    requires Encodable(r) && Progress(r, skips, chunk, cur, out, o0, o) && cur >= |chunk|
    ensures o0 <= o <= o0 + 2 * |chunk| && o <= |out| && out[o0..o] == Encode(r, Seen(skips, chunk))
  {
    assert Drop(chunk, cur) == [];
  }

  lemma DropAdvance(r: Symbols, skips: bool, chunk: seq<byte>, cur: nat)
    requires Lengths(r) && cur < |chunk|
    ensures var adv := Advance(skips, r, chunk[cur..]);
      cur + adv <= |chunk| + 1 && Drop(chunk, cur + adv) == Drop(chunk[cur..], adv)
  {
  }

  lemma ProgressStep(r: Symbols, skips: bool, chunk: seq<byte>, cur: nat,
                     before: seq<byte>, after: seq<byte>, o0: nat, o: nat, o': nat)
    requires Encodable(r) && cur < |chunk| && (skips ==> TerminatorFree(r, 0))
    requires Progress(r, skips, chunk, cur, before, o0, o)
    requires |before| == |after| && o' == o + |Emit(r, chunk[cur..])| <= |after|
    requires after[..o] == before[..o] && after[o..o'] == Emit(r, chunk[cur..])
    ensures Progress(r, skips, chunk, cur + Advance(skips, r, chunk[cur..]), after, o0, o')
    ensures after[..o0] == before[..o0]
  {
    hide Encode, Emit, Step, Seen, TerminatorFree, Distinct, Lengths;
    var rest := chunk[cur..];
    EncodeAfterStep(skips, r, rest);
    DropAdvance(r, skips, chunk, cur);
    SliceGrows(before, after, o0, o, o');
    AppendAssociates(before[o0..o], after[o..o'], Encode(r, Seen(skips, Drop(rest, Advance(skips, r, rest)))));
  }

  lemma ProgressRoom(r: Symbols, skips: bool, chunk: seq<byte>, cur: nat, out: seq<byte>, o0: nat, o: nat)
    requires Encodable(r) && Progress(r, skips, chunk, cur, out, o0, o)
    requires cur < |chunk| && o0 + 2 * |chunk| + 7 <= |out|
    ensures o + 2 <= |out|
  {
  }

  /** In zero-terminated mode no longer symbol contains a zero. */
  lemma SkipsZeroFree(c: Coder, r: Symbols, noSuffixOpt: bool, avoidBranch: bool)
    requires Final(c, r) && TerminatorFree(r, c.terminator)
    ensures Skips(c.zeroTerminated, noSuffixOpt, avoidBranch) ==> TerminatorFree(r, 0)
  {
  }

  /** One loop iteration of `compressVariant` at position `cur` of the staged chunk. */
  method ChunkStep(c: Coder, buf: array<byte>, end: nat, out: array<byte>, ghost o0: nat, cur: nat, o: nat,
                   noSuffixOpt: bool, avoidBranch: bool, ghost r: Symbols)
    returns (cur': nat, o': nat)
    requires Final(c, r) && TerminatorFree(r, c.terminator)
    requires buf != out && buf.Length == 520 && end <= CHUNK && buf[end] == c.terminator
    requires o0 + 2 * end + 7 <= out.Length
    requires cur < end
    requires Progress(r, Skips(c.zeroTerminated, noSuffixOpt, avoidBranch), buf[..end], cur, out[..], o0, o)
    modifies out
    ensures cur < cur'
    ensures Progress(r, Skips(c.zeroTerminated, noSuffixOpt, avoidBranch), buf[..end], cur', out[..], o0, o')
    ensures out[..o0] == old(out[..o0])
  {
    hide Final, Encodable, Lengths, Skips, TerminatorFree, Encode, Emit, Step, Seen, Advance, Progress, Window;
    FinalEncodable(c, r);
    ghost var rest, before := buf[..end][cur..], out[..];
    var w := buf[cur..cur + 8];
    ProgressRoom(r, Skips(c.zeroTerminated, noSuffixOpt, avoidBranch), buf[..end], cur, out[..], o0, o);
    StagedWindow(buf[..], end, cur, c.terminator);
    assert buf[..][cur..cur + 8] == w && buf[..][..end] == buf[..end];
    var adv;
    adv, o' := EmitNext(c, w, out, o, noSuffixOpt, avoidBranch, r, rest);
    cur' := cur + adv;
    SkipsZeroFree(c, r, noSuffixOpt, avoidBranch);
    ProgressStep(r, Skips(c.zeroTerminated, noSuffixOpt, avoidBranch), buf[..end], cur, before, out[..], o0, o, o');
  }

  /** `compressVariant` on one staged chunk: whatever the variant and the stale bytes
      behind the terminator, the output is the greedy encoding of what is seen of the
      chunk, which `EncodesWholeIff` compares with the chunk itself. */
  method CompressChunk(c: Coder, buf: array<byte>, end: nat, out: array<byte>, o0: nat,
                       noSuffixOpt: bool, avoidBranch: bool, ghost r: Symbols)
    returns (o: nat)
    requires Final(c, r) && TerminatorFree(r, c.terminator)
    requires buf != out && buf.Length == 520 && end <= CHUNK && buf[end] == c.terminator
    requires o0 + 2 * end + 7 <= out.Length
    modifies out
    ensures o0 <= o <= o0 + 2 * end
    ensures out[o0..o] == Encode(r, Seen(Skips(c.zeroTerminated, noSuffixOpt, avoidBranch), buf[..end]))
    ensures out[..o0] == old(out[..o0])
  {
    hide Final, Encodable, TerminatorFree, Progress, Encode, Seen, Skips;
    FinalEncodable(c, r);
    var cur := 0;
    o := o0;
    ghost var skips, chunk := Skips(c.zeroTerminated, noSuffixOpt, avoidBranch), buf[..end];
    ProgressStarts(r, skips, chunk, out[..], o0);
    while cur < end
      invariant buf[..end] == chunk && buf[end] == c.terminator
      invariant Progress(r, skips, chunk, cur, out[..], o0, o)
      invariant out[..o0] == old(out[..o0])
      decreases end - cur
    {
      cur, o := ChunkStep(c, buf, end, out, o0, cur, o, noSuffixOpt, avoidBranch, r);
    }
    ProgressEnds(r, skips, chunk, cur, out[..], o0, o);
  }

  // ---------------------------------------------------------- lines and batches

  lemma EncodeLineSplit(r: Symbols, skips: bool, s: seq<byte>)
    requires Encodable(r)
    ensures var n := Min(CHUNK, |s|);
      EncodeLine(r, skips, s) == Encode(r, Seen(skips, s[..n])) + EncodeLine(r, skips, s[n..])
  {
    if |s| <= CHUNK {
      assert s[..|s|] == s && s[|s|..] == [];
    }
  }

  /** A place where a line can be cut. */
  predicate Aligned(len: nat, off: nat) {
    off == len || (off < len && off % CHUNK == 0)
  }

  lemma EncodeNothing(r: Symbols, skips: bool)
    requires Encodable(r)
    ensures EncodeLine(r, skips, []) == []
  {
  }

  /** Encoding a line is encoding its parts, where it can be cut. */
  lemma {:induction false} EncodeLineCut(r: Symbols, skips: bool, s: seq<byte>, off: nat)
    requires Encodable(r) && Aligned(|s|, off)
    ensures EncodeLine(r, skips, s) == EncodeLine(r, skips, s[..off]) + EncodeLine(r, skips, s[off..])
    decreases |s|
  {
    hide Encode, EncodeLine, Encodable, Seen;
    EncodeNothing(r, skips);
    if off == |s| || off == 0 {
      assert s[..|s|] == s && s[|s|..] == [] && s[0..] == s && s[..0] == [];
    } else {
      assert CHUNK <= off;
      EncodeLineSplit(r, skips, s);
      EncodeLineSplit(r, skips, s[..off]);
      EncodeLineCut(r, skips, s[CHUNK..], off - CHUNK);
      assert s[..off][..CHUNK] == s[..CHUNK] && s[..off][CHUNK..] == s[CHUNK..][..off - CHUNK];
      assert s[CHUNK..][off - CHUNK..] == s[off..];
    }
  }

  // ---------------------------------------------------------------- which lines fit

  /** A chunk of a line starts at `off`; an empty line has one empty chunk. */
  predicate ChunkStart(len: nat, off: nat) {
    off % CHUNK == 0 && (off < len || off == 0)
  }

  /** The worst case of the chunk at `off`, behind the codes of the chunks before it, does
      not fit into `space` bytes. */
  predicate Overflows(r: Symbols, skips: bool, line: seq<byte>, off: nat, space: int)
    requires Encodable(r) && off <= |line|
  {
    |EncodeLine(r, skips, line[..off])| + 2 * Min(CHUNK, |line| - off) + 7 > space
  }

  /** The worst case of every chunk fits, behind the codes of the chunks before it. */
  ghost predicate LineFits(r: Symbols, skips: bool, line: seq<byte>, space: int)
    requires Encodable(r)
  {
    forall off :: 0 <= off <= |line| && ChunkStart(|line|, off) ==> !Overflows(r, skips, line, off, space)
  }

  /** Seven bytes more than twice the line are always enough. */
  lemma RoomSuffices(r: Symbols, skips: bool, line: seq<byte>, space: int)
    requires Encodable(r) && 2 * |line| + 7 <= space
    ensures LineFits(r, skips, line, space)
  {
    hide EncodeLine, Encodable;
  }

  lemma FailsShort(r: Symbols, skips: bool, line: seq<byte>, space: int)
    requires Encodable(r)
    ensures !LineFits(r, skips, line, space) ==> 2 * |line| + 7 > space
  {
    if 2 * |line| + 7 <= space {
      RoomSuffices(r, skips, line, space);
    }
  }

  lemma NextChunk(len: nat, off: nat, cut: nat)
    requires ChunkStart(len, off) && ChunkStart(len, cut) && off < cut
    ensures off + CHUNK <= cut
  {
  }

  method Stage(buf: array<byte>, chunk: seq<byte>, terminator: byte)
    requires buf.Length == 520 && |chunk| <= CHUNK
    modifies buf
    ensures buf[..|chunk|] == chunk && buf[|chunk|] == terminator
  {
    for k := 0 to |chunk|
      invariant buf[..k] == chunk[..k]
    {
      buf[k] := chunk[k];
    }
    buf[|chunk|] := terminator;
  }

  /** Copies a chunk to the staging buffer, ends it with the terminator and compresses it. */
  method StageAndCompress(c: Coder, piece: seq<byte>, buf: array<byte>, out: array<byte>, o: nat,
                          noSuffixOpt: bool, avoidBranch: bool, ghost r: Symbols)
    returns (o': nat)
    requires Final(c, r) && TerminatorFree(r, c.terminator)
    requires buf != out && buf.Length == 520 && |piece| <= CHUNK && o + 2 * |piece| + 7 <= out.Length
    modifies buf, out
    ensures o <= o' <= o + 2 * |piece|
    ensures out[o..o'] == Encode(r, Seen(Skips(c.zeroTerminated, noSuffixOpt, avoidBranch), piece))
    ensures out[..o] == old(out[..o])
  {
    hide Final, TerminatorFree;
    Stage(buf, piece, c.terminator);
    o' := CompressChunk(c, buf, |piece|, out, o, noSuffixOpt, avoidBranch, r);
  }

  /** Compresses the next chunk of a line. */
  method CompressPiece(c: Coder, line: seq<byte>, curOff: nat, buf: array<byte>, out: array<byte>,
                       ghost o0: nat, o: nat, noSuffixOpt: bool, avoidBranch: bool, ghost r: Symbols)
    returns (curOff': nat, o': nat)
    requires Final(c, r) && TerminatorFree(r, c.terminator)
    requires buf != out && buf.Length == 520
    requires LineProgress(r, Skips(c.zeroTerminated, noSuffixOpt, avoidBranch), line, curOff, out[..], o0, o)
    requires o + 2 * Min(CHUNK, |line| - curOff) + 7 <= out.Length
    modifies buf, out
    ensures curOff' == curOff + Min(CHUNK, |line| - curOff)
    ensures LineProgress(r, Skips(c.zeroTerminated, noSuffixOpt, avoidBranch), line, curOff', out[..], o0, o')
    ensures out[..o0] == old(out[..o0])
  {
    hide Final, TerminatorFree, Encodable, Encode, EncodeLine, Seen, Skips;
    FinalEncodable(c, r);
    var chunk := Min(CHUNK, |line| - curOff);
    ghost var before, skips := out[..], Skips(c.zeroTerminated, noSuffixOpt, avoidBranch);
    o' := StageAndCompress(c, line[curOff..curOff + chunk], buf, out, o, noSuffixOpt, avoidBranch, r);
    LineStep(r, skips, line, curOff, before, out[..], o0, o, o');
    curOff' := curOff + chunk;
  }

  /** How far the codes reach when the chunk at `curOff` comes next. */
  lemma ProgressCodes(r: Symbols, skips: bool, line: seq<byte>, curOff: nat, out: seq<byte>, o0: nat, o: nat)
    requires Encodable(r) && LineProgress(r, skips, line, curOff, out, o0, o) && Aligned(|line|, curOff)
    ensures o == o0 + |EncodeLine(r, skips, line[..curOff])|
  {
    hide EncodeLine, Encodable;
    EncodeLineCut(r, skips, line, curOff);
  }

  /** All chunks before `curOff` fit. */
  ghost predicate FitsUpTo(r: Symbols, skips: bool, line: seq<byte>, space: int, curOff: nat)
    requires Encodable(r)
  {
    forall off :: 0 <= off <= |line| && off < curOff && ChunkStart(|line|, off) ==>
      !Overflows(r, skips, line, off, space)
  }

  lemma FitsNext(r: Symbols, skips: bool, line: seq<byte>, space: int, curOff: nat)
    requires Encodable(r) && FitsUpTo(r, skips, line, space, curOff) && curOff <= |line| && ChunkStart(|line|, curOff)
    requires !Overflows(r, skips, line, curOff, space)
    ensures var next := curOff + Min(CHUNK, |line| - curOff);
      FitsUpTo(r, skips, line, space, next) && (next >= |line| ==> LineFits(r, skips, line, space))
  {
    hide Overflows, ChunkStart;
    forall off | 0 <= off <= |line| && curOff < off && ChunkStart(|line|, off) ensures off >= curOff + CHUNK {
      NextChunk(|line|, curOff, off);
    }
    ChunkStartInside(|line|);
  }

  lemma ChunkStartInside(len: nat)
    ensures forall off :: 0 <= off <= len && ChunkStart(len, off) ==> off < len || off == 0
  {
  }

  /** Compresses one line, chunk by chunk.  It fails exactly when the worst case of some
      chunk does not fit the space that the chunks before it have left. */
  method CompressLine(c: Coder, line: seq<byte>, buf: array<byte>, out: array<byte>, o0: nat,
                      noSuffixOpt: bool, avoidBranch: bool, ghost r: Symbols)
    returns (ok: bool, o: nat)
    requires Final(c, r) && TerminatorFree(r, c.terminator)
    requires buf != out && buf.Length == 520 && o0 <= out.Length
    modifies buf, out
    ensures o0 <= o <= out.Length && out[..o0] == old(out[..o0])
    ensures ok ==> o <= o0 + 2 * |line|
    ensures ok ==> out[o0..o] == EncodeLine(r, Skips(c.zeroTerminated, noSuffixOpt, avoidBranch), line)
    ensures ok <==> LineFits(r, Skips(c.zeroTerminated, noSuffixOpt, avoidBranch), line, out.Length - o0)
    ensures !ok ==> o0 + 2 * |line| + 7 > out.Length
  {
    hide Final, TerminatorFree, Encodable, EncodeLine, Skips, LineProgress, FitsUpTo, LineFits;
    FinalEncodable(c, r);
    ghost var skips := Skips(c.zeroTerminated, noSuffixOpt, avoidBranch);
    LineEnds(r, skips, line, out[..], o0, o0);
    o := o0;
    var curOff := 0;
    NothingFitted(r, skips, line, out.Length - o0);
    while true
      invariant curOff <= |line| && ChunkStart(|line|, curOff) && o0 <= o <= out.Length
      invariant LineProgress(r, skips, line, curOff, out[..], o0, o)
      invariant FitsUpTo(r, skips, line, out.Length - o0, curOff)
      invariant out[..o0] == old(out[..o0])
      decreases |line| - curOff
    {
      ProgressCodes(r, skips, line, curOff, out[..], o0, o);
      if 2 * Min(CHUNK, |line| - curOff) + 7 > out.Length - o {
        OverflowStops(r, skips, line, out.Length - o0, curOff);
        FailsShort(r, skips, line, out.Length - o0);
        return false, o;
      }
      FitsNext(r, skips, line, out.Length - o0, curOff);
      curOff, o := CompressPiece(c, line, curOff, buf, out, o0, o, noSuffixOpt, avoidBranch, r);
      ProgressBounds(r, skips, line, curOff, out[..], o0, o);
      if curOff >= |line| {
        LineEnds(r, skips, line, out[..], o0, o);
        return true, o;
      }
    }
  }

  lemma NothingFitted(r: Symbols, skips: bool, line: seq<byte>, space: int)
    requires Encodable(r)
    ensures FitsUpTo(r, skips, line, space, 0)
  {
  }

  lemma OverflowStops(r: Symbols, skips: bool, line: seq<byte>, space: int, off: nat)
    requires Encodable(r) && off <= |line| && ChunkStart(|line|, off) && Overflows(r, skips, line, off, space)
    ensures !LineFits(r, skips, line, space)
  {
  }

  lemma ProgressBounds(r: Symbols, skips: bool, line: seq<byte>, curOff: nat, out: seq<byte>, o0: nat, o: nat)
    requires Encodable(r) && LineProgress(r, skips, line, curOff, out, o0, o)
    ensures curOff <= |line| && o0 <= o <= |out|
  {
  }

  ghost predicate LineProgress(r: Symbols, skips: bool, line: seq<byte>, curOff: nat,
                               out: seq<byte>, o0: nat, o: nat)
    requires Encodable(r)
  {
    && curOff <= |line| && o0 <= o <= |out| && o <= o0 + 2 * curOff
    && out[o0..o] + EncodeLine(r, skips, line[curOff..]) == EncodeLine(r, skips, line)
  }

  lemma LineEnds(r: Symbols, skips: bool, line: seq<byte>, out: seq<byte>, o0: nat, o: nat)
    requires Encodable(r) && o0 <= o <= |out|
    ensures LineProgress(r, skips, line, 0, out, o0, o0)
    ensures LineProgress(r, skips, line, |line|, out, o0, o) ==>
      o <= o0 + 2 * |line| && out[o0..o] == EncodeLine(r, skips, line)
  {
    assert line[0..] == line && line[|line|..] == [];
  }

  lemma LineStep(r: Symbols, skips: bool, line: seq<byte>, curOff: nat,
                 before: seq<byte>, after: seq<byte>, o0: nat, o: nat, o': nat)
    requires Encodable(r) && LineProgress(r, skips, line, curOff, before, o0, o) && o <= o' <= |after| == |before|
    requires after[..o] == before[..o]
    requires var n := Min(CHUNK, |line| - curOff);
      after[o..o'] == Encode(r, Seen(skips, line[curOff..curOff + n])) && o' <= o + 2 * n
    ensures LineProgress(r, skips, line, curOff + Min(CHUNK, |line| - curOff), after, o0, o')
    ensures after[..o0] == before[..o0]
  {
    hide Encode, EncodeLine, Encodable, Seen;
    var rest, n := line[curOff..], Min(CHUNK, |line| - curOff);
    EncodeLineSplit(r, skips, rest);
    assert rest[..n] == line[curOff..curOff + n] && rest[n..] == line[curOff + n..];
    SliceGrows(before, after, o0, o, o');
    AppendAssociates(before[o0..o], after[o..o'], EncodeLine(r, skips, line[curOff + n..]));
  }

  function TotalLength(lines: seq<seq<byte>>): nat {
    if lines == [] then 0 else TotalLength(lines[..|lines| - 1]) + |lines[|lines| - 1]|
  }

  lemma {:induction false} TotalLengthMonotone(lines: seq<seq<byte>>, k: nat)
    requires k <= |lines|
    ensures TotalLength(lines[..k]) <= TotalLength(lines)
    decreases |lines|
  {
    if k < |lines| {
      TotalLengthMonotone(lines[..|lines| - 1], k);
      assert lines[..|lines| - 1][..k] == lines[..k];
    } else {
      assert lines[..k] == lines;
    }
  }

  /** The compressed lines, one behind the other. */
  function EncodeLines(r: Symbols, skips: bool, lines: seq<seq<byte>>): (z: seq<byte>)
    requires Encodable(r)
    ensures |z| <= 2 * TotalLength(lines)
  {
    if lines == [] then []
    else EncodeLines(r, skips, lines[..|lines| - 1]) + EncodeLine(r, skips, lines[|lines| - 1])
  }

  lemma EncodeLinesStep(r: Symbols, skips: bool, lines: seq<seq<byte>>, n: nat)
    requires Encodable(r) && n < |lines|
    ensures EncodeLines(r, skips, lines[..n + 1]) == EncodeLines(r, skips, lines[..n]) + EncodeLine(r, skips, lines[n])
    ensures TotalLength(lines[..n + 1]) == TotalLength(lines[..n]) + |lines[n]|
  {
    assert lines[..n + 1][..n] == lines[..n];
  }

  /** `strOut` and `lenOut` say where in `EncodeLines` each line stands. */
  ghost predicate Located(r: Symbols, skips: bool, lines: seq<seq<byte>>, n: nat, strOut: seq<int>, lenOut: seq<nat>)
    requires Encodable(r)
  {
    && n <= |lines| <= |strOut| && |lines| <= |lenOut|
    && forall l :: 0 <= l < n ==>
         strOut[l] == |EncodeLines(r, skips, lines[..l])| && lenOut[l] == |EncodeLine(r, skips, lines[l])|
  }

  lemma NothingLocated(r: Symbols, skips: bool, lines: seq<seq<byte>>, strOut: seq<int>, lenOut: seq<nat>)
    requires Encodable(r) && |lines| <= |strOut| && |lines| <= |lenOut|
    ensures EncodeLines(r, skips, lines[..0]) == [] && Located(r, skips, lines, 0, strOut, lenOut)
  {
  }

  lemma LocatedNext(r: Symbols, skips: bool, lines: seq<seq<byte>>, n: nat, strOut: seq<int>, lenOut: seq<nat>,
                    start: int, length: nat)
    requires Encodable(r) && n < |lines| && Located(r, skips, lines, n, strOut, lenOut)
    requires start == |EncodeLines(r, skips, lines[..n])| && length == |EncodeLine(r, skips, lines[n])|
    ensures Located(r, skips, lines, n + 1, strOut[n := start], lenOut[n := length])
  {
    hide EncodeLines, EncodeLine;
  }

  lemma SliceOfPrefix(x: seq<byte>, y: seq<byte>, a: nat, b: nat)
    requires a <= b <= |x|
    ensures (x + y)[a..b] == x[a..b]
  {
  }

  lemma SliceOfSuffix(x: seq<byte>, y: seq<byte>)
    ensures (x + y)[|x|..|x| + |y|] == y
  {
  }

  /** Cutting the output at those places gives every line's own encoding. */
  lemma {:induction false} LocatedLine(r: Symbols, skips: bool, lines: seq<seq<byte>>, n: nat, l: nat)
    requires Encodable(r) && l < n <= |lines|
    ensures var z, a := EncodeLines(r, skips, lines[..n]), |EncodeLines(r, skips, lines[..l])|;
      var b := a + |EncodeLine(r, skips, lines[l])|;
      b <= |z| && z[a..b] == EncodeLine(r, skips, lines[l])
  {
    hide EncodeLines, EncodeLine, Encodable;
    EncodeLinesStep(r, skips, lines, n - 1);
    var whole, last := EncodeLines(r, skips, lines[..n - 1]), EncodeLine(r, skips, lines[n - 1]);
    if l < n - 1 {
      LocatedLine(r, skips, lines, n - 1, l);
      var a := |EncodeLines(r, skips, lines[..l])|;
      SliceOfPrefix(whole, last, a, a + |EncodeLine(r, skips, lines[l])|);
    } else {
      SliceOfSuffix(whole, last);
    }
  }

  /** The line with number `l` fits behind the codes of the lines before it. */
  ghost predicate Completes(r: Symbols, skips: bool, lines: seq<seq<byte>>, l: nat, size: nat)
    requires Encodable(r) && l < |lines|
  {
    LineFits(r, skips, lines[l], size - |EncodeLines(r, skips, lines[..l])|)
  }

  /** All lines before `n` fit, and line `n`, if there is one, does not: how many lines are
      completed follows from their codes and the size of the buffer. */
  ghost predicate StopsBefore(r: Symbols, skips: bool, lines: seq<seq<byte>>, n: nat, size: nat)
    requires Encodable(r)
  {
    && n <= |lines|
    && (forall l :: 0 <= l < n ==> Completes(r, skips, lines, l, size))
    && (n < |lines| ==> !Completes(r, skips, lines, n, size))
  }

  lemma StopsOnce(r: Symbols, skips: bool, lines: seq<seq<byte>>, m: nat, n: nat, size: nat)
    requires Encodable(r) && StopsBefore(r, skips, lines, m, size) && StopsBefore(r, skips, lines, n, size)
    ensures m == n
  {
    hide Completes;
  }

  /** What the worst case guarantees: lines that fit together in full are all completed, and
      so is the first line if it fits. */
  lemma StopsLate(r: Symbols, skips: bool, lines: seq<seq<byte>>, n: nat, size: nat, k: nat)
    requires Encodable(r) && StopsBefore(r, skips, lines, n, size)
    requires k <= |lines| && 2 * TotalLength(lines[..k]) + 7 <= size
    ensures k <= n
  {
    hide LineFits, EncodeLines, Encodable;
    if n < k {
      TotalLengthMonotone(lines[..k], n + 1);
      assert lines[..k][..n + 1] == lines[..n + 1];
      EncodeLinesStep(r, skips, lines, n);
      RoomSuffices(r, skips, lines[n], size - |EncodeLines(r, skips, lines[..n])|);
    }
  }

  /** The scalar compressor.  Returns how many lines it completed: those before the first
      line that does not fit. */
  method CompressBulk(c: Coder, lines: seq<seq<byte>>, out: array<byte>, lenOut: array<nat>, strOut: array<nat>,
                      noSuffixOpt: bool, avoidBranch: bool, ghost r: Symbols)
    returns (curLine: nat)
    requires Final(c, r) && TerminatorFree(r, c.terminator)
    requires lenOut != strOut && lenOut.Length >= |lines| && strOut.Length >= |lines|
    modifies out, lenOut, strOut
    ensures StopsBefore(r, Skips(c.zeroTerminated, noSuffixOpt, avoidBranch), lines, curLine, out.Length)
    ensures EncodeLines(r, Skips(c.zeroTerminated, noSuffixOpt, avoidBranch), lines[..curLine]) <= out[..]
    ensures Located(r, Skips(c.zeroTerminated, noSuffixOpt, avoidBranch), lines, curLine, strOut[..], lenOut[..])
    ensures forall k :: curLine < k <= |lines| ==> 2 * TotalLength(lines[..k]) + 7 > out.Length
  {
    hide Final, TerminatorFree, Encodable, EncodeLine, EncodeLines, Skips, Located, TotalLength, LineFits;
    FinalEncodable(c, r);
    ghost var skips := Skips(c.zeroTerminated, noSuffixOpt, avoidBranch);
    var buf := new byte[520](_ => 0);
    var o := 0;
    curLine := 0;
    NothingLocated(r, skips, lines, strOut[..], lenOut[..]);
    while curLine < |lines|
      invariant curLine <= |lines| && o <= out.Length
      invariant out[..o] == EncodeLines(r, skips, lines[..curLine])
      invariant Located(r, skips, lines, curLine, strOut[..], lenOut[..])
      invariant forall l :: 0 <= l < curLine ==> Completes(r, skips, lines, l, out.Length)
    {
      EncodeLinesStep(r, skips, lines, curLine);
      var ok, o' := CompressLine(c, lines[curLine], buf, out, o, noSuffixOpt, avoidBranch, r);
      assert Completes(r, skips, lines, curLine, out.Length) <==> ok;
      if !ok {
        break;
      }
      SliceGrows(out[..], out[..], 0, o, o');
      LocatedNext(r, skips, lines, curLine, strOut[..], lenOut[..], o, o' - o);
      strOut[curLine], lenOut[curLine] := o, o' - o;
      curLine, o := curLine + 1, o';
    }
    forall k | curLine < k <= |lines| ensures 2 * TotalLength(lines[..k]) + 7 > out.Length {
      if 2 * TotalLength(lines[..k]) + 7 <= out.Length {
        StopsLate(r, skips, lines, curLine, out.Length, k);
      }
    }
  }
}
