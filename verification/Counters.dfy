/** The packed training counters: 16-bit counters as a high and a low byte column,
    12-bit pair counters as a high nibble and a low byte column.  The high part is
    incremented early, so it is zero exactly when the counter is, and scanning can
    jump over eight or sixteen zeros with one load. */
module TrainingCounters {
  import opened Bytes
  import opened Sums

  const CODES := 512
  const PAIRS := 0x40000
  /** Offsets of the four columns in the counters' memory. */
  const HIGH1 := 0
  const LOW1 := 512
  const HIGH2 := 1024
  const LOW2 := 0x20400
  const SIZE := 0x60400

  const LIMIT1 := 65280
  const LIMIT2 := 3840

  // ------------------------------------------------------------ bits of a word

  /** Number of trailing zero bits. */
  function Ctz(n: nat): nat
    requires n > 0
  {
    if n % 2 == 1 then 0 else 1 + Ctz(n / 2)
  }

  lemma CtzDoubles(m: nat)
    requires m > 0
    ensures Ctz(2 * m) == 1 + Ctz(m)
  {
  }

  lemma Ctz16(m: nat)
    requires m > 0
    ensures Ctz(16 * m) == 4 + Ctz(m)
  {
    CtzDoubles(m);
    CtzDoubles(2 * m);
    CtzDoubles(4 * m);
    CtzDoubles(8 * m);
  }

  lemma Ctz256(m: nat)
    requires m > 0
    ensures Ctz(256 * m) == 8 + Ctz(m)
  {
    Ctz16(m);
    Ctz16(16 * m);
  }

  lemma CtzHalves(n: nat)
    requires n > 0
    ensures n % 2 == 1 ==> Ctz(n) == 0
    ensures n % 2 == 0 ==> n / 2 > 0 && Ctz(n) == 1 + Ctz(n / 2)
  {
  }

  lemma CtzBelow4(n: nat)
    requires n % 16 != 0
    ensures Ctz(n) < 4
  {
    hide Ctz;
    CtzHalves(n);
    if n % 2 == 0 {
      var h := n / 2;
      CtzHalves(h);
      if h % 2 == 0 {
        CtzHalves(h / 2);
        if h / 2 % 2 == 0 {
          CtzHalves(h / 2 / 2);
        }
      }
    }
  }

  lemma CtzBelow8(n: nat)
    requires n % 256 != 0
    ensures Ctz(n) < 8
  {
    hide Ctz;
    if n % 16 != 0 {
      CtzBelow4(n);
    } else {
      var m := n / 16;
      assert n == 16 * m && m % 16 != 0;
      Ctz16(m);
      CtzBelow4(m);
    }
  }

  /** Right shifts by `k` bytes and by `k` nibbles. */
  function Shr8(n: nat, k: nat): nat
    decreases k
  {
    if k == 0 then n else Shr8(n / 256, k - 1)
  }

  function Shr4(n: nat, k: nat): nat
    decreases k
  {
    if k == 0 then n else Shr4(n / 16, k - 1)
  }

  /** Trailing zero bits count trailing zero bytes. */
  lemma {:induction false} FirstByte(n: nat)
    requires n > 0
    ensures Shr8(n, Ctz(n) / 8) % 256 != 0
    ensures forall j :: 0 <= j < Ctz(n) / 8 ==> Shr8(n, j) % 256 == 0
  {
    hide Ctz;
    if n % 256 != 0 {
      CtzBelow8(n);
    } else {
      var m := n / 256;
      Ctz256(m);
      FirstByte(m);
      forall j | 0 <= j < Ctz(n) / 8 ensures Shr8(n, j) % 256 == 0 {
        if j > 0 {
          assert Shr8(n, j) == Shr8(m, j - 1);
        }
      }
    }
  }

  /** Trailing zero bits count trailing zero nibbles. */
  lemma {:induction false} FirstNibble(n: nat)
    requires n > 0
    ensures Shr4(n, Ctz(n) / 4) % 16 != 0
    ensures forall j :: 0 <= j < Ctz(n) / 4 ==> Shr4(n, j) % 16 == 0
  {
    hide Ctz;
    if n % 16 != 0 {
      CtzBelow4(n);
    } else {
      var m := n / 16;
      Ctz16(m);
      FirstNibble(m);
      forall j | 0 <= j < Ctz(n) / 4 ensures Shr4(n, j) % 16 == 0 {
        if j > 0 {
          assert Shr4(n, j) == Shr4(m, j - 1);
        }
      }
    }
  }

  lemma {:induction false} ZeroShifts(k: nat)
    ensures Shr8(0, k) == 0 && Shr4(0, k) == 0
  {
    if k > 0 {
      ZeroShifts(k - 1);
    }
  }

  /** The digits of a loaded word are the bytes in memory order. */
  lemma {:induction false} LoadDigit(bs: seq<byte>, j: nat)
    requires j < |bs|
    ensures Shr8(Load(bs), j) % 256 == bs[j]
  {
    if j > 0 {
      assert Load(bs) / 256 == Load(bs[1..]);
      LoadDigit(bs[1..], j - 1);
    }
  }

  function Nibble(b: byte, odd: nat): nat { if odd == 0 then b % 16 else b / 16 }

  lemma {:induction false} LoadNibble(bs: seq<byte>, j: nat)
    requires j < 2 * |bs|
    ensures Shr4(Load(bs), j) % 16 == Nibble(bs[j / 2], j % 2)
  {
    hide Load;
    LoadParts(bs);
    var n := Load(bs);
    if j == 1 {
      assert Shr4(n, 1) == n / 16;
    } else if j > 1 {
      assert Shr4(n, j) == Shr4(n / 16 / 16, j - 2);
      LoadNibble(bs[1..], j - 2);
    }
  }

  lemma LoadParts(bs: seq<byte>)
    requires bs != []
    ensures Load(bs) % 16 == bs[0] % 16 && Load(bs) / 16 % 16 == bs[0] / 16
    ensures Load(bs) / 16 / 16 == Load(bs) / 256 == Load(bs[1..])
  {
    var m := Load(bs[1..]);
    assert Load(bs) == bs[0] + 256 * m;
    assert Load(bs) / 16 == bs[0] / 16 + 16 * m;
  }

  // ------------------------------------------------------------ representation

  /** Byte addition. */
  function Plus(b: byte, k: nat): byte { (b as int + k) % 256 }

  /** High part of a count, incremented early. */
  function High(n: nat): nat { (n + 255) / 256 }

  /** What the scan computes from a high and a low part. */
  function Value(high: nat, low: nat): int {
    (if low > 0 then high - 1 else high) * 256 + low
  }

  /** What a counter with these parts reads as. */
  function Read(high: nat, low: nat): (n: nat) { if high == 0 then 0 else Value(high, low) }

  /** A low part that the high part accounts for.  Only such parts can be reached by
      counting within the limits. */
  predicate Backed(high: nat, low: nat) { high > 0 || low == 0 }

  /** A count has exactly one such pair of parts, and the high part alone tells zero. */
  lemma PartsExact(n: nat, high: nat, low: byte)
    requires Backed(high, low)
    ensures Read(high, low) == n <==> high == High(n) && low as int == n % 256
    ensures Read(high, low) > 0 <==> high > 0
    ensures high < 256 <==> Read(high, low) <= LIMIT1
    ensures high < 16 <==> Read(high, low) <= LIMIT2
  {
  }

  type Memory = mem: seq<byte> | |mem| == SIZE witness Cleared()

  function Cleared(): (mem: seq<byte>)
    ensures |mem| == SIZE && forall k :: 0 <= k < SIZE ==> mem[k] == 0
  {
    seq(SIZE, _ => 0)
  }

  /** The parts of a single counter. */
  function High1(mem: Memory, p: nat): byte requires p < CODES { mem[HIGH1 + p] }
  function Low1(mem: Memory, p: nat): byte requires p < CODES { mem[LOW1 + p] }

  /** The cell of a pair. */
  function Cell(pos1: nat, pos2: nat): (f: nat)
    requires pos1 < CODES && pos2 < CODES
    ensures f < PAIRS
  {
    CODES * pos1 + pos2
  }

  /** The parts of a pair counter. */
  function High2(mem: Memory, f: nat): nat requires f < PAIRS { Nibble(mem[HIGH2 + f / 2], f % 2) }
  function Low2(mem: Memory, f: nat): byte requires f < PAIRS { mem[LOW2 + f] }

  /** What the counters read as, for any contents of the memory. */
  function Singles(mem: Memory): (n1: seq<nat>)
    ensures |n1| == CODES && forall p :: 0 <= p < CODES ==> n1[p] == Read(High1(mem, p), Low1(mem, p))
  {
    seq(CODES, p requires 0 <= p < CODES => Read(High1(mem, p), Low1(mem, p)))
  }

  function Pairs(mem: Memory): (n2: seq<nat>)
    ensures |n2| == PAIRS && forall f :: 0 <= f < PAIRS ==> n2[f] == Read(High2(mem, f), Low2(mem, f))
  {
    seq(PAIRS, f requires 0 <= f < PAIRS => Read(High2(mem, f), Low2(mem, f)))
  }

  ghost predicate AllBacked(mem: Memory) {
    && (forall p :: 0 <= p < CODES ==> Backed(High1(mem, p), Low1(mem, p)))
    && (forall f :: 0 <= f < PAIRS ==> Backed(High2(mem, f), Low2(mem, f)))
  }

  // ------------------------------------------------------------------ increments

  /** Memory after counting code `p`. */
  function AfterInc1(mem: Memory, p: nat): Memory
    requires p < CODES
  {
    var low := mem[LOW1 + p];
    var mem1 := mem[LOW1 + p := Plus(low, 1)];
    if low == 0 then mem1[HIGH1 + p := Plus(mem[HIGH1 + p], 1)] else mem1
  }

  /** Memory after counting pair cell `f`. */
  function AfterInc2(mem: Memory, f: nat): Memory
    requires f < PAIRS
  {
    var low := mem[LOW2 + f];
    var mem1 := mem[LOW2 + f := Plus(low, 1)];
    if low == 0 then mem1[HIGH2 + f / 2 := Plus(mem[HIGH2 + f / 2], if f % 2 == 0 then 1 else 16)] else mem1
  }

  /** One increment of a counter whose high part has `top` values. */
  lemma ReadStep(high: nat, low: byte, top: nat)
    requires high < top
    ensures var low' := Plus(low, 1); var high' := if low == 0 then (high + 1) % top else high;
      var n := Read(high, low);
      && Read(high', low') == (if Backed(high, low) && n < 256 * (top - 1) then n + 1 else 0)
      && (Backed(high, low) && n < 256 * (top - 1) ==> Backed(high', low'))
  {
    if low == 0 && high + 1 < top {
      assert (high + 1) % top == high + 1;
    }
  }

  /** Counting a code: its counter reads one more; one that stands at the limit, or that
      has overrun it before, reads zero.  No other counter changes. */
  lemma Inc1Reads(mem: Memory, p: nat)
    requires p < CODES
    ensures var n := Singles(mem)[p]; var counts := Backed(High1(mem, p), Low1(mem, p)) && n < LIMIT1;
      && Singles(AfterInc1(mem, p)) == Singles(mem)[p := if counts then n + 1 else 0]
      && Pairs(AfterInc1(mem, p)) == Pairs(mem)
      && (counts && AllBacked(mem) ==> AllBacked(AfterInc1(mem, p)))
  {
    hide Read, Nibble, Plus, Backed;
    ReadStep(High1(mem, p), Low1(mem, p), 256);
    PlusOne(mem[HIGH1 + p]);
    var mem' := AfterInc1(mem, p);
    forall f | 0 <= f < PAIRS ensures High2(mem', f) == High2(mem, f) && Low2(mem', f) == Low2(mem, f) {
    }
    forall q | 0 <= q < CODES && q != p ensures High1(mem', q) == High1(mem, q) && Low1(mem', q) == Low1(mem, q) {
    }
  }

  lemma PlusOne(b: byte)
    ensures Plus(b, 1) as int == (b as int + 1) % 256
  {
  }

  /** Adding one to a nibble leaves the other nibble of the byte alone. */
  lemma NibbleInc(b: byte, odd: nat)
    requires odd < 2 && Nibble(b, odd) < 15
    ensures var b' := Plus(b, if odd == 0 then 1 else 16);
      Nibble(b', odd) == Nibble(b, odd) + 1 && Nibble(b', 1 - odd) == Nibble(b, 1 - odd)
  {
    var hi, lo := b / 16, b % 16;
    NibbleParts(hi, lo);
    if odd == 0 {
      NibbleParts(hi, lo + 1);
      assert Plus(b, 1) == 16 * hi + (lo + 1);
    } else {
      NibbleParts(hi + 1, lo);
      assert Plus(b, 16) == 16 * (hi + 1) + lo;
    }
  }

  lemma NibbleParts(hi: nat, lo: nat)
    requires hi < 16 && lo < 16
    ensures var b := 16 * hi + lo; b < 256 && b / 16 == hi && b % 16 == lo
  {
  }

  /** A full even nibble carries into the odd one; a full odd nibble carries nowhere. */
  lemma NibbleOverflow(b: byte, odd: nat)
    requires odd < 2 && Nibble(b, odd) == 15
    ensures var b' := Plus(b, if odd == 0 then 1 else 16);
      && Nibble(b', odd) == 0
      && Nibble(b', 1 - odd) == (if odd == 0 then (Nibble(b, 1) + 1) % 16 else Nibble(b, 0))
  {
    var hi, lo := b / 16, b % 16;
    NibbleParts(hi, lo);
    if odd == 0 {
      NibbleParts((hi + 1) % 16, 0);
      assert Plus(b, 1) == 16 * ((hi + 1) % 16);
    } else {
      NibbleParts(0, lo);
      assert Plus(b, 16) == lo;
    }
  }

  /** The other cell of the same byte. */
  function Neighbour(f: nat): (g: nat) { if f % 2 == 0 then f + 1 else f - 1 }

  /** The memory parts of the cells after counting cell `f`. */
  lemma Inc2Parts(mem: Memory, f: nat)
    requires f < PAIRS
    ensures var mem', g := AfterInc2(mem, f), Neighbour(f);
      && g < PAIRS
      && Low2(mem', f) == Plus(Low2(mem, f), 1)
      && High2(mem', f) == (if Low2(mem, f) == 0 then (High2(mem, f) + 1) % 16 else High2(mem, f))
      && (forall h :: 0 <= h < PAIRS && h != f ==> Low2(mem', h) == Low2(mem, h))
      && (forall h :: 0 <= h < PAIRS && h != f && h != g ==> High2(mem', h) == High2(mem, h))
      && High2(mem', g) == (if Low2(mem, f) == 0 && High2(mem, f) == 15 && f % 2 == 0
                            then (High2(mem, g) + 1) % 16 else High2(mem, g))
  {
    hide Plus, Nibble;
    var mem', g := AfterInc2(mem, f), Neighbour(f);
    var b := mem[HIGH2 + f / 2];
    assert g / 2 == f / 2 && g % 2 == 1 - f % 2;
    NibbleRange(b, f % 2);
    if mem[LOW2 + f] == 0 {
      if Nibble(b, f % 2) < 15 {
        NibbleInc(b, f % 2);
      } else {
        NibbleOverflow(b, f % 2);
      }
    }
    forall h | 0 <= h < PAIRS && h != f && h != g ensures High2(mem', h) == High2(mem, h) {
      assert h / 2 != f / 2;
    }
  }

  lemma NibbleRange(b: byte, odd: nat)
    ensures Nibble(b, odd) < 16
  {
  }

  /** A carry adds 256 to what the neighbour reads as, or resets it. */
  lemma CarryRead(high: nat, low: byte)
    requires high < 16
    ensures Read((high + 1) % 16, low) <= Read(high, low) + 256
  {
  }

  /** What the pair counters read as after one was counted that reads `n`. */
  ghost predicate Counted2(before: seq<nat>, after: seq<nat>, f: nat, counts: bool) {
    && |before| == |after| == PAIRS && f < PAIRS
    && after[f] == (if counts then before[f] + 1 else 0)
    && (forall h :: 0 <= h < PAIRS && h != f && h != Neighbour(f) ==> after[h] == before[h])
    && (var g := Neighbour(f);
        if !counts && before[f] == LIMIT2 && f % 2 == 0 then after[g] <= before[g] + 256 else after[g] == before[g])
  }

  /** Counting a pair: its counter reads one more; one that stands at the limit, or has
      overrun it before, reads zero, and at the limit an even cell carries into its
      neighbour.  No other counter changes. */
  lemma Inc2Reads(mem: Memory, f: nat)
    requires f < PAIRS
    ensures var n := Pairs(mem)[f]; var counts := Backed(High2(mem, f), Low2(mem, f)) && n < LIMIT2;
      && Counted2(Pairs(mem), Pairs(AfterInc2(mem, f)), f, counts)
      && Singles(AfterInc2(mem, f)) == Singles(mem)
      && (counts && AllBacked(mem) ==> AllBacked(AfterInc2(mem, f)))
  {
    hide Nibble, Plus, High2;
    var mem', g := AfterInc2(mem, f), Neighbour(f);
    Inc2Parts(mem, f);
    High2Range(mem, f);
    High2Range(mem, g);
    ReadStep(High2(mem, f), Low2(mem, f), 16);
    CarryRead(High2(mem, g), Low2(mem, g));
    forall p | 0 <= p < CODES ensures High1(mem', p) == High1(mem, p) && Low1(mem', p) == Low1(mem, p) {
    }
  }

  lemma High2Range(mem: Memory, f: nat)
    requires f < PAIRS
    ensures High2(mem, f) < 16
  {
  }

  // ------------------------------------------------------------------ scanning

  /** Counters visible beyond the one at `pos` in one load: seven bytes, or fifteen nibbles
      and one less from an odd position. */
  function Width(pairs: bool, pos: nat): nat { if pairs then 15 - pos % 2 else 7 }

  /** Where a scan from `pos` stops: at the first non-zero counter it sees, or else at the
      last one. */
  function Jump(counts: seq<nat>, pos: nat, width: nat): (p: nat)
    ensures pos <= p <= pos + width
    ensures forall q :: pos <= q < p && q < |counts| ==> counts[q] == 0
    ensures p < pos + width && p < |counts| ==> counts[p] != 0
    decreases width
  {
    if width == 0 || (pos < |counts| && counts[pos] > 0) then pos else Jump(counts, pos + 1, width - 1)
  }

  lemma {:induction false} JumpUnique(counts: seq<nat>, pos: nat, width: nat, p: nat)
    requires pos <= p <= pos + width && p < |counts|
    requires forall q :: pos <= q < p ==> counts[q] == 0
    requires p < pos + width ==> counts[p] != 0
    ensures Jump(counts, pos, width) == p
  {
    var j := Jump(counts, pos, width);
    assert j >= p;
  }

  /** What reading the next counter from `pos` yields. */
  ghost predicate Finds(counts: seq<nat>, pairs: bool, pos: nat, pos': nat, count: nat) {
    var p := Jump(counts, pos, Width(pairs, pos));
    if p < |counts| then pos' == p && count == counts[p] else pos' >= |counts| && count == 0
  }

  lemma FindsHere(counts: seq<nat>, pairs: bool, pos: nat, pos': nat, count: nat)
    requires pos < |counts| && pos <= pos' <= pos + Width(pairs, pos)
    requires forall q :: pos <= q < pos' && q < |counts| ==> counts[q] == 0
    requires pos' < pos + Width(pairs, pos) && pos' < |counts| ==> counts[pos'] != 0
    requires count == if pos' < |counts| then counts[pos'] else 0
    ensures Finds(counts, pairs, pos, pos', count)
  {
    if pos' < |counts| {
      JumpUnique(counts, pos, Width(pairs, pos), pos');
    }
  }

  lemma Scan1(mem: Memory, pos1: nat)
    requires pos1 < CODES
    ensures var high := Load(mem[HIGH1 + pos1..HIGH1 + pos1 + 8]);
      var zero := if high != 0 then Ctz(high) / 8 else 7;
      && zero <= 7
      && (forall q :: pos1 <= q < pos1 + zero && q < CODES ==> High1(mem, q) == 0)
      && (pos1 + zero < CODES ==> Shr8(high, zero) % 256 == High1(mem, pos1 + zero))
      && (zero < 7 ==> Shr8(high, zero) % 256 != 0)
  {
    hide Load, Ctz, Shr8;
    var bs := mem[HIGH1 + pos1..HIGH1 + pos1 + 8];
    var high := Load(bs);
    var zero := if high != 0 then Ctz(high) / 8 else 7;
    if high != 0 {
      FirstByte(high);
      BeyondByte(bs);
    } else {
      forall j | 0 <= j <= 7 ensures Shr8(high, j) % 256 == 0 {
        ZeroShifts(j);
      }
    }
    forall q | pos1 <= q <= pos1 + zero && q < CODES ensures Shr8(high, q - pos1) % 256 == High1(mem, q) {
      LoadDigit(bs, q - pos1);
      assert bs[q - pos1] == mem[HIGH1 + q];
    }
    forall q | pos1 <= q < pos1 + zero && q < CODES ensures High1(mem, q) == 0 {
      assert Shr8(high, q - pos1) % 256 == High1(mem, q);
    }
  }

  lemma {:induction false} ShiftedOut(bs: seq<byte>, k: nat)
    requires |bs| <= k
    ensures Shr8(Load(bs), k) == 0
  {
    if bs == [] {
      ZeroShifts(k);
    } else {
      assert Load(bs) / 256 == Load(bs[1..]);
      ShiftedOut(bs[1..], k - 1);
    }
  }

  /** The first non-zero byte of a loaded word is one of its eight. */
  lemma BeyondByte(bs: seq<byte>)
    requires |bs| == 8 && Load(bs) != 0
    ensures Ctz(Load(bs)) / 8 <= 7
  {
    hide Load, Ctz;
    var k := Ctz(Load(bs)) / 8;
    FirstByte(Load(bs));
    if k >= 8 {
      ShiftedOut(bs, k);
    }
  }

  lemma {:induction false} NibblesOut(bs: seq<byte>, k: nat)
    requires 2 * |bs| <= k
    ensures Shr4(Load(bs), k) == 0
  {
    hide Load;
    if bs == [] {
      LoadNothing(bs);
      ZeroShifts(k);
    } else {
      LoadParts(bs);
      assert Shr4(Load(bs), k) == Shr4(Load(bs) / 16 / 16, k - 2);
      NibblesOut(bs[1..], k - 2);
    }
  }

  lemma LoadNothing(bs: seq<byte>)
    requires bs == []
    ensures Load(bs) == 0
  {
  }

  /** A word of sixteen nibbles without its first `odd` ones: the first non-zero nibble
      is one of those left. */
  lemma BeyondNibble(bs: seq<byte>, odd: nat, high: nat)
    requires |bs| == 8 && odd < 2 && high == (if odd == 1 then Load(bs) / 16 else Load(bs)) != 0
    ensures Ctz(high) / 4 <= 15 - odd
  {
    hide Load, Ctz;
    var k := Ctz(high) / 4;
    FirstNibble(high);
    if k > 15 - odd {
      NibblesOut(bs, k + odd);
      assert Shr4(high, k) == Shr4(Load(bs), k + odd);
    }
  }

  /** Nibble `j` of the shifted word is the high part of the `j`-th cell from `pos2` on. */
  lemma CellNibble(mem: Memory, pos1: nat, pos2: nat, j: nat)
    requires pos1 < CODES && pos2 + j < CODES && j + pos2 % 2 < 16
    ensures var o := HIGH2 + 256 * pos1 + pos2 / 2; var word := Load(mem[o..o + 8]);
      Shr4(if pos2 % 2 == 1 then word / 16 else word, j) % 16 == High2(mem, Cell(pos1, pos2 + j))
  {
    hide Load, Shr4, Nibble;
    var o, odd, f := HIGH2 + 256 * pos1 + pos2 / 2, pos2 % 2, CODES * pos1 + pos2 + j;
    var bs := mem[o..o + 8];
    LoadNibble(bs, j + odd);
    ShiftOnce(Load(bs), j);
    assert bs[(j + odd) / 2] == mem[HIGH2 + f / 2] && (j + odd) % 2 == f % 2;
  }

  lemma Scan2(mem: Memory, pos1: nat, pos2: nat)
    requires pos1 < CODES && pos2 < CODES
    ensures var odd := pos2 % 2;
      var o := HIGH2 + 256 * pos1 + pos2 / 2; var word := Load(mem[o..o + 8]);
      var high := if odd == 1 then word / 16 else word;
      var zero := if high != 0 then Ctz(high) / 4 else 15 - odd;
      && zero <= 15 - odd
      && (forall q :: pos2 <= q < pos2 + zero && q < CODES ==> High2(mem, Cell(pos1, q)) == 0)
      && (pos2 + zero < CODES ==> Shr4(high, zero) % 16 == High2(mem, Cell(pos1, pos2 + zero)))
      && (zero < 15 - odd ==> Shr4(high, zero) % 16 != 0)
  {
    hide Load, Ctz, Shr4, High2, Cell;
    var odd := pos2 % 2;
    var o := HIGH2 + 256 * pos1 + pos2 / 2;
    var bs := mem[o..o + 8];
    var high := if odd == 1 then Load(bs) / 16 else Load(bs);
    var zero := if high != 0 then Ctz(high) / 4 else 15 - odd;
    if high != 0 {
      FirstNibble(high);
      BeyondNibble(bs, odd, high);
    } else {
      forall j | 0 <= j <= 15 ensures Shr4(high, j) % 16 == 0 {
        ZeroShifts(j);
      }
    }
    forall q | pos2 <= q < pos2 + zero && q < CODES ensures High2(mem, Cell(pos1, q)) == 0 {
      CellNibble(mem, pos1, pos2, q - pos2);
    }
    if pos2 + zero < CODES {
      CellNibble(mem, pos1, pos2, zero);
    }
  }

  lemma ShiftOnce(n: nat, j: nat)
    ensures Shr4(n / 16, j) == Shr4(n, j + 1)
  {
  }

  /** The pair counters that start with `pos1`. */
  function Row(n2: seq<nat>, pos1: nat): (row: seq<nat>)
    requires |n2| == PAIRS && pos1 < CODES
    ensures |row| == CODES && forall q :: 0 <= q < CODES ==> row[q] == n2[Cell(pos1, q)]
  {
    seq(CODES, q requires 0 <= q < CODES => n2[Cell(pos1, q)])
  }

  /** The high part alone tells zero. */
  lemma ReadZero(high: nat, low: nat)
    ensures Read(high, low) == 0 <==> high == 0
  {
  }

  lemma Found1(mem: Memory, pos1: nat, zero: nat, count: nat)
    requires pos1 < CODES && zero <= 7
    requires forall q :: pos1 <= q < pos1 + zero && q < CODES ==> High1(mem, q) == 0
    requires pos1 + zero < CODES ==> count == Read(High1(mem, pos1 + zero), Low1(mem, pos1 + zero))
    requires pos1 + zero < CODES && zero < 7 ==> High1(mem, pos1 + zero) != 0
    requires pos1 + zero >= CODES ==> count == 0
    ensures Finds(Singles(mem), false, pos1, pos1 + zero, count)
  {
    hide Read, Jump;
    forall q | 0 <= q < CODES ensures Singles(mem)[q] == 0 <==> High1(mem, q) == 0 {
      ReadZero(High1(mem, q), Low1(mem, q));
    }
    FindsHere(Singles(mem), false, pos1, pos1 + zero, count);
  }

  lemma Found2(mem: Memory, pos1: nat, pos2: nat, zero: nat, count: nat)
    requires pos1 < CODES && pos2 < CODES && zero <= 15 - pos2 % 2
    requires forall q :: pos2 <= q < pos2 + zero && q < CODES ==> High2(mem, Cell(pos1, q)) == 0
    requires pos2 + zero < CODES ==>
      var f := Cell(pos1, pos2 + zero);
      count == Read(High2(mem, f), Low2(mem, f)) && (zero < 15 - pos2 % 2 ==> High2(mem, f) != 0)
    requires pos2 + zero >= CODES ==> count == 0
    ensures Finds(Row(Pairs(mem), pos1), true, pos2, pos2 + zero, count)
  {
    hide Read, Jump, High2, Low2, Cell;
    var row := Row(Pairs(mem), pos1);
    forall q | 0 <= q < CODES
      ensures row[q] == 0 <==> High2(mem, Cell(pos1, q)) == 0
      ensures row[q] == Read(High2(mem, Cell(pos1, q)), Low2(mem, Cell(pos1, q)))
    {
      ReadZero(High2(mem, Cell(pos1, q)), Low2(mem, Cell(pos1, q)));
    }
    FindsHere(row, true, pos2, pos2 + zero, count);
  }

  // -------------------------------------------------------------- the counters

  class Counters {
    const mem: array<byte>

    ghost predicate Valid()
      reads this
    {
      mem.Length == SIZE
    }

    constructor ()
      ensures Valid() && fresh(mem) && mem[..] == Cleared()
    {
      mem := new byte[SIZE](_ => 0);
    }

    method Reset()
      requires Valid()
      modifies mem
      ensures mem[..] == Cleared()
    {
      forall k | 0 <= k < SIZE {
        mem[k] := 0;
      }
    }

    method Inc1(pos1: nat)
      requires Valid() && pos1 < CODES
      modifies mem
      ensures mem[..] == AfterInc1(old(mem[..]), pos1)
      ensures var n := old(Singles(mem[..]))[pos1];
        var counts := old(Backed(High1(mem[..], pos1), Low1(mem[..], pos1))) && n < LIMIT1;
        && Singles(mem[..]) == old(Singles(mem[..]))[pos1 := if counts then n + 1 else 0]
        && Pairs(mem[..]) == old(Pairs(mem[..]))
        && (counts && old(AllBacked(mem[..])) ==> AllBacked(mem[..]))
    {
      hide Singles, Pairs, AllBacked, Plus;
      ghost var before: Memory := mem[..];
      Inc1Reads(before, pos1);
      var low := mem[LOW1 + pos1];
      mem[LOW1 + pos1] := Plus(low, 1);
      if low == 0 {
        mem[HIGH1 + pos1] := Plus(mem[HIGH1 + pos1], 1);
      }
      assert mem[..] == AfterInc1(before, pos1);
    }

    method Inc2(pos1: nat, pos2: nat)
      requires Valid() && pos1 < CODES && pos2 < CODES
      modifies mem
      ensures mem[..] == AfterInc2(old(mem[..]), Cell(pos1, pos2))
      ensures var f := Cell(pos1, pos2);
        var counts := old(Backed(High2(mem[..], f), Low2(mem[..], f)) && Pairs(mem[..])[f] < LIMIT2);
        && Counted2(old(Pairs(mem[..])), Pairs(mem[..]), f, counts)
        && Singles(mem[..]) == old(Singles(mem[..]))
        && (counts && old(AllBacked(mem[..])) ==> AllBacked(mem[..]))
    {
      hide Singles, Pairs, AllBacked, Plus, Counted2, High2, Low2;
      ghost var before: Memory, f := mem[..], Cell(pos1, pos2);
      Inc2Reads(before, f);
      var h := HIGH2 + 256 * pos1 + pos2 / 2;
      var low := mem[LOW2 + CODES * pos1 + pos2];
      mem[LOW2 + CODES * pos1 + pos2] := Plus(low, 1);
      if low == 0 {
        mem[h] := Plus(mem[h], if pos2 % 2 == 0 then 1 else 16);
      }
      assert mem[..] == AfterInc2(before, f);
    }

    /** Sets a counter without the early increment, so that it does not always read back
        as the value: exactly those values do whose low byte is zero. */
    method Set1(pos1: nat, val: nat)
      requires Valid() && pos1 < CODES && val < 65536
      modifies mem
      ensures Singles(mem[..]) == old(Singles(mem[..]))[pos1 := Read(val / 256, val % 256)]
      ensures Pairs(mem[..]) == old(Pairs(mem[..]))
      ensures Singles(mem[..])[pos1] == val <==> val % 256 == 0
    {
      ghost var before: Memory := mem[..];
      SetReads(before, pos1, val);
      mem[LOW1 + pos1] := val % 256;
      mem[HIGH1 + pos1] := val / 256;
      assert mem[..] == before[LOW1 + pos1 := val % 256][HIGH1 + pos1 := val / 256];
    }

    /** Reads the counter at `pos1`, jumping over zeros. */
    method GetNext1(pos1: nat) returns (count: nat, pos1': nat)
      requires Valid() && pos1 < CODES
      ensures Finds(Singles(mem[..]), false, pos1, pos1', count)
    {
      hide Load, Ctz, Shr8, Finds, Singles;
      Scan1(mem[..], pos1);
      var bs := mem[HIGH1 + pos1..HIGH1 + pos1 + 8];
      assert bs == mem[..][HIGH1 + pos1..HIGH1 + pos1 + 8];
      var high := Load(bs);
      var zero := if high != 0 then Ctz(high) / 8 else 7;
      high := Shr8(high, zero) % 256;
      pos1' := pos1 + zero;
      if pos1' >= CODES || high == 0 {
        Found1(mem[..], pos1, zero, 0);
        return 0, pos1';
      }
      var low := mem[LOW1 + pos1'];
      if low > 0 {
        high := high - 1;
      }
      count := high * 256 + low;
      Found1(mem[..], pos1, zero, count);
    }

    /** Reads the pair counter at `pos2` of row `pos1`, jumping over zeros. */
    method GetNext2(pos1: nat, pos2: nat) returns (count: nat, pos2': nat)
      requires Valid() && pos1 < CODES && pos2 < CODES
      ensures Finds(Row(Pairs(mem[..]), pos1), true, pos2, pos2', count)
    {
      hide Load, Ctz, Shr4, Finds, Pairs, High2, Row;
      Scan2(mem[..], pos1, pos2);
      var o := HIGH2 + 256 * pos1 + pos2 / 2;
      var bs := mem[o..o + 8];
      assert bs == mem[..][o..o + 8];
      var high := if pos2 % 2 == 1 then Load(bs) / 16 else Load(bs);
      var zero := if high != 0 then Ctz(high) / 4 else 15 - pos2 % 2;
      high := Shr4(high, zero) % 16;
      pos2' := pos2 + zero;
      if pos2' >= CODES || high == 0 {
        Found2(mem[..], pos1, pos2, zero, 0);
        return 0, pos2';
      }
      var low := mem[LOW2 + CODES * pos1 + pos2'];
      if low > 0 {
        high := high - 1;
      }
      count := high * 256 + low;
      Found2(mem[..], pos1, pos2, zero, count);
    }

    /** Saves the single counters. */
    method Backup1(buf: array<byte>)
      requires Valid() && buf.Length == 2 * CODES && buf != mem
      modifies buf
      ensures buf[..] == mem[..2 * CODES]
    {
      for k := 0 to 2 * CODES
        invariant buf[..k] == mem[..k]
      {
        buf[k] := mem[k];
      }
    }

    /** Puts them back. */
    method Restore1(buf: array<byte>)
      requires Valid() && buf.Length == 2 * CODES && buf != mem
      modifies mem
      ensures mem[..] == buf[..] + old(mem[2 * CODES..])
    {
      for k := 0 to 2 * CODES
        invariant mem[..k] == buf[..k] && mem[2 * CODES..] == old(mem[2 * CODES..])
      {
        mem[k] := buf[k];
      }
    }
  }

  lemma SetReads(mem: Memory, p: nat, val: nat)
    requires p < CODES && val < 65536
    ensures var mem': Memory := mem[LOW1 + p := val % 256][HIGH1 + p := val / 256];
      && Singles(mem') == Singles(mem)[p := Read(val / 256, val % 256)]
      && Pairs(mem') == Pairs(mem)
      && (Read(val / 256, val % 256) == val <==> val % 256 == 0)
  {
    hide Nibble;
    var mem': Memory := mem[LOW1 + p := val % 256][HIGH1 + p := val / 256];
    forall f | 0 <= f < PAIRS ensures High2(mem', f) == High2(mem, f) && Low2(mem', f) == Low2(mem, f) {
    }
  }

  /** The single counters are the first two columns. */
  lemma RestoredReads(mem: Memory, other: Memory)
    ensures var mem' := mem[..2 * CODES] + other[2 * CODES..];
      |mem'| == SIZE && Singles(mem') == Singles(mem) && Pairs(mem') == Pairs(other)
  {
    hide Nibble;
    var mem': Memory := mem[..2 * CODES] + other[2 * CODES..];
    forall f | 0 <= f < PAIRS ensures High2(mem', f) == High2(other, f) && Low2(mem', f) == Low2(other, f) {
    }
    forall p | 0 <= p < CODES ensures High1(mem', p) == High1(mem, p) && Low1(mem', p) == Low1(mem, p) {
    }
  }

  // -------------------------------------------------------------- scanning loops

  /** Positions and counts, as a scanning loop reports them. */
  type Visits = seq<(nat, nat)>

  /** The visit of one counter. */
  function Here(counts: seq<nat>, p: nat): (v: Visits) {
    if p < |counts| && counts[p] > 0 then [(p, counts[p])] else []
  }

  /** What the loop over `pos < limit` visits.  Its last jump may land beyond the limit. */
  function Scanned(counts: seq<nat>, pairs: bool, pos: nat, limit: nat): (v: Visits)
    decreases if pos < limit then limit - pos else 0
  {
    if pos >= limit then []
    else
      var p := Jump(counts, pos, Width(pairs, pos));
      Here(counts, p) + Scanned(counts, pairs, p + 1, limit)
  }

  /** The non-zero counters below `n`, with their values, in order. */
  function NonZero(counts: seq<nat>, n: nat): Visits
    requires n <= |counts|
  {
    if n == 0 then []
    else NonZero(counts, n - 1) + Here(counts, n - 1)
  }

  lemma {:induction false} NonZeroSkips(counts: seq<nat>, a: nat, b: nat)
    requires a <= b <= |counts| && forall q :: a <= q < b ==> counts[q] == 0
    ensures NonZero(counts, b) == NonZero(counts, a)
    decreases b
  {
    if a < b {
      NonZeroSkips(counts, a, b - 1);
    }
  }

  /** Codes from `limit` on are not in use. */
  predicate EmptyFrom(counts: seq<nat>, limit: nat) {
    forall q :: limit <= q < |counts| ==> counts[q] == 0
  }

  lemma NonZeroNext(counts: seq<nat>, n: nat)
    requires n < |counts|
    ensures NonZero(counts, n + 1) == NonZero(counts, n) + Here(counts, n)
  {
  }

  lemma {:induction false} ScannedFrom(counts: seq<nat>, pairs: bool, pos: nat, limit: nat)
    requires pos <= limit <= |counts| && EmptyFrom(counts, limit)
    ensures NonZero(counts, pos) + Scanned(counts, pairs, pos, limit) == NonZero(counts, limit)
    decreases limit - pos
  {
    hide Jump, Width, NonZero;
    if pos < limit {
      var p := Jump(counts, pos, Width(pairs, pos));
      NonZeroSkips(counts, pos, Min(p, limit));
      if p < limit {
        NonZeroNext(counts, p);
        ScannedFrom(counts, pairs, p + 1, limit);
        var rest := Scanned(counts, pairs, p + 1, limit);
        assert (NonZero(counts, pos) + Here(counts, p)) + rest == NonZero(counts, pos) + (Here(counts, p) + rest);
      }
    }
  }

  /** If no counter from the limit on is in use, the loop visits exactly the non-zero
      counters, in order and with their values. */
  lemma ScannedExact(counts: seq<nat>, pairs: bool, limit: nat)
    requires limit <= |counts| && EmptyFrom(counts, limit)
    ensures Scanned(counts, pairs, 0, limit) == NonZero(counts, limit)
  {
    ScannedFrom(counts, pairs, 0, limit);
  }

  lemma ScannedStep(counts: seq<nat>, pairs: bool, pos: nat, limit: nat)
    requires pos < limit
    ensures var p := Jump(counts, pos, Width(pairs, pos));
      Scanned(counts, pairs, pos, limit) == Here(counts, p) + Scanned(counts, pairs, p + 1, limit)
  {
  }

  lemma {:induction false} ScannedPositions(counts: seq<nat>, pairs: bool, pos: nat, limit: nat, k: nat)
    requires k < |Scanned(counts, pairs, pos, limit)|
    ensures var (p, n) := Scanned(counts, pairs, pos, limit)[k]; p < |counts| && n == counts[p] > 0
    decreases if pos < limit then limit - pos else 0
  {
    hide Jump, Width, Scanned;
    if pos >= limit {
      ScannedEnds(counts, pairs, pos, limit);
    } else {
      var p := Jump(counts, pos, Width(pairs, pos));
      ScannedStep(counts, pairs, pos, limit);
      var here := |Here(counts, p)|;
      if k >= here {
        ScannedPositions(counts, pairs, p + 1, limit, k - here);
      }
    }
  }

  lemma {:induction false} ScannedVisits(counts: seq<nat>, pairs: bool, pos: nat, limit: nat, p: nat) returns (k: nat)
    requires pos <= p < limit && p < |counts| && counts[p] > 0
    ensures k < |Scanned(counts, pairs, pos, limit)| && Scanned(counts, pairs, pos, limit)[k] == (p, counts[p])
    decreases limit - pos
  {
    hide Scanned, Width;
    var q := Jump(counts, pos, Width(pairs, pos));
    ScannedStep(counts, pairs, pos, limit);
    if q == p {
      k := 0;
    } else {
      k := ScannedVisits(counts, pairs, q + 1, limit, p);
      k := k + |Here(counts, q)|;
    }
  }

  /** A scan goes upwards. */
  lemma {:induction false} ScannedUpwards(counts: seq<nat>, pairs: bool, pos: nat, limit: nat, k: nat)
    requires k < |Scanned(counts, pairs, pos, limit)|
    ensures var v := Scanned(counts, pairs, pos, limit);
      v[k].0 >= pos && forall m :: 0 <= m < k ==> v[m].0 < v[k].0
    decreases if pos < limit then limit - pos else 0
  {
    hide Jump, Width, Scanned;
    if pos >= limit {
      ScannedEnds(counts, pairs, pos, limit);
    } else {
      var p := Jump(counts, pos, Width(pairs, pos));
      ScannedStep(counts, pairs, pos, limit);
      JumpForward(counts, pos, Width(pairs, pos));
      var here := |Here(counts, p)|;
      if k >= here {
        ScannedUpwards(counts, pairs, p + 1, limit, k - here);
      }
    }
  }

  lemma JumpForward(counts: seq<nat>, pos: nat, width: nat)
    ensures Jump(counts, pos, width) >= pos
  {
  }

  /** Some visit is at position `i`. */
  predicate In(v: Visits, i: nat) { exists k :: 0 <= k < |v| && v[k].0 == i }

  /** A counter is reported if it is not zero and below the limit, or where the last jump
      lands. */
  predicate Reported(counts: seq<nat>, pairs: bool, limit: nat, i: nat) {
    i < |counts| && counts[i] > 0 && (i < limit || In(Scanned(counts, pairs, 0, limit), i))
  }

  lemma ReportedIff(counts: seq<nat>, pairs: bool, limit: nat, i: nat)
    ensures Reported(counts, pairs, limit, i) <==> In(Scanned(counts, pairs, 0, limit), i)
  {
    hide Scanned;
    var v := Scanned(counts, pairs, 0, limit);
    if In(v, i) {
      var k :| 0 <= k < |v| && v[k].0 == i;
      ScannedPositions(counts, pairs, 0, limit, k);
    }
    if Reported(counts, pairs, limit, i) && i < limit {
      var k := ScannedVisits(counts, pairs, 0, limit, i);
      assert v[k].0 == i;
    }
  }

  lemma VisitStep(counts: seq<nat>, pairs: bool, limit: nat, visited: Visits, pos: nat, pos': nat, count: nat)
    requires limit <= |counts| && pos < limit && Finds(counts, pairs, pos, pos', count)
    requires visited + Scanned(counts, pairs, pos, limit) == Scanned(counts, pairs, 0, limit)
    ensures (visited + (if count != 0 then [(pos', count)] else [])) + Scanned(counts, pairs, pos' + 1, limit)
              == Scanned(counts, pairs, 0, limit)
    ensures pos' >= pos
  {
    hide Jump, Width, Scanned;
    var p := Jump(counts, pos, Width(pairs, pos));
    ScannedStep(counts, pairs, pos, limit);
    if p >= |counts| {
      ScannedEnds(counts, pairs, p + 1, limit);
      ScannedEnds(counts, pairs, pos' + 1, limit);
    }
    var here: Visits, rest := if count != 0 then [(pos', count)] else [], Scanned(counts, pairs, pos' + 1, limit);
    assert Here(counts, p) == here;
    assert (visited + here) + rest == visited + (here + rest);
  }

  /** The loop over the single counters. */
  method Visit1(c: Counters, limit: nat) returns (visited: Visits)
    requires c.Valid() && limit <= CODES
    ensures visited == Scanned(Singles(c.mem[..]), false, 0, limit)
  {
    hide Singles, Finds, Scanned;
    visited := [];
    var pos1 := 0;
    ghost var counts := Singles(c.mem[..]);
    while pos1 < limit
      invariant visited + Scanned(counts, false, pos1, limit) == Scanned(counts, false, 0, limit)
    {
      var cnt, pos1' := c.GetNext1(pos1);
      VisitStep(counts, false, limit, visited, pos1, pos1', cnt);
      if cnt != 0 {
        visited := visited + [(pos1', cnt)];
      }
      pos1 := pos1' + 1;
    }
    ScannedEnds(counts, false, pos1, limit);
  }

  lemma ScannedEnds(counts: seq<nat>, pairs: bool, pos: nat, limit: nat)
    requires pos >= limit
    ensures Scanned(counts, pairs, pos, limit) == []
  {
  }

  /** The loop over one row of pair counters. */
  method Visit2(c: Counters, pos1: nat, limit: nat) returns (visited: Visits)
    requires c.Valid() && pos1 < CODES && limit <= CODES
    ensures visited == Scanned(Row(Pairs(c.mem[..]), pos1), true, 0, limit)
  {
    hide Pairs, Finds, Scanned, Row;
    visited := [];
    var pos2 := 0;
    ghost var counts := Row(Pairs(c.mem[..]), pos1);
    while pos2 < limit
      invariant visited + Scanned(counts, true, pos2, limit) == Scanned(counts, true, 0, limit)
    {
      var cnt, pos2' := c.GetNext2(pos1, pos2);
      VisitStep(counts, true, limit, visited, pos2, pos2', cnt);
      if cnt != 0 {
        visited := visited + [(pos2', cnt)];
      }
      pos2 := pos2' + 1;
    }
    ScannedEnds(counts, true, pos2, limit);
  }

  // ------------------------------------------------------------------------ runs

  datatype Event = One(pos1: nat) | Two(pos1: nat, pos2: nat)

  predicate InRange(e: Event) {
    e.pos1 < CODES && (e.Two? ==> e.pos2 < CODES)
  }

  predicate AllInRange(events: seq<Event>) {
    forall i :: 0 <= i < |events| ==> InRange(events[i])
  }

  function AfterEvent(mem: Memory, e: Event): Memory
    requires InRange(e)
  {
    if e.One? then AfterInc1(mem, e.pos1) else AfterInc2(mem, Cell(e.pos1, e.pos2))
  }

  /** Memory after a run of increments. */
  function AfterEvents(mem: Memory, events: seq<Event>): Memory
    requires AllInRange(events)
  {
    if events == [] then mem else AfterEvent(AfterEvents(mem, events[..|events| - 1]), events[|events| - 1])
  }

  lemma AfterEventsNext(mem: Memory, events: seq<Event>, e: Event)
    requires AllInRange(events) && InRange(e)
    ensures AllInRange(events + [e])
    ensures AfterEvents(mem, events + [e]) == AfterEvent(AfterEvents(mem, events), e)
  {
    hide AfterEvent;
    assert (events + [e])[..|events|] == events;
  }

  /** Makes one count, as part of a run. */
  method Count(c: Counters, e: Event, ghost mem0: Memory, ghost events: seq<Event>)
    requires c.Valid() && InRange(e) && AllInRange(events) && c.mem[..] == AfterEvents(mem0, events)
    modifies c.mem
    ensures AllInRange(events + [e]) && c.mem[..] == AfterEvents(mem0, events + [e])
  {
    hide AfterEvents, AfterInc1, AfterInc2, Singles, Pairs, AllBacked, Counted2;
    AfterEventsNext(mem0, events, e);
    if e.One? {
      c.Inc1(e.pos1);
    } else {
      c.Inc2(e.pos1, e.pos2);
    }
  }

  /** How often an event occurs: plain counting. */
  function Tally(events: seq<Event>, e: Event): nat {
    if events == [] then 0 else Tally(events[..|events| - 1], e) + (if events[|events| - 1] == e then 1 else 0)
  }

  /** No counter is counted beyond its limit. */
  predicate WithinLimits(events: seq<Event>) {
    forall i :: 0 <= i < |events| ==> Tally(events, events[i]) <= if events[i].One? then LIMIT1 else LIMIT2
  }

  lemma {:induction false} TallyMonotone(events: seq<Event>, e: Event, n: nat)
    requires n <= |events|
    ensures Tally(events[..n], e) <= Tally(events, e)
    decreases |events|
  {
    if n < |events| {
      var init := events[..|events| - 1];
      assert init[..n] == events[..n];
      TallyMonotone(init, e, n);
    } else {
      assert events[..n] == events;
    }
  }

  /** The counters hold the plain counts of the events. */
  ghost predicate Tallied(mem: Memory, events: seq<Event>) {
    && AllBacked(mem)
    && (forall p :: 0 <= p < CODES ==> Singles(mem)[p] == Tally(events, One(p)))
    && (forall p, q :: 0 <= p < CODES && 0 <= q < CODES ==> Pairs(mem)[Cell(p, q)] == Tally(events, Two(p, q)))
  }

  lemma TalliedNothing()
    ensures Tallied(Cleared(), [])
  {
    var mem: Memory := Cleared();
    forall f | 0 <= f < PAIRS ensures High2(mem, f) == 0 && Low2(mem, f) == 0 {
    }
  }

  lemma TallyAppend(events: seq<Event>, x: Event, e: Event)
    ensures Tally(events + [x], e) == Tally(events, e) + (if x == e then 1 else 0)
  {
    assert (events + [x])[..|events|] == events;
  }

  lemma TalliedOne(mem: Memory, events: seq<Event>, p: nat)
    requires Tallied(mem, events) && p < CODES && Tally(events, One(p)) < LIMIT1
    ensures Tallied(AfterInc1(mem, p), events + [One(p)])
  {
    hide AfterInc1, Singles, Pairs, Tally, Cell;
    Inc1Reads(mem, p);
    forall e ensures Tally(events + [One(p)], e) == Tally(events, e) + (if e == One(p) then 1 else 0) {
      TallyAppend(events, One(p), e);
    }
  }

  /** Different pairs are different cells. */
  lemma CellsDiffer(p: nat, q: nat, p': nat, q': nat)
    requires p < CODES && q < CODES && p' < CODES && q' < CODES
    ensures Cell(p, q) == Cell(p', q') <==> p == p' && q == q'
  {
  }

  /** Within the limit only the counted cell changes. */
  lemma Inc2Exact(mem: Memory, f: nat)
    requires AllBacked(mem) && f < PAIRS && Pairs(mem)[f] < LIMIT2
    ensures var mem' := AfterInc2(mem, f);
      Pairs(mem') == Pairs(mem)[f := Pairs(mem)[f] + 1] && Singles(mem') == Singles(mem) && AllBacked(mem')
  {
    hide AfterInc2, Singles, Pairs, AllBacked;
    BackedAt(mem, f);
    Inc2Reads(mem, f);
  }

  lemma TalliedTwo(mem: Memory, events: seq<Event>, p: nat, q: nat)
    requires Tallied(mem, events) && p < CODES && q < CODES && Tally(events, Two(p, q)) < LIMIT2
    ensures Tallied(AfterInc2(mem, Cell(p, q)), events + [Two(p, q)])
  {
    hide AfterInc2, Singles, Pairs, AllBacked, Tally, Cell;
    Inc2Exact(mem, Cell(p, q));
    forall e ensures Tally(events + [Two(p, q)], e) == Tally(events, e) + (if e == Two(p, q) then 1 else 0) {
      TallyAppend(events, Two(p, q), e);
    }
    forall p', q' | 0 <= p' < CODES && 0 <= q' < CODES ensures Cell(p, q) == Cell(p', q') <==> p == p' && q == q' {
      CellsDiffer(p, q, p', q');
    }
  }

  lemma BackedAt(mem: Memory, f: nat)
    requires AllBacked(mem) && f < PAIRS
    ensures Backed(High2(mem, f), Low2(mem, f))
  {
  }

  /** Any interleaving of the two increments, within the limits, is plain counting. */
  lemma {:induction false} EventsTally(events: seq<Event>)
    requires AllInRange(events) && WithinLimits(events)
    ensures Tallied(AfterEvents(Cleared(), events), events)
    decreases |events|
  {
    hide Tallied, AfterInc1, AfterInc2;
    if events == [] {
      TalliedNothing();
    } else {
      var init, e := events[..|events| - 1], events[|events| - 1];
      WithinLimitsBefore(events);
      EventsTally(init);
      var mem := AfterEvents(Cleared(), init);
      assert events == init + [e];
      TallyAppend(init, e, e);
      if e.One? {
        TalliedOne(mem, init, e.pos1);
      } else {
        TalliedTwo(mem, init, e.pos1, e.pos2);
      }
    }
  }

  lemma WithinLimitsBefore(events: seq<Event>)
    requires events != [] && WithinLimits(events)
    ensures WithinLimits(events[..|events| - 1])
    ensures var e := events[|events| - 1]; Tally(events, e) <= if e.One? then LIMIT1 else LIMIT2
  {
    hide Tally;
    var init := events[..|events| - 1];
    forall i | 0 <= i < |init| ensures Tally(init, init[i]) <= if init[i].One? then LIMIT1 else LIMIT2 {
      TallyMonotone(events, events[i], |events| - 1);
    }
  }

  // --------------------------------------------------------------- conservation

  /** How many single counts, and how many pair counts, a run makes. */
  function Ones(events: seq<Event>): nat {
    if events == [] then 0 else Ones(events[..|events| - 1]) + (if events[|events| - 1].One? then 1 else 0)
  }

  function Twos(events: seq<Event>): nat {
    if events == [] then 0 else Twos(events[..|events| - 1]) + (if events[|events| - 1].Two? then 1 else 0)
  }

  lemma {:induction false} CountsAppend(a: seq<Event>, b: seq<Event>)
    ensures Ones(a + b) == Ones(a) + Ones(b) && Twos(a + b) == Twos(a) + Twos(b)
    decreases |b|
  {
    if b == [] {
      assert a + b == a;
    } else {
      CountsAppend(a, b[..|b| - 1]);
      assert (a + b)[..|a + b| - 1] == a + b[..|b| - 1];
    }
  }

  lemma Counted2Sum(before: seq<nat>, after: seq<nat>, f: nat, counts: bool)
    requires Counted2(before, after, f, counts)
    ensures Sum(after) <= Sum(before) + 1
  {
    hide Sum;
    var g := Neighbour(f);
    var mid := before[f := after[f]];
    assert after == mid[g := after[g]];
    SumUpdate(before, f, after[f]);
    SumUpdate(mid, g, after[g]);
  }

  /** No increment, overrun or not, adds more than one to all counters together: what is
      read back never exceeds what was counted. */
  lemma {:induction false} ReadsAtMostCounted(events: seq<Event>)
    requires AllInRange(events)
    ensures var mem := AfterEvents(Cleared(), events);
      Sum(Singles(mem)) <= Ones(events) && Sum(Pairs(mem)) <= Twos(events)
    decreases |events|
  {
    hide Singles, Pairs, AfterInc1, AfterInc2, Sum, AllBacked, Counted2;
    if events == [] {
      NothingRead();
    } else {
      var init, e := events[..|events| - 1], events[|events| - 1];
      ReadsAtMostCounted(init);
      var mem := AfterEvents(Cleared(), init);
      if e.One? {
        Inc1Reads(mem, e.pos1);
        var n := Singles(mem)[e.pos1];
        SumUpdate(Singles(mem), e.pos1, Singles(AfterInc1(mem, e.pos1))[e.pos1]);
      } else {
        var f := Cell(e.pos1, e.pos2);
        Inc2Reads(mem, f);
        var counts := Backed(High2(mem, f), Low2(mem, f)) && Pairs(mem)[f] < LIMIT2;
        Counted2Sum(Pairs(mem), Pairs(AfterInc2(mem, f)), f, counts);
      }
    }
  }

  lemma NothingRead()
    ensures Sum(Singles(Cleared())) == 0 && Sum(Pairs(Cleared())) == 0
  {
    var mem: Memory := Cleared();
    forall f | 0 <= f < PAIRS ensures High2(mem, f) == 0 {
    }
    SumZeros(Singles(mem));
    SumZeros(Pairs(mem));
  }
}
