/** Bit fields over chunked storage (`bit_view`): a field of any offset and width is read
    and written through one or two aligned chunks of the access type.  A machine word is
    the sequence of its bits, lowest first. */
module BitView {

  import opened Bytes

  type Word = seq<bool>

  // ------------------------------------------------------- numbers and bits

  function Pow2(k: nat): (p: nat)
    ensures p > 0
  {
    if k == 0 then 1 else 2 * Pow2(k - 1)
  }

  function ToNat(w: Word): nat {
    if w == [] then 0 else (if w[0] then 1 else 0) + 2 * ToNat(w[1..])
  }

  /** The low `k` bits of a number. */
  function FromNat(n: nat, k: nat): (w: Word)
    ensures |w| == k
  {
    if k == 0 then [] else [n % 2 == 1] + FromNat(n / 2, k - 1)
  }

  /** Two's complement value. */
  function ToInt(w: Word): int
    requires w != []
  {
    ToNat(w) - (if w[|w| - 1] then Pow2(|w|) else 0)
  }

  lemma {:induction false} ToNatBound(w: Word)
    ensures ToNat(w) < Pow2(|w|)
  {
    if w != [] {
      ToNatBound(w[1..]);
    }
  }

  lemma {:induction false} FromToNat(w: Word)
    ensures FromNat(ToNat(w), |w|) == w
  {
    if w != [] {
      FromToNat(w[1..]);
      assert w == [w[0]] + w[1..];
      assert ToNat(w) / 2 == ToNat(w[1..]);
    }
  }

  lemma ModHalf(n: nat, p: nat)
    requires p > 0
    ensures n % (2 * p) == n % 2 + 2 * (n / 2 % p)
  {
    var q, m := n / 2 / p, n / 2 % p;
    assert n / 2 == q * p + m;
    assert n == 2 * (q * p + m) + n % 2;
    assert n == q * (2 * p) + (2 * m + n % 2);
    DivModUnique(n, 2 * p, q, 2 * m + n % 2);
  }

  lemma MulPositive(d: int, p: nat)
    requires p > 0
    ensures d >= 1 ==> d * p >= p
    ensures d <= -1 ==> d * p + p <= 0
  {
    if d >= 1 {
      assert d * p == (d - 1) * p + p && (d - 1) * p >= 0;
    } else if d <= -1 {
      assert (-d) * p == (-d - 1) * p + p && (-d - 1) * p >= 0;
    }
  }

  lemma DivModUnique(n: int, p: nat, q: int, m: int)
    requires p > 0 && n == q * p + m && 0 <= m < p
    ensures n / p == q && n % p == m
  {
    var d := n / p - q;
    MulPositive(d, p);
    assert n == (n / p) * p + n % p;
    assert d * p == (n / p) * p - q * p;
  }

  /** Keeping `k` bits is reduction modulo 2^k. */
  lemma {:induction false} ToFromNat(n: nat, k: nat)
    ensures ToNat(FromNat(n, k)) == n % Pow2(k)
  {
    if k > 0 {
      ToFromNat(n / 2, k - 1);
      var w := FromNat(n, k);
      assert w[1..] == FromNat(n / 2, k - 1);
      ModHalf(n, Pow2(k - 1));
    }
  }

  lemma {:induction false} FromNatPrefix(n: nat, k: nat, m: nat)
    requires k <= m
    ensures FromNat(n, m)[..k] == FromNat(n, k)
  {
    if k > 0 {
      FromNatPrefix(n / 2, k - 1, m - 1);
      assert FromNat(n, m)[..k] == [n % 2 == 1] + FromNat(n / 2, m - 1)[..k - 1];
    }
  }

  lemma Distribute(x: nat, m: nat, p: nat, n: nat)
    ensures x + 2 * (m + p * n) == (x + 2 * m) + (2 * p) * n
  {
  }

  lemma {:induction false} ToNatAppend(a: Word, b: Word)
    ensures ToNat(a + b) == ToNat(a) + Pow2(|a|) * ToNat(b)
  {
    hide Pow2;
    Pow2Steps(|a|);
    if a == [] {
      assert a + b == b;
    } else {
      ToNatAppend(a[1..], b);
      assert (a + b)[1..] == a[1..] + b;
      Distribute(if a[0] then 1 else 0, ToNat(a[1..]), Pow2(|a| - 1), ToNat(b));
    }
  }

  lemma Pow2Steps(k: nat)
    ensures Pow2(0) == 1 && (k > 0 ==> Pow2(k) == 2 * Pow2(k - 1))
  {
  }

  function Repeat(bit: bool, k: nat): (w: Word)
    ensures |w| == k && forall i :: 0 <= i < k ==> w[i] == bit
  {
    seq(k, _ => bit)
  }

  lemma {:induction false} ToNatRepeat(bit: bool, k: nat)
    ensures ToNat(Repeat(bit, k)) == if bit then Pow2(k) - 1 else 0
  {
    if k > 0 {
      ToNatRepeat(bit, k - 1);
      assert Repeat(bit, k)[1..] == Repeat(bit, k - 1);
    }
  }

  lemma {:induction false} Pow2Add(a: nat, b: nat)
    ensures Pow2(a + b) == Pow2(a) * Pow2(b)
  {
    if a > 0 {
      Pow2Add(a - 1, b);
    }
  }

  /** Copies of the sign bit do not change the value. */
  lemma SignBitsKeepValue(w: Word, k: nat)
    requires w != []
    ensures ToInt(w + Repeat(w[|w| - 1], k)) == ToInt(w)
  {
    var s := w[|w| - 1];
    ToNatAppend(w, Repeat(s, k));
    ToNatRepeat(s, k);
    Pow2Add(|w|, k);
    assert (w + Repeat(s, k))[|w| + k - 1] == s;
    if s {
      assert Pow2(|w|) * (Pow2(k) - 1) == Pow2(|w|) * Pow2(k) - Pow2(|w|);
    }
  }

  // --------------------------------------------------------- word operations

  function Shr(w: Word, k: nat): (r: Word)
    ensures |r| == |w| && forall i :: 0 <= i < |w| ==> r[i] == (i + k < |w| && w[i + k])
  {
    seq(|w|, i requires 0 <= i < |w| => i + k < |w| && w[i + k])
  }

  function Shl(w: Word, k: nat): (r: Word)
    ensures |r| == |w| && forall i :: 0 <= i < |w| ==> r[i] == (i >= k && w[i - k])
  {
    seq(|w|, i requires 0 <= i < |w| => i >= k && w[i - k])
  }

  /** Arithmetic right shift. */
  function Sar(w: Word, k: nat): (r: Word)
    ensures |r| == |w| && forall i :: 0 <= i < |w| ==> r[i] == (if i + k < |w| then w[i + k] else w[|w| - 1])
  {
    seq(|w|, i requires 0 <= i < |w| => if i + k < |w| then w[i + k] else w[|w| - 1])
  }

  function And(a: Word, b: Word): (r: Word)
    requires |a| == |b|
    ensures |r| == |a| && forall i :: 0 <= i < |a| ==> r[i] == (a[i] && b[i])
  {
    seq(|a|, i requires 0 <= i < |a| => a[i] && b[i])
  }

  function Or(a: Word, b: Word): (r: Word)
    requires |a| == |b|
    ensures |r| == |a| && forall i :: 0 <= i < |a| ==> r[i] == (a[i] || b[i])
  {
    seq(|a|, i requires 0 <= i < |a| => a[i] || b[i])
  }

  function Not(a: Word): (r: Word)
    ensures |r| == |a| && forall i :: 0 <= i < |a| ==> r[i] == !a[i]
  {
    seq(|a|, i requires 0 <= i < |a| => !a[i])
  }

  /** `bit_mask`: the low `width` of `bits` bits set. */
  function Mask(bits: nat, width: nat): (r: Word)
    ensures |r| == bits && forall i :: 0 <= i < bits ==> r[i] == (i < width)
  {
    seq(bits, i requires 0 <= i < bits => i < width)
  }

  function One(bits: nat): (r: Word)
    ensures |r| == bits && forall i :: 0 <= i < bits ==> r[i] == (i == 0)
  {
    seq(bits, i requires 0 <= i < bits => i == 0)
  }

  /** `sign_extend`. */
  function SignExtend(v: Word, width: nat): (r: int)
    requires 0 < width <= |v|
  {
    ToInt(Sar(Shl(v, |v| - width), |v| - width))
  }

  /** Shifting up and arithmetically down again reads the low bits as a signed number. */
  lemma SignExtendValue(v: Word, width: nat)
    requires 0 < width <= |v|
    ensures SignExtend(v, width) == ToInt(v[..width])
  {
    var k, low := |v| - width, v[..width];
    assert Sar(Shl(v, k), k) == low + Repeat(low[width - 1], k);
    SignBitsKeepValue(low, k);
  }

  // ---------------------------------------------------------------- storage

  /** The storage as one little-endian sequence of bits. */
  function BitsOf(s: seq<byte>): (w: Word)
    ensures |w| == 8 * |s|
  {
    if s == [] then [] else FromNat(s[0], 8) + BitsOf(s[1..])
  }

  lemma WordsAssociate(x: Word, y: Word, z: Word)
    ensures x + (y + z) == (x + y) + z
  {
  }

  lemma {:induction false} BitsAppend(a: seq<byte>, b: seq<byte>)
    ensures BitsOf(a + b) == BitsOf(a) + BitsOf(b)
  {
    hide FromNat;
    if a == [] {
      assert a + b == b;
    } else {
      BitsAppend(a[1..], b);
      assert (a + b)[1..] == a[1..] + b;
      WordsAssociate(FromNat(a[0], 8), BitsOf(a[1..]), BitsOf(b));
    }
  }

  lemma BitsOfThree(x: seq<byte>, y: seq<byte>, z: seq<byte>)
    ensures BitsOf(x + (y + z)) == BitsOf(x) + (BitsOf(y) + BitsOf(z))
  {
    BitsAppend(x, y + z);
    BitsAppend(y, z);
  }

  lemma CutInThree(s: seq<byte>, a: nat, n: nat)
    requires a + n <= |s|
    ensures s == s[..a] + (s[a..a + n] + s[a + n..])
  {
  }

  lemma BitsOfByte(b: byte)
    ensures BitsOf([b]) == FromNat(b, 8)
  {
    hide FromNat;
    assert [b][1..] == [];
    assert BitsOf([b]) == FromNat(b, 8) + [];
  }

  /** Byte `k` holds bits `8 * k` to `8 * k + 7`. */
  lemma BitAt(s: seq<byte>, k: nat, i: nat)
    requires k < |s| && i < 8
    ensures BitsOf(s)[8 * k + i] == FromNat(s[k], 8)[i]
  {
    hide FromNat, BitsOf;
    SliceOfBits(s, k, 1);
    assert s[k..k + 1] == [s[k]];
    BitsOfByte(s[k]);
    assert BitsOf(s)[8 * k..8 * k + 8][i] == BitsOf(s)[8 * k + i];
  }

  /** Loading some bytes gives a slice of that sequence, whatever their number. */
  lemma SliceOfBits(s: seq<byte>, a: nat, n: nat)
    requires a + n <= |s|
    ensures BitsOf(s[a..a + n]) == BitsOf(s)[8 * a..8 * a + 8 * n]
  {
    hide BitsOf;
    CutInThree(s, a, n);
    BitsOfThree(s[..a], s[a..a + n], s[a + n..]);
    MiddleSlice(BitsOf(s[..a]), BitsOf(s[a..a + n]), BitsOf(s[a + n..]));
  }

  lemma MiddleSlice(x: Word, y: Word, z: Word)
    ensures (x + (y + z))[|x|..|x| + |y|] == y
  {
  }

  /** The bytes a little-endian store writes. */
  function StoreBytes(w: Word): (s: seq<byte>)
    requires |w| % 8 == 0
    ensures |s| == |w| / 8
  {
    if w == [] then []
    else
      ToNatBound(w[..8]);
      assert Pow2(8) == 256;
      [ToNat(w[..8])] + StoreBytes(w[8..])
  }

  lemma {:induction false} StoredBits(w: Word)
    requires |w| % 8 == 0
    ensures BitsOf(StoreBytes(w)) == w
  {
    if w != [] {
      StoredBits(w[8..]);
      FromToNat(w[..8]);
      assert StoreBytes(w)[1..] == StoreBytes(w[8..]);
      assert w == w[..8] + w[8..];
    }
  }

  /** A sequence of bits with those from `at` on replaced. */
  function Replaced(bits: Word, at: nat, w: Word): (r: Word)
    requires at + |w| <= |bits|
    ensures |r| == |bits|
    ensures forall n :: 0 <= n < |bits| ==> r[n] == if at <= n < at + |w| then w[n - at] else bits[n]
  {
    bits[..at] + w + bits[at + |w|..]
  }

  /** A store replaces exactly its bits. */
  lemma BitsAfterStore(before: seq<byte>, after: seq<byte>, a: nat, w: Word)
    requires |w| % 8 == 0 && a + |w| / 8 <= |before|
    requires after == before[..a] + StoreBytes(w) + before[a + |w| / 8..]
    ensures BitsOf(after) == Replaced(BitsOf(before), 8 * a, w)
  {
    hide BitsOf, StoreBytes, Replaced;
    var n := |w| / 8;
    var x, y, z := before[..a], before[a..a + n], before[a + n..];
    CutInThree(before, a, n);
    BytesAssociate(x, StoreBytes(w), z);
    BitsOfThree(x, y, z);
    BitsOfThree(x, StoreBytes(w), z);
    StoredBits(w);
    ReplacedMiddle(BitsOf(x), BitsOf(y), BitsOf(z), w);
  }

  lemma BytesAssociate(x: seq<byte>, y: seq<byte>, z: seq<byte>)
    ensures x + y + z == x + (y + z)
  {
  }

  lemma ReplacedMiddle(x: Word, y: Word, z: Word, w: Word)
    requires |w| == |y|
    ensures Replaced(x + (y + z), |x|, w) == x + (w + z)
  {
  }

  // ------------------------------------------------------------------ the view

  predicate IsAccess(size: nat) { size == 1 || size == 2 || size == 4 || size == 8 }

  /** `byte0` with the low bits cleared that number the bytes of a chunk. */
  function Aligned(byte0: nat, size: nat): (chunk0: nat)
    requires IsAccess(size)
    ensures chunk0 <= byte0 < chunk0 + size
  {
    if size == 1 then byte0
    else if size == 2 then byte0 - byte0 % 2
    else if size == 4 then byte0 - byte0 % 4
    else byte0 - byte0 % 8
  }

  /** First byte of the aligned chunk that holds bit `offset`, and the bit's place in it. */
  function Locate(offset: nat, size: nat): (loc: (nat, nat))
    requires IsAccess(size)
    ensures 8 * loc.0 + loc.1 == offset && loc.1 < 8 * size
  {
    var byte0 := offset / 8;
    var chunk0 := Aligned(byte0, size);
    (chunk0, 8 * (byte0 - chunk0) + offset % 8)
  }

  /** The bytes an access of `width` bits at `offset` touches lie in the storage. */
  predicate Reaches(length: nat, offset: nat, width: nat, size: nat)
    requires IsAccess(size)
  {
    var (chunk0, shift) := Locate(offset, size);
    width == 0 || chunk0 + (if shift + width <= 8 * size then size else 2 * size) <= length
  }

  lemma ReachesBits(length: nat, offset: nat, width: nat, size: nat)
    requires IsAccess(size) && width <= 8 * size && Reaches(length, offset, width, size)
    ensures width > 0 ==>
      var (chunk0, shift) := Locate(offset, size);
      && offset + width <= 8 * length && chunk0 + size <= length
      && (shift + width > 8 * size ==> chunk0 + 2 * size <= length)
  {
    hide Locate;
  }

  /** Bits `shift..shift + width` of two adjacent chunks. */
  function Extract(a: Word, b: Word, shift: nat, width: nat): (v: Word)
    requires |a| == |b| && shift < |a| && width <= |a|
  {
    And(if shift + width <= |a| then Shr(a, shift) else Or(Shr(a, shift), Shl(b, |a| - shift)), Mask(|a|, width))
  }

  lemma ExtractBits(a: Word, b: Word, shift: nat, width: nat)
    requires |a| == |b| && shift < |a| && width <= |a|
    ensures Extract(a, b, shift, width)[..width] == (a + b)[shift..shift + width]
    ensures forall i :: width <= i < |a| ==> !Extract(a, b, shift, width)[i]
  {
  }

  lemma {:induction false} HighZeros(w: Word, k: nat)
    requires k <= |w| && forall i :: k <= i < |w| ==> !w[i]
    ensures ToNat(w) == ToNat(w[..k])
  {
    assert w == w[..k] + Repeat(false, |w| - k);
    ToNatAppend(w[..k], Repeat(false, |w| - k));
    ToNatRepeat(false, |w| - k);
  }

  /** Replacing bits of one chunk with mask and shift. */
  function Insert(a: Word, value: Word, mask: Word, shift: nat): (r: Word)
    requires |a| == |value| == |mask|
  {
    Or(And(a, Not(Shl(mask, shift))), Shl(value, shift))
  }

  lemma InsertOne(a: Word, value: Word, shift: nat, width: nat)
    requires |a| == |value| && shift + width <= |a| && forall i :: width <= i < |a| ==> !value[i]
    ensures Insert(a, value, Mask(|a|, width), shift) == Replaced(a, shift, value[..width])
  {
  }

  /** The two halves of a field that crosses into the next chunk. */
  function InsertLow(a: Word, value: Word, shift: nat): (r: Word)
    requires |a| == |value| && shift < |a|
    ensures |r| == |a|
  {
    var loMask := Shl(Mask(|a|, |a| - shift), shift);
    Or(And(a, Not(loMask)), And(Shl(value, shift), loMask))
  }

  function InsertHigh(b: Word, value: Word, shift: nat, width: nat): (r: Word)
    requires |b| == |value| && shift < |b| < shift + width
    ensures |r| == |b|
  {
    var lo := |b| - shift;
    Or(And(b, Not(Mask(|b|, width - lo))), Shr(value, lo))
  }

  lemma InsertTwo(a: Word, b: Word, value: Word, shift: nat, width: nat)
    requires |a| == |b| == |value| && 0 < shift < |a| < shift + width && width <= |a|
    requires forall i :: width <= i < |a| ==> !value[i]
    ensures InsertLow(a, value, shift) + InsertHigh(b, value, shift, width) == Replaced(a + b, shift, value[..width])
  {
  }

  lemma {:induction false} ModMod(v: int, k: nat, m: nat)
    requires k <= m
    ensures (v % Pow2(m)) % Pow2(k) == v % Pow2(k)
  {
    hide Pow2;
    Pow2Add(k, m - k);
    var p, c := Pow2(k), Pow2(m - k);
    var q, r := v / Pow2(m), v % Pow2(m);
    var q', r' := r / p, r % p;
    assert v == q * (p * c) + r && r == q' * p + r';
    assert q * (p * c) == (q * c) * p;
    assert v == (q * c + q') * p + r';
    DivModUnique(v, p, q * c + q', r');
  }

  /** The bits of a value of any integral type: two's complement, cut to the field. */
  function Field(v: int, width: nat): (w: Word)
    ensures |w| == width
  {
    FromNat(v % Pow2(width), width)
  }

  lemma {:induction false} FromNatMod(n: nat, k: nat)
    ensures FromNat(n % Pow2(k), k) == FromNat(n, k)
  {
    ToFromNat(n, k);
    FromToNat(FromNat(n, k));
  }

  /** Converting to the unsigned type and masking leaves the field's bits. */
  lemma MaskedValue(v: int, width: nat, bits: nat)
    requires width <= bits
    ensures var value := And(FromNat(v % Pow2(bits), bits), Mask(bits, width));
      value[..width] == Field(v, width) && forall i :: width <= i < bits ==> !value[i]
  {
    hide Pow2, FromNat;
    var n := v % Pow2(bits);
    FromNatPrefix(n, width, bits);
    FromNatMod(n, width);
    ModMod(v, width, bits);
    var value := And(FromNat(n, bits), Mask(bits, width));
    assert value[..width] == FromNat(n, bits)[..width];
  }

  class BitView {
    const storage: array<byte>

    constructor (storage: array<byte>)
      ensures this.storage == storage
    {
      this.storage := storage;
    }

    method Load(at: nat, size: nat) returns (w: Word)
      requires at + size <= storage.Length
      ensures w == BitsOf(storage[..])[8 * at..8 * at + 8 * size]
    {
      SliceOfBits(storage[..], at, size);
      assert storage[at..at + size] == storage[..][at..at + size];
      w := BitsOf(storage[at..at + size]);
    }

    method Store(at: nat, w: Word)
      requires |w| % 8 == 0 && 8 * at + |w| <= 8 * storage.Length
      modifies storage
      ensures BitsOf(storage[..]) == Replaced(old(BitsOf(storage[..])), 8 * at, w)
    {
      ghost var before := storage[..];
      var bytes := StoreBytes(w);
      for k := 0 to |bytes|
        invariant storage[..at] == before[..at] && storage[at + |bytes|..] == before[at + |bytes|..]
        invariant storage[at..at + k] == bytes[..k]
      {
        storage[at + k] := bytes[k];
      }
      assert storage[..] == before[..at] + bytes + before[at + |bytes|..];
      BitsAfterStore(before, storage[..], at, w);
    }

    /** Reads the field, as the unsigned or the signed type of `size` bytes. */
    method Read(offset: nat, width: nat, size: nat, signed: bool) returns (value: int)
      requires IsAccess(size) && width <= 8 * size && Reaches(storage.Length, offset, width, size)
      ensures width == 0 ==> value == 0
      ensures width > 0 ==>
        offset + width <= 8 * storage.Length &&
        value == Interpret(BitsOf(storage[..])[offset..offset + width], signed)
    {
      hide BitsOf, Extract, ToNat, ToInt, SignExtend, Locate, Reaches;
      if width == 0 {
        return 0;
      }
      ReachesBits(storage.Length, offset, width, size);
      ghost var bits := BitsOf(storage[..]);
      var (chunk0, shift) := Locate(offset, size);
      var a := Load(chunk0, size);
      var b := a;
      if shift + width > 8 * size {
        b := Load(chunk0 + size, size);
      }
      var v := Extract(a, b, shift, width);
      FieldOfChunks(bits, 8 * chunk0, a, b, shift, width);
      ExtractSize(a, b, shift, width);
      if signed {
        SignExtendValue(v, width);
        value := SignExtend(v, width);
      } else {
        HighZeros(v, width);
        value := ToNat(v);
      }
    }

    /** A field inside one chunk. */
    method WriteOne(chunk0: nat, shift: nat, size: nat, value: Word, width: nat)
      requires |value| == 8 * size && shift + width <= |value| && chunk0 + size <= storage.Length
      requires forall i :: width <= i < |value| ==> !value[i]
      modifies storage
      ensures 8 * chunk0 + shift + width <= 8 * storage.Length
      ensures BitsOf(storage[..]) == Replaced(old(BitsOf(storage[..])), 8 * chunk0 + shift, value[..width])
    {
      hide BitsOf, Insert, Replaced;
      ghost var bits := BitsOf(storage[..]);
      var a := Load(chunk0, size);
      InsertOne(a, value, shift, width);
      Store(chunk0, Insert(a, value, Mask(|value|, width), shift));
      ReplacedInside(bits, 8 * chunk0, |value|, shift, value[..width]);
    }

    /** A field that crosses into the next chunk. */
    method WriteTwo(chunk0: nat, shift: nat, size: nat, value: Word, width: nat)
      requires |value| == 8 * size && 0 < shift < |value| < shift + width && width <= |value|
      requires chunk0 + 2 * size <= storage.Length
      requires forall i :: width <= i < |value| ==> !value[i]
      modifies storage
      ensures 8 * chunk0 + shift + width <= 8 * storage.Length
      ensures BitsOf(storage[..]) == Replaced(old(BitsOf(storage[..])), 8 * chunk0 + shift, value[..width])
    {
      hide BitsOf, Replaced, InsertLow, InsertHigh;
      ghost var bits := BitsOf(storage[..]);
      var n := 8 * size;
      var a := Load(chunk0, size);
      var b := Load(chunk0 + size, size);
      SlicesJoin(bits, 8 * chunk0, n);
      InsertTwo(a, b, value, shift, width);
      Store(chunk0, InsertLow(a, value, shift));
      Store(chunk0 + size, InsertHigh(b, value, shift, width));
      ReplacedTwice(bits, 8 * chunk0, InsertLow(a, value, shift), InsertHigh(b, value, shift, width));
      ReplacedInside(bits, 8 * chunk0, 2 * n, shift, value[..width]);
    }

    /** Writes the field and nothing else. */
    method Write(offset: nat, width: nat, size: nat, v: int)
      requires IsAccess(size) && width <= 8 * size && Reaches(storage.Length, offset, width, size)
      modifies storage
      ensures width == 0 ==> BitsOf(storage[..]) == old(BitsOf(storage[..]))
      ensures width > 0 ==>
        offset + width <= 8 * storage.Length &&
        BitsOf(storage[..]) == Replaced(old(BitsOf(storage[..])), offset, Field(v, width))
    {
      hide BitsOf, FromNat, Pow2, Field, ToNat, Locate, Reaches, Replaced;
      if width == 0 {
        return;
      }
      ReachesBits(storage.Length, offset, width, size);
      MaskedValue(v, width, 8 * size);
      var value := And(FromNat(v % Pow2(8 * size), 8 * size), Mask(8 * size, width));
      var (chunk0, shift) := Locate(offset, size);
      if shift + width <= 8 * size {
        WriteOne(chunk0, shift, size, value, width);
      } else {
        WriteTwo(chunk0, shift, size, value, width);
      }
    }

    method Test(index: nat, size: nat) returns (bit: bool)
      requires IsAccess(size) && Reaches(storage.Length, index, 1, size)
      ensures index < 8 * storage.Length && bit == BitsOf(storage[..])[index]
    {
      hide BitsOf;
      var (chunk0, shift) := Locate(index, size);
      var b := Load(chunk0, size);
      bit := And(Shr(b, shift), One(8 * size)) != Repeat(false, 8 * size);
      assert And(Shr(b, shift), One(8 * size))[0] == b[shift];
    }

    method Set(index: nat, size: nat)
      requires IsAccess(size) && Reaches(storage.Length, index, 1, size)
      modifies storage
      ensures index < 8 * storage.Length && BitsOf(storage[..]) == old(BitsOf(storage[..]))[index := true]
    {
      hide BitsOf;
      var (chunk0, shift) := Locate(index, size);
      var b := Load(chunk0, size);
      Store(chunk0, Or(b, Shl(One(8 * size), shift)));
    }

    method Clear(index: nat, size: nat)
      requires IsAccess(size) && Reaches(storage.Length, index, 1, size)
      modifies storage
      ensures index < 8 * storage.Length && BitsOf(storage[..]) == old(BitsOf(storage[..]))[index := false]
    {
      hide BitsOf;
      var (chunk0, shift) := Locate(index, size);
      var b := Load(chunk0, size);
      Store(chunk0, And(b, Not(Shl(One(8 * size), shift))));
    }
  }

  /** The number a field stands for. */
  function Interpret(w: Word, signed: bool): int
    requires w != []
  {
    if signed then ToInt(w) else ToNat(w)
  }

  lemma ExtractSize(a: Word, b: Word, shift: nat, width: nat)
    requires |a| == |b| && shift < |a| && width <= |a|
    ensures |Extract(a, b, shift, width)| == |a|
  {
  }

  /** What is extracted from the chunks is the field of the whole storage. */
  lemma FieldOfChunks(bits: Word, at: nat, a: Word, b: Word, shift: nat, width: nat)
    requires |a| == |b| && shift < |a| && width <= |a| && at + |a| <= |bits| && a == bits[at..at + |a|]
    requires shift + width > |a| ==> at + 2 * |a| <= |bits| && b == bits[at + |a|..at + 2 * |a|]
    ensures |Extract(a, b, shift, width)| == |a| && at + shift + width <= |bits|
    ensures Extract(a, b, shift, width)[..width] == bits[at + shift..at + shift + width]
    ensures forall i :: width <= i < |a| ==> !Extract(a, b, shift, width)[i]
  {
    hide Extract;
    ExtractSize(a, b, shift, width);
    ExtractBits(a, b, shift, width);
    if shift + width <= |a| {
      SliceInFirst(a, b, shift, width);
      SliceInSlice(bits, at, |a|, shift, width);
    } else {
      SlicesJoin(bits, at, |a|);
      SliceInSlice(bits, at, 2 * |a|, shift, width);
    }
  }

  lemma SliceInFirst(a: Word, b: Word, shift: nat, width: nat)
    requires shift + width <= |a|
    ensures (a + b)[shift..shift + width] == a[shift..shift + width]
  {
  }

  lemma SliceInSlice(bits: Word, at: nat, n: nat, shift: nat, width: nat)
    requires at + n <= |bits| && shift + width <= n
    ensures bits[at..at + n][shift..shift + width] == bits[at + shift..at + shift + width]
  {
    var x, y := bits[at..at + n][shift..shift + width], bits[at + shift..at + shift + width];
    assert |x| == |y|;
    assert forall i :: 0 <= i < width ==> x[i] == y[i];
  }

  lemma SlicesJoin(bits: Word, at: nat, n: nat)
    requires at + 2 * n <= |bits|
    ensures bits[at..at + n] + bits[at + n..at + 2 * n] == bits[at..at + 2 * n]
  {
  }

  lemma ReplacedInside(bits: Word, at: nat, n: nat, shift: nat, w: Word)
    requires at + n <= |bits| && shift + |w| <= n
    ensures Replaced(bits, at, Replaced(bits[at..at + n], shift, w)) == Replaced(bits, at + shift, w)
  {
  }

  lemma ReplacedTwice(bits: Word, at: nat, a: Word, b: Word)
    requires at + |a| + |b| <= |bits|
    ensures Replaced(Replaced(bits, at, a), at + |a|, b) == Replaced(bits, at, a + b)
  {
  }

  // ----------------------------------------------------------- the view's laws

  /** A field read as unsigned is the value modulo 2^width. */
  lemma FieldUnsigned(v: int, width: nat)
    requires width > 0
    ensures Interpret(Field(v, width), false) == v % Pow2(width)
  {
    ToFromNat(v % Pow2(width), width);
    ModMod(v, width, width);
  }

  /** A field read as signed is the one number of `width` bits congruent to the value. */
  lemma FieldSigned(v: int, width: nat)
    requires width > 0
    ensures var x := Interpret(Field(v, width), true);
      x % Pow2(width) == v % Pow2(width) && -Half(width) <= x < Half(width)
    ensures -Half(width) <= v < Half(width) ==> Interpret(Field(v, width), true) == v
  {
    hide Pow2, FromNat, Field, ToNat, Half;
    var w, p := Field(v, width), Pow2(width);
    FieldUnsigned(v, width);
    TopBit(w);
    SignedResidue(ToNat(w), p, w[width - 1]);
    if -Half(width) <= v < Half(width) {
      SameResidue(ToInt(w), v, p);
    }
  }

  lemma SignedResidue(n: nat, p: nat, negative: bool)
    requires n < p
    ensures (n - (if negative then p else 0)) % p == n
  {
    if negative {
      DivModUnique(n - p, p, -1, n);
    } else {
      DivModUnique(n, p, 0, n);
    }
  }

  function Half(width: nat): (h: int)
    requires width > 0
    ensures 2 * h == Pow2(width)
  {
    Pow2(width - 1)
  }

  lemma SameResidue(x: int, v: int, p: nat)
    requires p > 0 && x % p == v % p && x - v < p && v - x < p
    ensures x == v
  {
    var d := x / p - v / p;
    assert x == (x / p) * p + x % p && v == (v / p) * p + v % p;
    assert x - v == d * p;
    MulPositive(d, p);
  }

  /** The top bit splits the range in half. */
  lemma {:induction false} TopBit(w: Word)
    requires w != []
    ensures if w[|w| - 1] then Half(|w|) <= ToNat(w) < Pow2(|w|) else ToNat(w) < Half(|w|)
  {
    ToNatBound(w);
    var low := w[..|w| - 1];
    assert w == low + [w[|w| - 1]];
    ToNatAppend(low, [w[|w| - 1]]);
    ToNatBound(low);
    assert ToNat([w[|w| - 1]]) == if w[|w| - 1] then 1 else 0;
  }

  /** A field written through one access type and read through another gives the value
      modulo 2^width, sign-extended for a signed type, and every other bit of the storage
      is as before. */
  method WriteThenRead(view: BitView, offset: nat, width: nat, writeSize: nat, readSize: nat, v: int, signed: bool)
    returns (value: int)
    requires IsAccess(writeSize) && IsAccess(readSize) && 0 < width <= 8 * writeSize && width <= 8 * readSize
    requires Reaches(view.storage.Length, offset, width, writeSize)
    requires Reaches(view.storage.Length, offset, width, readSize)
    modifies view.storage
    ensures value % Pow2(width) == v % Pow2(width)
    ensures if signed then -Half(width) <= value < Half(width) else 0 <= value < Pow2(width)
    ensures forall n :: 0 <= n < 8 * view.storage.Length && !(offset <= n < offset + width) ==>
      BitsOf(view.storage[..])[n] == old(BitsOf(view.storage[..]))[n]
  {
    hide BitsOf, Field, Pow2, Half, Reaches;
    view.Write(offset, width, writeSize, v);
    value := view.Read(offset, width, readSize, signed);
    assert BitsOf(view.storage[..])[offset..offset + width] == Field(v, width);
    FieldUnsigned(v, width);
    FieldSigned(v, width);
    ModMod(v, width, width);
  }
}
