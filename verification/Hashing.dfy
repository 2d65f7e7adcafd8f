/** The hash of a symbol's first three bytes, bit by bit. */
module Hashing {

  import opened BitView
  import opened Bytes
  import opened SymbolTables

  lemma {:induction false} XorBits(a: nat, b: nat, k: nat)
    ensures forall i :: 0 <= i < k ==> FromNat(Xor(a, b), k)[i] == (FromNat(a, k)[i] != FromNat(b, k)[i])
  {
    if k > 0 {
      XorBits(a / 2, b / 2, k - 1);
    }
  }

  lemma DivHalf(n: nat, p: nat)
    requires p > 0
    ensures n / (2 * p) == n / 2 / p
  {
    var q, m := n / 2 / p, n / 2 % p;
    assert n / 2 == q * p + m;
    assert n == q * (2 * p) + (2 * m + n % 2);
    DivModUnique(n, 2 * p, q, 2 * m + n % 2);
  }

  /** A number with its low `m` bits shifted out. */
  ghost function ShiftedOut(n: nat, m: nat): (r: nat)
    decreases m
  {
    if m == 0 then n else ShiftedOut(n / 2, m - 1)
  }

  lemma {:induction false} ShiftIsDivision(n: nat, m: nat)
    ensures ShiftedOut(n, m) == n / Pow2(m)
    decreases m
  {
    if m > 0 {
      DivHalf(n, Pow2(m - 1));
      ShiftIsDivision(n / 2, m - 1);
    }
  }

  lemma {:induction false} ShiftedBits(n: nat, m: nat, k: nat)
    ensures FromNat(ShiftedOut(n, m), k) == FromNat(n, m + k)[m..]
    decreases m
  {
    if m > 0 {
      ShiftedBits(n / 2, m - 1, k);
      var rest := FromNat(n / 2, m - 1 + k);
      assert FromNat(n, m + k) == [n % 2 == 1] + rest;
      assert ([n % 2 == 1] + rest)[m..] == rest[m - 1..];
    }
  }

  /** Reducing modulo a power of two keeps the low bits. */
  lemma KeptBits(n: nat, k: nat)
    ensures FromNat(n % Pow2(k), k) == FromNat(n, k)
  {
    ToFromNat(n, k);
    FromToNat(FromNat(n, k));
  }

  lemma Powers()
    ensures Pow2(10) == 1024 && Pow2(15) == 32768
  {
    assert Pow2(5) == 32;
    assert Pow2(10) == 1024;
  }

  /** Three bytes as one little-endian number. */
  ghost function ThreeBytes(w: seq<byte>): (v: nat)
    requires |w| >= 3
  {
    w[0] as int + w[1] as int * 0x100 + w[2] as int * 0x1_0000
  }

  lemma ThreeBytesLoaded(w: seq<byte>)
    requires |w| >= 3
    ensures Masked(Load(w), 3) == ThreeBytes(w)
  {
    MaskedLoad(w, 3);
    var x := w[..3];
    assert x[1..][1..] == [w[2]];
    assert Load(x) == w[0] + 256 * Load(x[1..]) && Load(x[1..]) == w[1] + 256 * Load([w[2]]);
  }

  /** The slot's ten bits: the three bytes as one number times the prime, each of the low
      bits flipped by the bit fifteen places above it. */
  lemma SlotBits(w: seq<byte>)
    requires |w| >= 3
    ensures Slot(Load(w)) < 1024
    ensures var product, slot := FromNat(ThreeBytes(w) * 2971215073, 25), FromNat(Slot(Load(w)), 10);
      forall k :: 0 <= k < 10 ==> slot[k] == (product[k] != product[k + 15])
  {
    hide FromNat, Pow2, ShiftedOut, Xor, Load, Masked, ThreeBytes;
    ThreeBytesLoaded(w);
    Powers();
    var v := ThreeBytes(w) * HASH_PRIME;
    KeptBits(Xor(v, v / 32768), 10);
    XorBits(v, v / 32768, 10);
    ShiftIsDivision(v, 15);
    ShiftedBits(v, 15, 10);
    FromNatPrefix(v, 10, 25);
  }
}
