/** Bytes, little-endian words and the word-level tests that FSST makes on them.

    The codec never compares strings byte by byte: it loads eight bytes into one
    64-bit word, masks away the high bytes and compares numbers.  This module
    relates those numbers to the byte sequences they stand for. */
module Bytes {

  type byte = b: int | 0 <= b < 256

  /** The number an unaligned little-endian load of `s` produces. */
  function Load(s: seq<byte>): (r: nat)
  {
    if s == [] then 0 else s[0] + 256 * Load(s[1..])
  }

  /** A word with all but its low `n` bytes masked away. */
  function Masked(word: nat, n: nat): (r: nat)
  {
    if n == 0 then 0 else word % 256 + 256 * Masked(word / 256, n - 1)
  }

  lemma {:induction false} MaskedLoad(s: seq<byte>, n: nat)
    requires n <= |s|
    ensures Masked(Load(s), n) == Load(s[..n])
  {
    if n > 0 {
      MaskedLoad(s[1..], n - 1);
      assert s[1..][..n - 1] == s[..n][1..];
    }
  }

  lemma {:induction false} LoadInjective(a: seq<byte>, b: seq<byte>)
    requires |a| == |b| && Load(a) == Load(b)
    ensures a == b
  {
    if a != [] {
      LoadInjective(a[1..], b[1..]);
      assert a == [a[0]] + a[1..] && b == [b[0]] + b[1..];
    }
  }

  /** Masking the window to the symbol's length and comparing words is exactly
      the prefix test, whatever follows in the window. */
  lemma MaskedCompareIsPrefix(symbol: seq<byte>, window: seq<byte>)
    requires |symbol| <= |window|
    ensures Load(symbol) == Masked(Load(window), |symbol|) <==> symbol <= window
  {
    MaskedLoad(window, |symbol|);
    if Load(symbol) == Masked(Load(window), |symbol|) {
      LoadInjective(symbol, window[..|symbol|]);
    }
  }

  function Zeros(k: nat): (r: seq<byte>)
    ensures |r| == k
  {
    if k == 0 then [] else [0] + Zeros(k - 1)
  }

  /** Bytes above a symbol's length are zero, so padding does not change its word. */
  lemma {:induction false} LoadPadded(s: seq<byte>, k: nat)
    ensures Load(s + Zeros(k)) == Load(s)
  {
    if s != [] {
      assert (s + Zeros(k))[1..] == s[1..] + Zeros(k);
      LoadPadded(s[1..], k);
    } else if k > 0 {
      assert s + Zeros(k) == Zeros(k) && Zeros(k)[1..] == [] + Zeros(k - 1);
      LoadPadded(s, k - 1);
    }
  }

  function Min(a: int, b: int): int { if a < b then a else b }
}
