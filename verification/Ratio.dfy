/** Exact decimal rounding of a ratio (`ratio_to_string`): the leading digits of
    `num / den` are computed with 64-bit additions only, rounded once, and printed with
    the unit that suits their size. */
module Ratio {

  type digit = d: int | 0 <= d < 10

  type Digits = seq<digit>

  const WORD := 0x1_0000_0000_0000_0000

  // -------------------------------------------------------------- real products

  /** Product of two reals. */
  function Times(x: real, u: real): real { x * u }

  lemma TimesSum(x: real, y: real, u: real)
    ensures Times(x + y, u) == Times(x, u) + Times(y, u)
  {
  }

  lemma TimesPositive(x: real, u: real)
    requires x > 0.0 && u > 0.0
    ensures Times(x, u) > 0.0
  {
  }

  lemma TimesLess(a: real, b: real, u: real)
    requires u > 0.0
    ensures a < b ==> Times(a, u) < Times(b, u)
    ensures a <= b ==> Times(a, u) <= Times(b, u)
  {
    hide Times;
    if a < b {
      TimesPositive(b - a, u);
      TimesSum(a, b - a, u);
      assert a + (b - a) == b;
    }
  }

  lemma TimesOne(u: real)
    ensures Times(1.0, u) == u && Times(u, 1.0) == u && Times(0.0, u) == 0.0
  {
  }

  lemma TimesTen(x: real, u: real)
    ensures Times(x, 10.0 * u) == 10.0 * Times(x, u) == Times(10.0 * x, u)
  {
  }

  lemma TimesDigit(u: real)
    ensures Times(4.0, u) == 4.0 * u && Times(5.0, u) == 5.0 * u && Times(9.0, u) == 9.0 * u
  {
  }

  lemma TimesAssociates(x: real, y: real, z: real)
    ensures Times(x, Times(y, z)) == Times(Times(x, y), z)
    ensures Times(x, y) == Times(y, x)
  {
  }

  // -------------------------------------------------------------- powers of ten

  function P10(k: int): (r: real)
    ensures r > 0.0
    decreases if k < 0 then -k else k
  {
    if k == 0 then 1.0 else if k > 0 then 10.0 * P10(k - 1) else P10(k + 1) / 10.0
  }

  lemma P10Next(k: int)
    ensures P10(k + 1) == 10.0 * P10(k)
  {
  }

  lemma P10Zero()
    ensures P10(0) == 1.0
  {
  }

  lemma {:induction false} P10Add(a: int, b: int)
    ensures P10(a + b) == Times(P10(a), P10(b))
    decreases if b < 0 then -b else b
  {
    hide P10, Times;
    P10Zero();
    TimesOne(P10(a));
    if b > 0 {
      P10Add(a, b - 1);
      P10Next(a + b - 1);
      P10Next(b - 1);
      TimesTen(P10(a), P10(b - 1));
    } else if b < 0 {
      P10Add(a, b + 1);
      P10Next(a + b);
      P10Next(b);
      TimesTen(P10(a), P10(b));
    }
  }

  lemma {:induction false} P10Monotone(a: int, b: int)
    requires a <= b
    ensures P10(a) <= P10(b)
    decreases b - a
  {
    if a < b {
      P10Monotone(a, b - 1);
      P10Next(b - 1);
    }
  }

  function Tens(k: nat): (n: nat)
    ensures n > 0
  {
    if k == 0 then 1 else 10 * Tens(k - 1)
  }

  lemma {:induction false} TensIsP10(k: nat)
    ensures Tens(k) as real == P10(k)
  {
    if k > 0 {
      TensIsP10(k - 1);
    }
  }

  // ------------------------------------------------------------------- numerals

  /** The number some digits stand for. */
  function N(d: Digits): nat {
    if d == [] then 0 else 10 * N(d[..|d| - 1]) + d[|d| - 1]
  }

  lemma NAppend(d: Digits, x: digit)
    ensures N(d + [x]) == 10 * N(d) + x
  {
    assert (d + [x])[..|d|] == d;
  }

  lemma {:induction false} NBound(d: Digits)
    ensures N(d) < Tens(|d|)
  {
    if d != [] {
      NBound(d[..|d| - 1]);
    }
  }

  lemma {:induction false} NLeading(d: Digits)
    requires d != [] && d[0] != 0
    ensures Tens(|d| - 1) <= N(d)
  {
    if |d| > 1 {
      NLeading(d[..|d| - 1]);
    } else {
      assert d[..0] == [];
    }
  }

  lemma {:induction false} NInjective(a: Digits, b: Digits)
    requires |a| == |b| && N(a) == N(b)
    ensures a == b
  {
    if a != [] {
      NInjective(a[..|a| - 1], b[..|b| - 1]);
      assert a == a[..|a| - 1] + [a[|a| - 1]] && b == b[..|b| - 1] + [b[|b| - 1]];
    }
  }

  /** Decimal digits of a positive number, without leading zero (`std::to_string`). */
  function ToDigits(n: nat): (d: Digits)
    requires n > 0
    ensures d != [] && d[0] != 0 && N(d) == n
  {
    if n < 10 then
      assert N([n]) == 10 * N([]) + n by { assert [n][..0] == []; }
      [n]
    else
      NAppend(ToDigits(n / 10), n % 10);
      ToDigits(n / 10) + [n % 10]
  }

  lemma MulTen(m: nat, t: nat)
    ensures m * (10 * t) == 10 * (m * t)
  {
  }

  lemma PrefixStep(m: nat, t: nat, n: nat, x: digit)
    requires m * t <= n < (m + 1) * t
    ensures m * (10 * t) <= 10 * n + x < (m + 1) * (10 * t)
  {
    MulTen(m, t);
    MulTen(m + 1, t);
    var lo, hi := m * t, (m + 1) * t;
    assert lo <= n < hi;
  }

  /** The number of the first `k` digits, and what is cut off. */
  lemma {:induction false} NPrefix(d: Digits, k: nat)
    requires k <= |d|
    ensures N(d[..k]) * Tens(|d| - k) <= N(d) < (N(d[..k]) + 1) * Tens(|d| - k)
    decreases |d|
  {
    if k < |d| {
      var init := d[..|d| - 1];
      NPrefix(init, k);
      assert init[..k] == d[..k];
      PrefixStep(N(d[..k]), Tens(|init| - k), N(init), d[|d| - 1]);
    } else {
      assert d[..k] == d;
    }
  }

  // ---------------------------------------------------------- exact extraction

  /** Multiplies by ten and divides, by ten guarded additions: nothing exceeds 64 bits. */
  method Mul10Div(rem: nat, den: nat) returns (q: digit, acc: nat)
    requires rem < den < WORD
    ensures q * den + acc == 10 * rem && acc < den
  {
    var n: nat;
    n, acc := 0, 0;
    for i := 0 to 10
      invariant n <= i && acc < den && n * den + acc == i * rem
    {
      assert den - rem < WORD;
      if acc >= den - rem {
        assert (n + 1) * den == n * den + den;
        acc, n := acc - (den - rem), n + 1;
      } else {
        assert acc + rem < WORD;
        acc := acc + rem;
      }
      assert (i + 1) * rem == i * rem + rem;
    }
    QuotientBelowTen(n, den, acc, rem);
    q := n;
  }

  lemma QuotientBelowTen(n: nat, den: nat, acc: nat, rem: nat)
    requires n * den + acc == 10 * rem && rem < den && n <= 10
    ensures n < 10
  {
  }

  function Quotient(num: nat, den: nat): real
    requires den > 0
  {
    num as real / den as real
  }

  /** The digits are the leading digits of `v`, the first of them standing for `10^e`. */
  ghost predicate Leading(v: real, d: Digits, e: int) {
    var u := P10(e - |d| + 1);
    d != [] && d[0] != 0 && Times(N(d) as real, u) <= v < Times(N(d) as real + 1.0, u)
  }

  /** With a remainder: `v` is the digits so far and `rem / den` in the last place. */
  ghost predicate Extracted(v: real, d: Digits, e: int, rem: nat, den: nat) {
    rem < den && v == Times(N(d) as real + Quotient(rem, den), P10(e - |d| + 1))
  }

  lemma QuotientBelowOne(rem: nat, den: nat)
    requires rem < den
    ensures 0.0 <= Quotient(rem, den) < 1.0
  {
    var q := Quotient(rem, den);
    assert q * den as real == rem as real;
  }

  lemma ExtractedLeads(v: real, d: Digits, e: int, rem: nat, den: nat)
    requires Extracted(v, d, e, rem, den) && d != [] && d[0] != 0
    ensures Leading(v, d, e)
  {
    hide N, P10, Quotient, Times;
    QuotientBelowOne(rem, den);
    var n, f, u := N(d) as real, Quotient(rem, den), P10(e - |d| + 1);
    TimesLess(n, n + f, u);
    TimesLess(n + f, n + 1.0, u);
  }

  lemma NextDigit(rem: nat, den: nat, q: digit, acc: nat)
    requires rem < den && q * den + acc == 10 * rem
    ensures 10.0 * Quotient(rem, den) == q as real + Quotient(acc, den)
  {
    var a, b := Quotient(rem, den), Quotient(acc, den);
    var d := den as real;
    assert a * d == rem as real && b * d == acc as real;
    assert (q * den) as real == q as real * d;
    assert (10.0 * a) * d == (q as real + b) * d;
  }

  lemma ExtractedNext(v: real, d: Digits, e: int, rem: nat, den: nat, q: digit, acc: nat)
    requires Extracted(v, d, e, rem, den) && q * den + acc == 10 * rem && acc < den
    ensures Extracted(v, d + [q], e, acc, den)
  {
    hide P10, N, Quotient, Times;
    NAppend(d, q);
    P10Next(e - |d|);
    NextDigit(rem, den, q, acc);
    TimesTen(N(d) as real + Quotient(rem, den), P10(e - |d|));
    assert (10 * N(d) + q) as real == 10.0 * N(d) as real + q as real;
  }

  lemma WholePart(num: nat, den: nat)
    requires den > 0
    ensures Quotient(num, den) == (num / den) as real + Quotient(num % den, den)
  {
    var i, r, d := num / den, num % den, den as real;
    assert num == i * den + r;
    assert num as real == i as real * d + r as real;
    assert Quotient(num, den) * d == num as real && Quotient(r, den) * d == r as real;
    assert (i as real + Quotient(r, den)) * d == num as real;
  }

  lemma StartWhole(num: nat, den: nat, d: Digits)
    requires num >= den > 0 && N(d) == num / den
    ensures Extracted(Quotient(num, den), d, |d| - 1, num % den, den)
  {
    hide Quotient, N, Times;
    WholePart(num, den);
    P10Zero();
    TimesOne(Quotient(num, den));
  }

  lemma StartFraction(num: nat, den: nat)
    requires num < den
    ensures Extracted(Quotient(num, den), [], -1, num, den)
  {
    hide Quotient, Times;
    P10Zero();
    TimesOne(Quotient(num, den));
  }

  /** A leading zero only lowers the exponent. */
  lemma SkipZero(v: real, e: int, acc: nat, den: nat)
    requires Extracted(v, [0], e, acc, den)
    ensures Extracted(v, [], e - 1, acc, den)
  {
    hide Quotient, Times, P10;
    assert N([0]) == 0 by { assert [0][..0] == []; }
  }

  lemma WholeTimes(m: nat, t: nat)
    ensures (m * t) as real == Times(m as real, t as real)
  {
  }

  lemma CutBounds(v: real, m: nat, n: nat, f: real, t: nat)
    requires m * t <= n < (m + 1) * t && 0.0 <= f < 1.0 && v == n as real + f
    ensures Times(m as real, t as real) <= v < Times(m as real + 1.0, t as real)
  {
    hide Times;
    WholeTimes(m, t);
    WholeTimes(m + 1, t);
    var lo, hi := m * t, (m + 1) * t;
    assert n + 1 <= hi && (m + 1) as real == m as real + 1.0;
  }

  /** Cutting the digits of the whole part leaves its leading digits. */
  lemma LeadingCut(v: real, d: Digits, rem: nat, den: nat, count: nat)
    requires Extracted(v, d, |d| - 1, rem, den) && d != [] && d[0] != 0 && 0 < count <= |d|
    ensures Leading(v, d[..count], |d| - 1)
  {
    hide N, Quotient, P10, Times;
    P10Zero();
    TimesOne(N(d) as real + Quotient(rem, den));
    NPrefix(d, count);
    QuotientBelowOne(rem, den);
    TensIsP10(|d| - count);
    CutBounds(v, N(d[..count]), N(d), Quotient(rem, den), Tens(|d| - count));
  }

  /** Appends digits until there are `count` of them. */
  method AppendDigits(digits0: Digits, e: int, rem0: nat, den: nat, count: nat, ghost v: real) returns (digits: Digits)
    requires Extracted(v, digits0, e, rem0, den) && den < WORD && digits0 != [] && digits0[0] != 0 && |digits0| <= count
    ensures |digits| == count && Leading(v, digits, e)
  {
    hide Extracted, Leading;
    digits := digits0;
    var rem: nat := rem0;
    RemainderSmall(v, digits, e, rem, den);
    while |digits| < count
      invariant digits != [] && digits[0] != 0 && |digits| <= count
      invariant rem < den && Extracted(v, digits, e, rem, den)
    {
      var d, next := Mul10Div(rem, den);
      ExtractedNext(v, digits, e, rem, den, d, next);
      digits, rem := digits + [d], next;
    }
    ExtractedLeads(v, digits, e, rem, den);
  }

  lemma RemainderSmall(v: real, d: Digits, e: int, rem: nat, den: nat)
    requires Extracted(v, d, e, rem, den)
    ensures rem < den
  {
  }

  /** Skips leading zeros; the remainder grows tenfold with each, so this ends. */
  method FirstDigit(num: nat, den: nat) returns (d: digit, e: int, rem: nat)
    requires 0 < num < den < WORD
    ensures d != 0 && rem < den && Extracted(Quotient(num, den), [d], e, rem, den)
  {
    hide Extracted, Quotient;
    ghost var v := Quotient(num, den);
    StartFraction(num, den);
    rem, e := num, -1;
    while true
      invariant 0 < rem < den && Extracted(v, [], e, rem, den)
      decreases den - rem
    {
      var next;
      d, next := Mul10Div(rem, den);
      ExtractedNext(v, [], e, rem, den, d, next);
      assert [] + [d] == [d];
      if d != 0 {
        rem := next;
        return;
      }
      SkipZero(v, e, next, den);
      rem, e := next, e - 1;
    }
  }

  /** The first `count` significant digits of `num / den`, exactly. */
  method ExtractSignificantDigits(num: nat, den: nat, count: nat) returns (digits: Digits, e: int)
    requires 0 < num < WORD && 0 < den < WORD && count > 0
    ensures |digits| == count && Leading(Quotient(num, den), digits, e)
  {
    hide Extracted, Leading, Quotient;
    ghost var v := Quotient(num, den);
    var rem;
    if num >= den {
      WholePositive(num, den);
      digits, rem := ToDigits(num / den), num % den;
      StartWhole(num, den, digits);
      e := |digits| - 1;
      if |digits| > count {
        LeadingCut(v, digits, rem, den, count);
        digits := digits[..count];
        return;
      }
    } else {
      var d;
      d, e, rem := FirstDigit(num, den);
      digits := [d];
    }
    digits := AppendDigits(digits, e, rem, den, count, v);
  }

  lemma WholePositive(num: nat, den: nat)
    requires num >= den > 0
    ensures num / den > 0
  {
  }

  // -------------------------------------------------- the digits are determined

  /** Leading digits place the value between two powers of ten. */
  lemma LeadingMagnitude(v: real, d: Digits, e: int)
    requires Leading(v, d, e)
    ensures P10(e) <= v < P10(e + 1)
  {
    hide N, P10, Times;
    var c, u, n := |d|, P10(e - |d| + 1), N(d) as real;
    NLeading(d);
    NBound(d);
    TensIsP10(c - 1);
    TensIsP10(c);
    P10Add(e - c + 1, c - 1);
    P10Add(e - c + 1, c);
    TimesLess(P10(c - 1), n, u);
    TimesLess(n + 1.0, P10(c), u);
    TimesAssociates(u, P10(c - 1), 1.0);
    TimesAssociates(u, P10(c), 1.0);
  }

  lemma ExponentUnique(v: real, e: int, f: int)
    requires P10(e) <= v < P10(e + 1) && P10(f) <= v < P10(f + 1)
    ensures e == f
  {
    hide P10;
    if e < f {
      P10Monotone(e + 1, f);
    } else if f < e {
      P10Monotone(f + 1, e);
    }
  }

  lemma FloorUnique(v: real, m: nat, n: nat, u: real)
    requires u > 0.0 && Times(m as real, u) <= v < Times(m as real + 1.0, u)
    requires Times(n as real, u) <= v < Times(n as real + 1.0, u)
    ensures m == n
  {
    hide Times;
    TimesLess(m as real + 1.0, n as real, u);
    TimesLess(n as real + 1.0, m as real, u);
  }

  /** Only one sequence of a given length can be the leading digits of a value. */
  lemma LeadingUnique(v: real, a: Digits, e: int, b: Digits, f: int)
    requires Leading(v, a, e) && Leading(v, b, f) && |a| == |b|
    ensures a == b && e == f
  {
    hide N, P10, Times;
    LeadingMagnitude(v, a, e);
    LeadingMagnitude(v, b, f);
    ExponentUnique(v, e, f);
    FloorUnique(v, N(a), N(b), P10(e - |a| + 1));
    NInjective(a, b);
  }

  // ------------------------------------------------------------------- rounding

  /** Decimal increment with carry. */
  function Incremented(d: Digits): (t: Digits) {
    if d == [] then [1]
    else if d[|d| - 1] != 9 then d[..|d| - 1] + [d[|d| - 1] + 1]
    else Incremented(d[..|d| - 1]) + [0]
  }

  lemma {:induction false} IncrementAddsOne(d: Digits)
    ensures N(Incremented(d)) == N(d) + 1
    ensures Incremented(d) != [] && (d == [] || d[0] != 0 ==> Incremented(d)[0] != 0)
  {
    if d == [] {
      assert [1][..0] == [];
    } else {
      var init, last := d[..|d| - 1], d[|d| - 1];
      IncrementAddsOne(init);
      if last != 9 {
        NAppend(init, last + 1);
      } else {
        NAppend(Incremented(init), 0);
      }
    }
  }

  function ZeroDigits(k: nat): (z: Digits)
    ensures |z| == k && forall i :: 0 <= i < k ==> z[i] == 0
  {
    seq(k, _ => 0)
  }

  /** `increment_decimal_string`, in place from the last digit. */
  method IncrementDecimalString(s: Digits) returns (t: Digits)
    ensures t == Incremented(s)
  {
    hide ZeroDigits;
    t := s;
    var i := |s|;
    assert s[..i] == s;
    while i > 0
      invariant 0 <= i <= |s| == |t| && t[..i] == s[..i]
      invariant t[i..] == ZeroDigits(|s| - i)
      invariant Incremented(s) == Incremented(s[..i]) + ZeroDigits(|s| - i)
    {
      i := i - 1;
      ghost var before := t;
      assert s[..i + 1][..i] == s[..i] && s[..i + 1][i] == s[i];
      if t[i] != 9 {
        t := t[i := t[i] + 1];
        assert t == s[..i] + [s[i] + 1] + ZeroDigits(|s| - i - 1);
        return;
      }
      t := t[i := 0];
      assert t[i..] == [0] + before[i + 1..];
      assert [0] + ZeroDigits(|s| - i - 1) == ZeroDigits(|s| - i);
      CarriesAssociate(Incremented(s[..i]), ZeroDigits(|s| - i - 1));
    }
    assert s[..0] == [] && t == t[0..];
    t := [1] + t;
  }

  lemma CarriesAssociate(a: Digits, z: Digits)
    ensures (a + [0]) + z == a + ([0] + z)
  {
  }

  datatype Decimal = Decimal(digits: Digits, exp10: int)

  function Value(x: Decimal): real {
    Times(N(x.digits) as real, P10(x.exp10))
  }

  function ScientificExponent(x: Decimal): int {
    x.exp10 + |x.digits| - 1
  }

  /** Without trailing zeros, except that one digit always stays. */
  function Stripped(x: Decimal): (y: Decimal)
    decreases |x.digits|
  {
    if |x.digits| > 1 && x.digits[|x.digits| - 1] == 0
    then Stripped(Decimal(x.digits[..|x.digits| - 1], x.exp10 + 1))
    else x
  }

  /** No trailing zero, unless it is the only digit. */
  predicate Bare(x: Decimal) {
    x.digits != [] && (|x.digits| == 1 || x.digits[|x.digits| - 1] != 0)
  }

  lemma StripOne(x: Decimal)
    requires |x.digits| > 1 && x.digits[|x.digits| - 1] == 0
    ensures Value(Decimal(x.digits[..|x.digits| - 1], x.exp10 + 1)) == Value(x)
  {
    hide P10, Times;
    var init := x.digits[..|x.digits| - 1];
    assert N(x.digits) == 10 * N(init);
    P10Next(x.exp10);
    TimesTen(N(init) as real, P10(x.exp10));
  }

  lemma {:induction false} StrippedValue(x: Decimal)
    requires x.digits != [] && x.digits[0] != 0
    ensures Value(Stripped(x)) == Value(x) && ScientificExponent(Stripped(x)) == ScientificExponent(x)
    ensures Stripped(x).digits != [] && Stripped(x).digits[0] != 0 && Bare(Stripped(x))
    decreases |x.digits|
  {
    hide Value;
    if |x.digits| > 1 && x.digits[|x.digits| - 1] == 0 {
      StripOne(x);
      StrippedValue(Decimal(x.digits[..|x.digits| - 1], x.exp10 + 1));
    }
  }

  /** The first `p` digits, rounded by the digit behind them. */
  function RoundedDigits(d: Digits, p: nat): Digits
    requires p < |d|
  {
    if d[p] >= 5 then Incremented(d[..p]) else d[..p]
  }

  /** What rounding to `p` digits and shifting by `shift10` powers of ten should give. */
  function Rounded(d: Digits, e: int, p: nat, shift10: int): Decimal
    requires p < |d|
  {
    Stripped(Decimal(RoundedDigits(d, p), e + shift10 - (p - 1)))
  }

  method RoundToSignificant(d: Digits, e: int, precision: nat, shift10: int) returns (x: Decimal)
    requires 0 < precision < |d|
    ensures x == Rounded(d, e, precision, shift10) && Bare(x)
  {
    hide Incremented;
    IncrementAddsOne(d[..precision]);
    var sig := d[..precision];
    if d[precision] >= 5 {
      sig := IncrementDecimalString(sig);
    }
    var exp10 := e + shift10 - (precision - 1);
    while |sig| > 1 && sig[|sig| - 1] == 0
      invariant sig != [] && Stripped(Decimal(sig, exp10)) == Rounded(d, e, precision, shift10)
      decreases |sig|
    {
      sig, exp10 := sig[..|sig| - 1], exp10 + 1;
    }
    x := Decimal(sig, exp10);
  }

  lemma DigitsRounded(d: Digits, p: nat)
    requires 0 < p < |d| && d[0] != 0
    ensures RoundedDigits(d, p) != [] && RoundedDigits(d, p)[0] != 0
    ensures N(RoundedDigits(d, p)) == N(d[..p]) + (if d[p] >= 5 then 1 else 0)
  {
    hide N, Incremented;
    IncrementAddsOne(d[..p]);
  }

  /** The rounded value and its magnitude, shifted. */
  lemma RoundedShifts(d: Digits, e: int, p: nat, shift10: nat)
    requires 0 < p < |d| && d[0] != 0
    ensures var x, y := Rounded(d, e, p, 0), Rounded(d, e, p, shift10);
      && x.digits != [] && x.digits[0] != 0 && y.digits != [] && y.digits[0] != 0 && Bare(x) && Bare(y)
      && Value(x) == Times(N(RoundedDigits(d, p)) as real, P10(e - (p - 1)))
      && Value(y) == Times(Value(x), P10(shift10))
      && ScientificExponent(y) == ScientificExponent(x) + shift10
  {
    hide N, P10, Stripped, RoundedDigits, Times;
    DigitsRounded(d, p);
    var sig := RoundedDigits(d, p);
    StrippedValue(Decimal(sig, e - (p - 1)));
    StrippedValue(Decimal(sig, e + shift10 - (p - 1)));
    P10Add(e - (p - 1), shift10);
    TimesAssociates(N(sig) as real, P10(e - (p - 1)), P10(shift10));
  }

  lemma HalfReal(v: real, n: real, g: real, u: real, up: bool)
    requires u > 0.0 && Times(10.0 * n + g, u) <= v < Times(10.0 * n + g + 1.0, u)
    requires if up then 5.0 <= g <= 9.0 else 0.0 <= g <= 4.0
    ensures var r := if up then n + 1.0 else n; -(5.0 * u) < Times(r, 10.0 * u) - v <= 5.0 * u
  {
    hide Times;
    TimesSum(10.0 * n, g, u);
    TimesSum(10.0 * n + g, 1.0, u);
    TimesTen(n, u);
    TimesTen(n + 1.0, u);
    TimesSum(n, 1.0, u);
    TimesOne(u);
    TimesDigit(u);
    TimesLess(0.0, g, u);
    TimesLess(g, 4.0, u);
    TimesLess(5.0, g, u);
    TimesLess(g, 9.0, u);
  }

  /** Rounding errs by at most half a unit of the last digit kept, and upwards on a tie. */
  lemma RoundingError(v: real, d: Digits, e: int, p: nat)
    requires Leading(v, d, e) && 0 < p && |d| == p + 1
    ensures var u := P10(e - (p - 1)); var x := Times(N(RoundedDigits(d, p)) as real, u);
      -(u / 2.0) < x - v <= u / 2.0
  {
    hide P10, RoundedDigits, N, Times;
    DigitsRounded(d, p);
    assert d[..p] + [d[p]] == d;
    NAppend(d[..p], d[p]);
    P10Next(e - p);
    var n, g := N(d[..p]) as real, d[p] as real;
    assert N(d) as real == 10.0 * n + g && (N(d[..p]) + 1) as real == n + 1.0;
    HalfReal(v, n, g, P10(e - p), d[p] >= 5);
  }
}
