/** How a rounded ratio is printed, and what a reader of the text gets back. */
module RatioText {
  import opened Ratio

  // ------------------------------------------------------------------- numerals

  function Char(d: digit): char { ('0' as int + d) as char }

  function DigitOf(c: char): nat { if '0' <= c <= '9' then c as int - '0' as int else 0 }

  function Text(d: Digits): (s: string)
    ensures |s| == |d| && forall i :: 0 <= i < |d| ==> s[i] == Char(d[i])
  {
    seq(|d|, i requires 0 <= i < |d| => Char(d[i]))
  }

  function Zeros(k: nat): (s: string)
    ensures |s| == k && forall i :: 0 <= i < k ==> s[i] == '0'
  {
    seq(k, _ => '0')
  }

  /** The number a reader takes a string of digits for. */
  function Parse(s: string): nat {
    if s == [] then 0 else 10 * Parse(s[..|s| - 1]) + DigitOf(s[|s| - 1])
  }

  lemma {:induction false} ParseText(d: Digits)
    ensures Parse(Text(d)) == N(d)
  {
    if d != [] {
      var init := d[..|d| - 1];
      ParseText(init);
      assert Text(d)[..|d| - 1] == Text(init);
      assert DigitOf(Char(d[|d| - 1])) == d[|d| - 1];
    }
  }

  lemma {:induction false} TrailingZeros(d: Digits, k: nat)
    ensures N(d + ZeroDigits(k)) == N(d) * Tens(k)
  {
    if k == 0 {
      assert d + ZeroDigits(0) == d;
    } else {
      TrailingZeros(d, k - 1);
      assert d + ZeroDigits(k) == (d + ZeroDigits(k - 1)) + [0];
      NAppend(d + ZeroDigits(k - 1), 0);
      MulTen(N(d), Tens(k - 1));
    }
  }

  lemma {:induction false} LeadingZeros(k: nat, d: Digits)
    ensures N(ZeroDigits(k) + d) == N(d)
    decreases |d|, k
  {
    if d != [] {
      var init, last := d[..|d| - 1], d[|d| - 1];
      LeadingZeros(k, init);
      assert ZeroDigits(k) + d == (ZeroDigits(k) + init) + [last];
      NAppend(ZeroDigits(k) + init, last);
    } else if k > 0 {
      LeadingZeros(k - 1, []);
      assert ZeroDigits(k) + [] == (ZeroDigits(k - 1) + []) + [0];
      NAppend(ZeroDigits(k - 1) + [], 0);
    }
  }

  /** Position of the first `c`, or the length of the string. */
  function Find(s: string, c: char): (p: nat)
    ensures p <= |s| && (forall i :: 0 <= i < p ==> s[i] != c) && (p < |s| ==> s[p] == c)
  {
    if s == [] then 0 else if s[0] == c then 0 else 1 + Find(s[1..], c)
  }

  lemma FindAt(s: string, c: char, p: nat)
    requires p < |s| && s[p] == c && forall i :: 0 <= i < p ==> s[i] != c
    ensures Find(s, c) == p
  {
    assert Find(s, c) >= p;
  }

  lemma FindNone(s: string, c: char)
    requires forall i :: 0 <= i < |s| ==> s[i] != c
    ensures Find(s, c) == |s|
  {
  }

  /** The number in a string with or without decimal point. */
  function Reading(s: string): real {
    var p := Find(s, '.');
    if p == |s| then Parse(s) as real
    else Times(Parse(s[..p] + s[p + 1..]) as real, P10(-(|s| - p - 1)))
  }

  // ---------------------------------------------------------------- fixed point

  /** `to_fixed_string`. */
  function FixedText(x: Decimal): string
    requires x.digits != []
  {
    var s := Text(x.digits);
    if x.exp10 >= 0 then s + Zeros(x.exp10)
    else
      var point := |s| + x.exp10;
      if point > 0 then s[..point] + "." + s[point..]
      else "0." + Zeros(-point) + s
  }

  lemma PlainReads(d: Digits)
    ensures Reading(Text(d)) == N(d) as real
  {
    hide Parse;
    FindNone(Text(d), '.');
    ParseText(d);
  }

  /** Digits with a point in them. */
  lemma PointReads(a: Digits, b: Digits)
    ensures Reading(Text(a) + "." + Text(b)) == Times(N(a + b) as real, P10(-|b|))
  {
    hide Parse, Times, P10;
    var s := Text(a) + "." + Text(b);
    FindAt(s, '.', |a|);
    assert s[..|a|] + s[|a| + 1..] == Text(a + b);
    ParseText(a + b);
  }

  lemma WholeProduct(m: nat, k: nat)
    ensures (m * Tens(k)) as real == Times(m as real, P10(k))
  {
    TensIsP10(k);
    WholeTimes(m, Tens(k));
  }

  /** The digits in front of the point and those behind it. */
  lemma FixedShape(x: Decimal)
    requires x.digits != []
    ensures var d, point := x.digits, |x.digits| + x.exp10;
      FixedText(x) ==
        if x.exp10 >= 0 then Text(d + ZeroDigits(x.exp10))
        else if point > 0 then Text(d[..point]) + "." + Text(d[point..])
        else Text([0]) + "." + Text(ZeroDigits(-point) + d)
  {
    var d, point := x.digits, |x.digits| + x.exp10;
    if x.exp10 >= 0 {
      assert Text(d) + Zeros(x.exp10) == Text(d + ZeroDigits(x.exp10));
    } else if point > 0 {
      assert Text(d)[..point] == Text(d[..point]) && Text(d)[point..] == Text(d[point..]);
    } else {
      assert "0." + Zeros(-point) + Text(d) == Text([0]) + "." + Text(ZeroDigits(-point) + d);
    }
  }

  /** A reader of the fixed text gets the value. */
  lemma FixedReads(x: Decimal)
    requires x.digits != []
    ensures Reading(FixedText(x)) == Value(x)
  {
    hide Times, P10, Reading, N, FixedText, Text;
    var d, point := x.digits, |x.digits| + x.exp10;
    FixedShape(x);
    if x.exp10 >= 0 {
      PlainReads(d + ZeroDigits(x.exp10));
      TrailingZeros(d, x.exp10);
      WholeProduct(N(d), x.exp10);
    } else if point > 0 {
      assert d[..point] + d[point..] == d;
      PointReads(d[..point], d[point..]);
    } else {
      PointReads([0], ZeroDigits(-point) + d);
      assert [0] + (ZeroDigits(-point) + d) == ZeroDigits(1 - point) + d;
      LeadingZeros(1 - point, d);
    }
  }

  lemma FixedHasNoE(x: Decimal)
    requires x.digits != []
    ensures Find(FixedText(x), 'e') == |FixedText(x)|
  {
    FindNone(FixedText(x), 'e');
  }

  // ----------------------------------------------------------------- scientific

  /** `std::to_string` of an `int`. */
  function IntText(e: int): string {
    if e == 0 then "0" else if e < 0 then "-" + Text(ToDigits(-e)) else Text(ToDigits(e))
  }

  function ParseInt(s: string): int {
    if s != [] && s[0] == '-' then -(Parse(s[1..]) as int) else Parse(s)
  }

  lemma IntReads(e: int)
    ensures ParseInt(IntText(e)) == e
  {
    hide Parse;
    if e < 0 {
      ParseText(ToDigits(-e));
      assert IntText(e)[1..] == Text(ToDigits(-e));
    } else if e > 0 {
      ParseText(ToDigits(e));
    } else {
      ParseText([0]);
      assert Text([0]) == "0";
      assert N([0]) == 0 by { assert [0][..0] == []; }
    }
  }

  /** `to_scientific_string`. */
  function ScientificText(x: Decimal): string
    requires x.digits != []
  {
    var s := Text(x.digits);
    (if |s| == 1 then s else s[..1] + "." + s[1..]) + "e" + IntText(ScientificExponent(x))
  }

  /** The number in a text, with or without exponent. */
  function Numeral(s: string): real {
    var p := Find(s, 'e');
    if p == |s| then Reading(s) else Times(Reading(s[..p]), P10(ParseInt(s[p + 1..])))
  }

  function Mantissa(d: Digits): string
    requires d != []
  {
    if |d| == 1 then Text(d) else Text(d[..1]) + "." + Text(d[1..])
  }

  lemma MantissaReads(d: Digits)
    requires d != []
    ensures Reading(Mantissa(d)) == Times(N(d) as real, P10(-(|d| - 1)))
  {
    hide Times, P10, Reading, N;
    if |d| == 1 {
      PlainReads(d);
      P10Zero();
      TimesOne(N(d) as real);
    } else {
      PointReads(d[..1], d[1..]);
      assert d[..1] + d[1..] == d;
    }
  }

  lemma ScientificReads(x: Decimal)
    requires x.digits != []
    ensures Numeral(ScientificText(x)) == Value(x)
    ensures Find(ScientificText(x), 'e') < |ScientificText(x)|
  {
    hide Times, P10, Reading, N, Find, IntText, ParseInt;
    var d, e := x.digits, ScientificExponent(x);
    var m, s := Mantissa(d), ScientificText(x);
    assert Text(d)[..1] == Text(d[..1]) && Text(d)[1..] == Text(d[1..]);
    assert s == m + "e" + IntText(e);
    FindAt(s, 'e', |m|);
    assert s[..|m|] == m && s[|m| + 1..] == IntText(e);
    MantissaReads(d);
    IntReads(e);
    TimesAssociates(N(d) as real, P10(-(|d| - 1)), P10(e));
    P10Add(-(|d| - 1), e);
  }

  // ------------------------------------------------------------ canonical numerals

  lemma ShiftBack(x: real, k: int)
    ensures Times(Times(x, P10(k)), P10(-k)) == x
  {
    hide Times, P10;
    TimesAssociates(x, P10(k), P10(-k));
    P10Add(k, -k);
    P10Zero();
    TimesOne(x);
  }

  predicate IsDigit(c: char) { '0' <= c <= '9' }

  predicate DigitText(s: string) { forall i :: 0 <= i < |s| ==> IsDigit(s[i]) }

  /** Digits with at most one point, a digit on both sides of it, no zero at the end of the
      digits behind it, and no leading zero in front of another digit. */
  predicate CanonicalFixed(s: string) {
    var p := Find(s, '.');
    && p > 0 && DigitText(s[..p]) && (p > 1 ==> s[0] != '0')
    && (p < |s| ==> p + 1 < |s| && DigitText(s[p + 1..]) && s[|s| - 1] != '0')
  }

  /** A sign only in front of a number, and no leading zero. */
  predicate CanonicalInt(s: string) {
    var d := if s != [] && s[0] == '-' then s[1..] else s;
    d != [] && DigitText(d) && (|d| > 1 || s[0] == '-' ==> d[0] != '0')
  }

  /** One digit other than zero in front of the point, and an exponent. */
  predicate CanonicalScientific(s: string) {
    var p := Find(s, 'e');
    && p < |s| && CanonicalFixed(s[..p]) && Find(s[..p], '.') == 1 && s[0] != '0'
    && CanonicalInt(s[p + 1..])
  }

  predicate Canonical(s: string) {
    if Find(s, 'e') == |s| then CanonicalFixed(s) else CanonicalScientific(s)
  }

  lemma {:induction false} ParseBelow(s: string)
    requires DigitText(s)
    ensures Parse(s) < Tens(|s|)
  {
    if s != [] {
      ParseBelow(s[..|s| - 1]);
    }
  }

  lemma {:induction false} ParseAtLeast(s: string)
    requires DigitText(s) && s != [] && s[0] != '0'
    ensures Parse(s) >= Tens(|s| - 1)
  {
    if |s| > 1 {
      ParseAtLeast(s[..|s| - 1]);
    } else {
      assert s[..0] == [];
    }
  }

  lemma {:induction false} TensGrow(a: nat, b: nat)
    requires a <= b
    ensures Tens(a) <= Tens(b)
  {
    if a < b {
      TensGrow(a, b - 1);
    }
  }

  lemma {:induction false} ParseInjective(s: string, t: string)
    requires |s| == |t| && DigitText(s) && DigitText(t) && Parse(s) == Parse(t)
    ensures s == t
  {
    if s != [] {
      var n := |s| - 1;
      assert IsDigit(s[n]) && IsDigit(t[n]);
      assert Parse(s) % 10 == DigitOf(s[n]) && Parse(t) % 10 == DigitOf(t[n]);
      ParseInjective(s[..n], t[..n]);
      assert s == s[..n] + [s[n]] && t == t[..n] + [t[n]];
    }
  }

  /** Without leading zeros the value decides the length too. */
  lemma ParseNotLonger(s: string, t: string)
    requires DigitText(s) && DigitText(t) && Parse(s) == Parse(t)
    requires |s| > |t| ==> s[0] != '0'
    ensures |s| <= |t|
  {
    if |s| > |t| {
      ParseAtLeast(s);
      ParseBelow(t);
      TensGrow(|t|, |s| - 1);
    }
  }

  /** The digits of a fixed numeral without the point, and how many are behind it. */
  function Unpointed(s: string): string {
    var p := Find(s, '.');
    if p == |s| then s else s[..p] + s[p + 1..]
  }

  function Decimals(s: string): nat {
    var p := Find(s, '.');
    if p == |s| then 0 else |s| - p - 1
  }

  lemma ReadingParts(s: string)
    ensures Reading(s) == Times(Parse(Unpointed(s)) as real, P10(-Places(s)))
  {
    hide Times, P10, Parse;
    P10Zero();
    TimesOne(Parse(s) as real);
  }

  function Places(s: string): int { Decimals(s) }

  /** Equal products of whole numbers and powers of ten. */
  lemma SameScaled(m: nat, n: nat, j: nat, k: nat, a: int, b: int)
    requires j <= k && a == j && b == k && Times(m as real, P10(-a)) == Times(n as real, P10(-b))
    ensures n == m * Tens(k - j)
  {
    hide Times, P10, Tens;
    var x := Times(m as real, P10(-a));
    TimesAssociates(m as real, P10(-a), P10(b));
    P10Add(-a, b);
    WholeProduct(m, k - j);
    ShiftBack(n as real, -b);
  }

  lemma UnpointedParts(s: string)
    requires CanonicalFixed(s)
    ensures var p, w, k := Find(s, '.'), Unpointed(s), Decimals(s);
      && DigitText(w) && |w| == p + k && p > 0 && w[0] == s[0] && (p > 1 ==> w[0] != '0')
      && (k > 0 ==> Parse(w) % 10 != 0)
      && s == (if k == 0 then w else w[..p] + "." + w[p..])
  {
    var p, w, k := Find(s, '.'), Unpointed(s), Decimals(s);
    if p < |s| {
      assert s == s[..p] + "." + s[p + 1..];
      assert w[|w| - 1] == s[|s| - 1];
      assert IsDigit(s[p + 1..][|s| - p - 2]);
    } else {
      assert s[..p] == s;
    }
  }

  lemma MultipleOfTen(m: nat, k: nat)
    requires k > 0
    ensures m * Tens(k) % 10 == 0
  {
    MulTen(m, Tens(k - 1));
  }

  lemma SamePlaces(s: string, t: string)
    requires CanonicalFixed(s) && CanonicalFixed(t) && Reading(s) == Reading(t)
    ensures Decimals(t) <= Decimals(s)
  {
    hide Times, P10, Parse, Reading, CanonicalFixed, Unpointed, Decimals, Tens;
    if Decimals(s) < Decimals(t) {
      ReadingParts(s);
      ReadingParts(t);
      UnpointedParts(t);
      var m, k := Parse(Unpointed(s)), Decimals(t) - Decimals(s);
      SameScaled(m, Parse(Unpointed(t)), Decimals(s), Decimals(t), Places(s), Places(t));
      MultipleOfTen(m, k);
    }
  }

  /** Two fixed numerals of the same value are the same text. */
  lemma FixedUnique(s: string, t: string)
    requires CanonicalFixed(s) && CanonicalFixed(t) && Reading(s) == Reading(t)
    ensures s == t
  {
    hide Times, P10, Parse, Reading, CanonicalFixed, Unpointed, Decimals, DigitText;
    SamePlaces(s, t);
    SamePlaces(t, s);
    ReadingParts(s);
    ReadingParts(t);
    UnpointedParts(s);
    UnpointedParts(t);
    var a, b := Unpointed(s), Unpointed(t);
    SameScaled(Parse(a), Parse(b), Decimals(s), Decimals(t), Places(s), Places(t));
    ParseNotLonger(a, b);
    ParseNotLonger(b, a);
    ParseInjective(a, b);
  }

  /** Two integer numerals of the same value are the same text. */
  lemma IntUnique(s: string, t: string)
    requires CanonicalInt(s) && CanonicalInt(t) && ParseInt(s) == ParseInt(t)
    ensures s == t
  {
    hide Parse, DigitText;
    SignOf(s);
    SignOf(t);
    var a, b := if s[0] == '-' then s[1..] else s, if t[0] == '-' then t[1..] else t;
    ParseNotLonger(a, b);
    ParseNotLonger(b, a);
    ParseInjective(a, b);
    assert s[0] == '-' ==> s == ['-'] + a;
    assert t[0] == '-' ==> t == ['-'] + b;
  }

  lemma SignOf(s: string)
    requires CanonicalInt(s)
    ensures s != [] && (s[0] == '-' <==> ParseInt(s) < 0)
  {
    if s[0] == '-' {
      ParseAtLeast(s[1..]);
    }
  }

  /** The mantissa is at least one and below ten. */
  lemma MantissaRange(m: string)
    requires CanonicalFixed(m) && Find(m, '.') == 1 && m[0] != '0'
    ensures P10(0) <= Reading(m) < P10(1)
  {
    hide Times, P10, Parse, Reading, Decimals, Unpointed, CanonicalFixed, Tens, DigitText;
    UnpointedParts(m);
    var w, k := Unpointed(m), Decimals(m);
    ReadingParts(m);
    ParseAtLeast(w);
    ParseBelow(w);
    WholeProduct(1, k);
    WholeProduct(1, k + 1);
    var n, u := Parse(w) as real, P10(-Places(m));
    TimesLess(Tens(k) as real, n, u);
    TimesLess(n, Tens(k + 1) as real, u);
    TensIsP10(k);
    TensIsP10(k + 1);
    P10Add(k, -Places(m));
    P10Add(k + 1, -Places(m));
  }

  lemma ScaledRange(x: real, e: int)
    requires P10(0) <= x < P10(1)
    ensures P10(e) <= Times(x, P10(e)) < P10(e + 1)
  {
    hide Times, P10;
    TimesLess(P10(0), x, P10(e));
    TimesLess(x, P10(1), P10(e));
    P10Add(0, e);
    P10Add(1, e);
  }

  /** Two scientific numerals of the same value are the same text. */
  lemma ScientificUnique(s: string, t: string)
    requires CanonicalScientific(s) && CanonicalScientific(t) && Numeral(s) == Numeral(t)
    ensures s == t
  {
    hide Times, P10, Reading, CanonicalFixed, CanonicalInt, ParseInt;
    var p, q := Find(s, 'e'), Find(t, 'e');
    var e, f := ParseInt(s[p + 1..]), ParseInt(t[q + 1..]);
    MantissaRange(s[..p]);
    MantissaRange(t[..q]);
    ScaledRange(Reading(s[..p]), e);
    ScaledRange(Reading(t[..q]), f);
    ExponentUnique(Numeral(s), e, f);
    IntUnique(s[p + 1..], t[q + 1..]);
    ShiftBack(Reading(s[..p]), e);
    ShiftBack(Reading(t[..q]), e);
    FixedUnique(s[..p], t[..q]);
    assert s == s[..p] + "e" + s[p + 1..] && t == t[..q] + "e" + t[q + 1..];
  }

  lemma TextDigits(d: Digits)
    ensures DigitText(Text(d)) && forall i :: 0 <= i < |d| ==> (Text(d)[i] == '0' <==> d[i] == 0)
  {
  }

  lemma PlainCanonical(d: Digits)
    requires d != [] && d[0] != 0
    ensures CanonicalFixed(Text(d))
  {
    var s := Text(d);
    TextDigits(d);
    FindNone(s, '.');
    assert s[..|s|] == s;
  }

  lemma PointCanonical(a: Digits, b: Digits)
    requires a != [] && (|a| > 1 ==> a[0] != 0) && b != [] && b[|b| - 1] != 0
    ensures var s := Text(a) + "." + Text(b); CanonicalFixed(s) && Find(s, '.') == |a|
  {
    hide Text, Find;
    var s := Text(a) + "." + Text(b);
    TextDigits(a);
    TextDigits(b);
    FindAt(s, '.', |a|);
    assert s[..|a|] == Text(a) && s[|a| + 1..] == Text(b);
    assert s[0] == Text(a)[0] && s[|s| - 1] == Text(b)[|b| - 1];
  }

  /** Bare digits print canonically. */
  lemma FixedCanonical(x: Decimal)
    requires x.digits != [] && x.digits[0] != 0 && Bare(x)
    ensures CanonicalFixed(FixedText(x))
  {
    hide CanonicalFixed, FixedText, Text;
    var d, point := x.digits, |x.digits| + x.exp10;
    FixedShape(x);
    if x.exp10 >= 0 {
      PlainCanonical(d + ZeroDigits(x.exp10));
    } else if point > 0 {
      PointCanonical(d[..point], d[point..]);
    } else {
      PointCanonical([0], ZeroDigits(-point) + d);
    }
  }

  lemma IntCanonical(e: int)
    ensures CanonicalInt(IntText(e))
  {
    hide ToDigits, Text;
    if e != 0 {
      var d := ToDigits(if e < 0 then -e else e);
      TextDigits(d);
      if e < 0 {
        assert IntText(e)[1..] == Text(d);
      }
    }
  }

  lemma MantissaCanonical(x: Decimal)
    requires x.digits != [] && x.digits[0] != 0 && Bare(x)
    ensures var m := Mantissa(x.digits); CanonicalFixed(m) && Find(m, '.') == 1 && m[0] != '0'
  {
    hide CanonicalFixed, Find;
    var d := x.digits;
    if |d| == 1 {
      PlainCanonical(d);
      FindNone(Text(d), '.');
    } else {
      PointCanonical(d[..1], d[1..]);
    }
    TextDigits(d);
    TextDigits(d[..1]);
  }

  lemma ScientificCanonical(x: Decimal)
    requires x.digits != [] && x.digits[0] != 0 && Bare(x)
    ensures CanonicalScientific(ScientificText(x))
  {
    hide IntText, CanonicalFixed, CanonicalInt, Find;
    var d, e := x.digits, ScientificExponent(x);
    var m, s := Mantissa(d), ScientificText(x);
    assert Text(d)[..1] == Text(d[..1]) && Text(d)[1..] == Text(d[1..]);
    assert s == m + "e" + IntText(e);
    FindAt(s, 'e', |m|);
    assert s[..|m|] == m && s[|m| + 1..] == IntText(e);
    MantissaCanonical(x);
    IntCanonical(e);
  }

  // ---------------------------------------------------------------------- ratios

  datatype Unit = Percent | Ppm | Ppb | Plain {
    function Suffix(): string {
      match this case Percent => "%" case Ppm => "ppm" case Ppb => "ppb" case Plain => "x"
    }
    /** The unit is 10 to the minus this. */
    function Shift(): (k: int)
      ensures k >= 0
    {
      match this case Percent => 2 case Ppm => 6 case Ppb => 9 case Plain => 0
    }
  }

  /** The text says `x`: a numeral, and the unit that belongs to the size of `x`. */
  ghost predicate Prints(body: string, unit: Unit, x: real) {
    && Times(Numeral(body), P10(-unit.Shift())) == x
    && (unit == Percent <==> P10(-3) <= x < P10(0))
    && (unit == Ppm <==> P10(-6) <= x < P10(-3))
    && (unit == Ppb <==> P10(-9) <= x < P10(-6))
    && (unit == Plain <==> x < P10(-9) || P10(0) <= x)
    && (Find(body, 'e') < |body| <==> x < P10(-9))
  }

  ghost function Multiple(n: nat, u: real): real { Times(n as real, u) }

  /** `x` is the whole multiple of `u` nearest to `v`, the upper one on a tie. */
  ghost predicate NearestMultiple(x: real, v: real, u: real) {
    -(u / 2.0) < x - v <= u / 2.0 && exists n: nat :: x == Multiple(n, u)
  }

  /** `x` is `v` rounded to `precision` significant digits. */
  ghost predicate RoundedTo(x: real, v: real, precision: nat) {
    forall e :: P10(e) <= v < P10(e + 1) ==> NearestMultiple(x, v, P10(e - (precision - 1)))
  }

  /** There is only one such multiple. */
  lemma NearestUnique(x: real, y: real, v: real, u: real)
    requires u > 0.0 && NearestMultiple(x, v, u) && NearestMultiple(y, v, u)
    ensures x == y
  {
    hide Times;
    var m: nat :| x == Multiple(m, u);
    var n: nat :| y == Multiple(n, u);
    if m < n {
      MultiplesApart(m, n, u);
    } else if n < m {
      MultiplesApart(n, m, u);
    }
  }

  lemma MultiplesApart(m: nat, n: nat, u: real)
    requires m < n && u > 0.0
    ensures Times(m as real, u) + u <= Times(n as real, u)
  {
    hide Times;
    var a, b := m as real, n as real;
    TimesSum(a, 1.0, u);
    TimesOne(u);
    TimesLess(a + 1.0, b, u);
  }

  lemma DecimalMagnitude(x: Decimal)
    requires x.digits != [] && x.digits[0] != 0
    ensures P10(ScientificExponent(x)) <= Value(x) < P10(ScientificExponent(x) + 1)
  {
    hide N, P10, Times;
    var n, u := N(x.digits) as real, P10(x.exp10);
    TimesLess(n, n + 1.0, u);
    LeadingMagnitude(Value(x), x.digits, ScientificExponent(x));
  }

  lemma RangeOfExponent(x: real, e: int, k: int)
    requires P10(e) <= x < P10(e + 1)
    ensures P10(k) <= x <==> k <= e
  {
    hide P10;
    if k <= e {
      P10Monotone(k, e);
    } else {
      P10Monotone(e + 1, k);
    }
  }

  function UnitFor(e: int): Unit {
    if -3 <= e <= -1 then Percent else if -6 <= e <= -4 then Ppm else if -9 <= e <= -7 then Ppb else Plain
  }

  /** The unit chosen by the exponent is the unit for the size of the number. */
  lemma PrintsFixed(d: Digits, e: int, p: nat, unit: Unit)
    requires 0 < p < |d| && d[0] != 0
    requires unit == UnitFor(ScientificExponent(Rounded(d, e, p, 0)))
    requires unit == Plain ==> ScientificExponent(Rounded(d, e, p, 0)) >= -9
    ensures Rounded(d, e, p, unit.Shift()).digits != []
    ensures Prints(FixedText(Rounded(d, e, p, unit.Shift())), unit, Value(Rounded(d, e, p, 0)))
  {
    hide N, P10, Times, Rounded, FixedText, Value, Numeral, Reading, Find;
    var plain, y := Rounded(d, e, p, 0), Rounded(d, e, p, unit.Shift());
    RoundedShifts(d, e, p, unit.Shift());
    FixedNumeral(y);
    ShiftBack(Value(plain), unit.Shift());
    UnitRanges(plain);
  }

  lemma FixedNumeral(y: Decimal)
    requires y.digits != []
    ensures Numeral(FixedText(y)) == Value(y) && Find(FixedText(y), 'e') == |FixedText(y)|
  {
    hide Reading, Value, FixedText, Find;
    FixedHasNoE(y);
    FixedReads(y);
  }

  lemma UnitRanges(x: Decimal)
    requires x.digits != [] && x.digits[0] != 0
    ensures var e := ScientificExponent(x); var v := Value(x);
      && (P10(-9) <= v <==> -9 <= e) && (P10(-6) <= v <==> -6 <= e)
      && (P10(-3) <= v <==> -3 <= e) && (P10(0) <= v <==> 0 <= e)
  {
    hide P10, Value;
    DecimalMagnitude(x);
    RangeOfExponent(Value(x), ScientificExponent(x), -9);
    RangeOfExponent(Value(x), ScientificExponent(x), -6);
    RangeOfExponent(Value(x), ScientificExponent(x), -3);
    RangeOfExponent(Value(x), ScientificExponent(x), 0);
  }

  lemma PrintsScientific(x: Decimal)
    requires x.digits != [] && x.digits[0] != 0 && ScientificExponent(x) < -9
    ensures Prints(ScientificText(x), Plain, Value(x))
  {
    hide P10, Times, Value, Numeral, Find, ScientificText;
    ScientificReads(x);
    P10Zero();
    TimesOne(Value(x));
    UnitRanges(x);
  }

  lemma RoundsRatio(v: real, d: Digits, e: int, p: nat)
    requires Leading(v, d, e) && 0 < p && |d| == p + 1
    ensures Rounded(d, e, p, 0).digits != [] && Rounded(d, e, p, 0).digits[0] != 0
    ensures RoundedTo(Value(Rounded(d, e, p, 0)), v, p)
  {
    hide P10, Times, Value, N, Rounded, RoundedDigits;
    assert d[0] != 0;
    RoundedShifts(d, e, p, 0);
    RoundingError(v, d, e, p);
    assert Value(Rounded(d, e, p, 0)) == Multiple(N(RoundedDigits(d, p)), P10(e - (p - 1)));
    LeadingMagnitude(v, d, e);
    forall f | P10(f) <= v < P10(f + 1) ensures f == e {
      ExponentUnique(v, e, f);
    }
  }

  lemma LeadingNonZero(v: real, d: Digits, e: int)
    requires Leading(v, d, e)
    ensures d != [] && d[0] != 0
  {
  }

  /** The unit sign and its power of ten, for each range of the number. */
  ghost predicate Spelled(text: string, body: string, x: real) {
    var n := Numeral(body);
    if P10(-3) <= x < P10(0) then text == body + "%" && x == Times(n, P10(-2))
    else if P10(-6) <= x < P10(-3) then text == body + "ppm" && x == Times(n, P10(-6))
    else if P10(-9) <= x < P10(-6) then text == body + "ppb" && x == Times(n, P10(-9))
    else text == body + "x" && x == n
  }

  lemma PrintsSpelled(body: string, unit: Unit, x: real)
    requires Prints(body, unit, x)
    ensures Spelled(body + unit.Suffix(), body, x)
  {
    hide P10, Times, Numeral, Find;
    P10Zero();
    TimesOne(Numeral(body));
  }

  lemma CanonicalTexts(x: Decimal)
    requires x.digits != [] && x.digits[0] != 0 && Bare(x)
    ensures Canonical(FixedText(x)) && Canonical(ScientificText(x))
  {
    hide FixedText, ScientificText, CanonicalFixed, CanonicalScientific, Find;
    FixedHasNoE(x);
    FixedCanonical(x);
    ScientificCanonical(x);
    ScientificReads(x);
  }

  /** A number has only one canonical text with its unit. */
  lemma TextUnique(s: string, t: string, a: Unit, b: Unit, x: real)
    requires Canonical(s) && Canonical(t) && Prints(s, a, x) && Prints(t, b, x)
    ensures s == t && a == b
  {
    hide Times, P10, Numeral, CanonicalFixed, CanonicalScientific, Find;
    assert a == b;
    var k := -a.Shift();
    ShiftBack(Numeral(s), k);
    ShiftBack(Numeral(t), k);
    if Find(s, 'e') == |s| {
      NumeralIsReading(s);
      NumeralIsReading(t);
      FixedUnique(s, t);
    } else {
      ScientificUnique(s, t);
    }
  }

  lemma NumeralIsReading(s: string)
    requires Find(s, 'e') == |s|
    ensures Numeral(s) == Reading(s)
  {
  }

  /** `ratio_to_string`.  The number printed, times its unit, is `num / den` rounded to the
      given number of significant digits, and the text is the only canonical one for it. */
  method RatioToString(num: nat, den: nat, precision: nat)
    returns (text: string, ghost body: string, ghost unit: Unit, ghost x: real)
    requires num < WORD && den < WORD && precision > 0
    ensures den == 0 ==> text == "N/A"
    ensures den > 0 && num == 0 ==> text == "0x"
    ensures den > 0 && num > 0 ==> Spelled(text, body, x)
    ensures den > 0 && num > 0 ==>
      && text == body + unit.Suffix() && Prints(body, unit, x) && Canonical(body)
      && RoundedTo(x, Quotient(num, den), precision)
  {
    hide Leading, Quotient, Rounded, Prints, RoundedTo, Value, FixedText, ScientificText, Canonical, Spelled;
    body, unit, x := "", Plain, 0.0;
    if den == 0 {
      return "N/A", "", Plain, 0.0;
    }
    if num == 0 {
      return "0x", "", Plain, 0.0;
    }
    var digits, e := ExtractSignificantDigits(num, den, precision + 1);
    LeadingNonZero(Quotient(num, den), digits, e);
    RoundsRatio(Quotient(num, den), digits, e, precision);
    x := Value(Rounded(digits, e, precision, 0));
    ghost var sci := ScientificExponent(Rounded(digits, e, precision, 0));
    unit := UnitFor(sci);
    RoundedShifts(digits, e, precision, 2);
    RoundedShifts(digits, e, precision, 6);
    RoundedShifts(digits, e, precision, 9);
    if unit != Plain || sci >= -9 {
      PrintsFixed(digits, e, precision, unit);
    }

    var percent := RoundToSignificant(digits, e, precision, 2);
    if -1 <= ScientificExponent(percent) < 2 {
      CanonicalTexts(percent);
      body := FixedText(percent);
      PrintsSpelled(body, unit, x);
      return FixedText(percent) + "%", body, unit, x;
    }
    var ppm := RoundToSignificant(digits, e, precision, 6);
    if 0 <= ScientificExponent(ppm) < 3 {
      CanonicalTexts(ppm);
      body := FixedText(ppm);
      PrintsSpelled(body, unit, x);
      return FixedText(ppm) + "ppm", body, unit, x;
    }
    var ppb := RoundToSignificant(digits, e, precision, 9);
    if 0 <= ScientificExponent(ppb) < 3 {
      CanonicalTexts(ppb);
      body := FixedText(ppb);
      PrintsSpelled(body, unit, x);
      return FixedText(ppb) + "ppb", body, unit, x;
    }
    var plain := RoundToSignificant(digits, e, precision, 0);
    CanonicalTexts(plain);
    if ScientificExponent(plain) < -3 {
      PrintsScientific(plain);
      body := ScientificText(plain);
      PrintsSpelled(body, unit, x);
      return ScientificText(plain) + "x", body, unit, x;
    }
    body := FixedText(plain);
    PrintsSpelled(body, unit, x);
    return FixedText(plain) + "x", body, unit, x;
  }
}
