/**
 * The hour values inside annotations. The annotation patterns capture a run
 * of `[0-9.]`, which Python then hands to `float()`; that call is partial.
 */
module Numbers {
  import opened Wrappers
  import opened Text

  predicate IsDigit(c: char) {
    '0' <= c <= '9'
  }

  predicate NotDigit(c: char) {
    !IsDigit(c)
  }

  /** The character class `[0-9\.]` of the annotation patterns. */
  predicate IsNumberChar(c: char) {
    IsDigit(c) || c == '.'
  }

  predicate AllDigits(s: string) {
    forall i | 0 <= i < |s| :: IsDigit(s[i])
  }

  predicate AllNumberChars(s: string) {
    forall i | 0 <= i < |s| :: IsNumberChar(s[i])
  }

  /**
   * The `[0-9.]` strings `float()` accepts: at most one dot and at least one
   * digit (`"3"`, `"1.5"`, `"2."`, `".5"`, but not `"."` or `"1.2.3"`).
   */
  ghost predicate IsDecimal(s: string) {
    && AllNumberChars(s)
    && (forall i, j | 0 <= i < j < |s| :: !(s[i] == '.' && s[j] == '.'))
    && (exists i | 0 <= i < |s| :: IsDigit(s[i]))
  }

  function DigitValue(c: char): nat
    requires IsDigit(c)
  {
    c as int - '0' as int
  }

  function DigitChar(d: nat): (c: char)
    requires d < 10
    ensures IsDigit(c) && DigitValue(c) == d
  {
    ('0' as int + d) as char
  }

  /** The integer a run of decimal digits denotes. */
  function IntValue(s: string): nat
    requires AllDigits(s)
  {
    if s == [] then 0 else IntValue(s[..|s| - 1]) * 10 + DigitValue(s[|s| - 1])
  }

  /** The value of the digits after a decimal point. */
  function FracValue(s: string): (r: real)
    requires AllDigits(s)
    ensures 0.0 <= r < 1.0
  {
    if s == [] then 0.0 else (DigitValue(s[0]) as real + FracValue(s[1..])) / 10.0
  }

  /**
   * Python's `float(s)` on a captured `[0-9.]` run, as an exact real: the
   * integer digits before the dot plus the fraction after it. `None` is the
   * `ValueError` that `float()` raises.
   */
  function ParseHours(s: string): (r: Option<real>)
    ensures r.Some? <==> IsDecimal(s)
    ensures r.Some? ==> r.value >= 0.0
  {
    var k := SkipWhile(s, 0, IsDigit);
    var intPart := s[..k];
    assert AllDigits(intPart);
    if k == |s| then
      if k == 0 then None
      else
        assert IsDigit(s[0]);
        Some(IntValue(intPart) as real)
    else if s[k] != '.' then
      None
    else
      var frac := s[k + 1..];
      var m := SkipWhile(frac, 0, IsDigit);
      if m < |frac| then
        assert !IsNumberChar(s[k + 1 + m]) || (s[k] == '.' && s[k + 1 + m] == '.');
        None
      else if k == 0 && |frac| == 0 then
        None
      else
        assert AllDigits(frac);
        assert k > 0 ==> IsDigit(s[0]);
        assert k == 0 ==> IsDigit(s[k + 1]);
        Some(IntValue(intPart) as real + FracValue(frac))
  }

  function Pow10(n: nat): (r: nat)
    ensures r >= 1
  {
    if n == 0 then 1 else 10 * Pow10(n - 1)
  }

  lemma DigitsAppend(w: string, f: string)
    requires AllDigits(w) && AllDigits(f)
    ensures AllDigits(w + f)
  {
    forall i | 0 <= i < |w + f| ensures IsDigit((w + f)[i]) {
      if i < |w| { assert (w + f)[i] == w[i]; } else { assert (w + f)[i] == f[i - |w|]; }
    }
  }

  lemma ShiftDigit(a: int, p: int, b: int, d: int)
    ensures (a * p + b) * 10 + d == a * (p * 10) + (b * 10 + d)
  {
    assert (a * p) * 10 == a * (p * 10);
  }

  /** Appending digits shifts the value left by one decimal place per digit. */
  lemma {:induction false} IntValueAppend(w: string, f: string)
    requires AllDigits(w) && AllDigits(f)
    ensures AllDigits(w + f)
    ensures IntValue(w + f) == IntValue(w) * Pow10(|f|) + IntValue(f)
    decreases |f|
  {
    DigitsAppend(w, f);
    if f == [] {
      assert w + f == w;
    } else {
      var g := f[..|f| - 1];
      var d := DigitValue(f[|f| - 1]);
      var wf := w + f;
      assert AllDigits(g);
      IntValueAppend(w, g);
      assert wf[..|wf| - 1] == w + g;
      assert wf[|wf| - 1] == f[|f| - 1];
      var iw, ig, p := IntValue(w), IntValue(g), Pow10(|g|);
      assert IntValue(wf) == IntValue(w + g) * 10 + d;
      assert IntValue(w + g) == iw * p + ig;
      assert IntValue(f) == ig * 10 + d;
      assert Pow10(|f|) == p * 10;
      ShiftDigit(iw, p, ig, d);
    }
  }

  /** `x` with its decimal point moved `e` places to the left, `x / 10^e`. */
  function ShiftPoint(x: real, e: nat): real {
    if e == 0 then x else ShiftPoint(x, e - 1) / 10.0
  }

  lemma {:induction false} ShiftAdd(a: real, b: real, e: nat)
    ensures ShiftPoint(a + b, e) == ShiftPoint(a, e) + ShiftPoint(b, e)
  {
    if e > 0 {
      ShiftAdd(a, b, e - 1);
    }
  }

  lemma {:induction false} ShiftTen(z: real, e: nat)
    ensures ShiftPoint(10.0 * z, e) == 10.0 * ShiftPoint(z, e)
  {
    if e > 0 {
      ShiftTen(z, e - 1);
    }
  }

  /** Shifting `x * 10^e` back by `e` places gives `x`. */
  lemma {:induction false} ShiftPow(x: nat, e: nat)
    ensures ShiftPoint((x * Pow10(e)) as real, e) == x as real
  {
    if e > 0 {
      var y := x * Pow10(e - 1);
      assert x * Pow10(e) == 10 * y;
      ShiftTen(y as real, e - 1);
      ShiftPow(x, e - 1);
    }
  }

  /** The fraction digits `f` denote `IntValue(f) / 10^|f|`. */
  lemma {:induction false} FracAsShift(f: string)
    requires AllDigits(f)
    ensures FracValue(f) == ShiftPoint(IntValue(f) as real, |f|)
    decreases |f|
  {
    if f != [] {
      var t := f[1..];
      var n := |t|;
      FracAsShift(t);
      assert [f[0]] + t == f;
      assert [f[0]][..0] == [];
      IntValueAppend([f[0]], t);
      var d := DigitValue(f[0]);
      assert IntValue(f) == d * Pow10(n) + IntValue(t);
      ShiftAdd((d * Pow10(n)) as real, IntValue(t) as real, n);
      ShiftPow(d, n);
      assert ShiftPoint(IntValue(f) as real, n) == d as real + FracValue(t);
    }
  }

  /** Integer part plus fraction is all the digits with the point moved left. */
  lemma ScaledValue(w: string, f: string)
    requires AllDigits(w) && AllDigits(f)
    ensures AllDigits(w + f)
    ensures IntValue(w) as real + FracValue(f) == ShiftPoint(IntValue(w + f) as real, |f|)
  {
    IntValueAppend(w, f);
    var e, iw, jf := |f|, IntValue(w), IntValue(f);
    var m := iw * Pow10(e);
    assert IntValue(w + f) as real == m as real + jf as real;
    ShiftAdd(m as real, jf as real, e);
    ShiftPow(iw, e);
    FracAsShift(f);
  }

  /** A run of digits reads as the integer it denotes. */
  lemma WholeHours(w: string)
    requires w != [] && AllDigits(w)
    ensures ParseHours(w) == Some(IntValue(w) as real)
  {
    assert SkipWhile(w, 0, IsDigit) == |w|;
    assert w[..|w|] == w;
  }

  /** The dotted branch of `ParseHours`, stated on the position of the dot. */
  lemma DotBranch(s: string, k: nat)
    requires k < |s| && AllDigits(s[..k]) && s[k] == '.' && AllDigits(s[k + 1..])
    requires |s| > 1
    ensures ParseHours(s) == Some(IntValue(s[..k]) as real + FracValue(s[k + 1..]))
  {
    assert SkipWhile(s, 0, IsDigit) == k;
    var frac := s[k + 1..];
    assert SkipWhile(frac, 0, IsDigit) == |frac|;
  }

  /**
   * A decimal with its dot at `k` reads as all of its digits with the point
   * moved left once per digit after the dot: `"12.50"` is `1250 / 100`.
   */
  lemma DottedHours(s: string, k: nat)
    requires k < |s| && AllDigits(s[..k]) && s[k] == '.' && AllDigits(s[k + 1..])
    requires |s| > 1
    ensures AllDigits(s[..k] + s[k + 1..])
    ensures ParseHours(s) == Some(ShiftPoint(IntValue(s[..k] + s[k + 1..]) as real, |s| - k - 1))
  {
    var w, f := s[..k], s[k + 1..];
    ScaledValue(w, f);
    var v := IntValue(w) as real + FracValue(f);
    assert ParseHours(s) == Some(v) by {
      DotBranch(s, k);
    }
  }

  /** Decimal digits of a natural number, most significant first. */
  function NatToDigits(n: nat): (r: string)
    ensures |r| > 0 && AllDigits(r)
  {
    if n < 10 then [DigitChar(n)] else NatToDigits(n / 10) + [DigitChar(n % 10)]
  }

  lemma {:induction false} IntValueOfDigits(n: nat)
    ensures IntValue(NatToDigits(n)) == n
  {
    if n >= 10 {
      var s := NatToDigits(n);
      assert s[..|s| - 1] == NatToDigits(n / 10);
      IntValueOfDigits(n / 10);
    }
  }

  /** A whole number of hours written in decimal reads back as that number. */
  lemma WholeHoursRoundTrip(n: nat)
    ensures ParseHours(NatToDigits(n)) == Some(n as real)
  {
    var s := NatToDigits(n);
    IntValueOfDigits(n);
    assert SkipWhile(s, 0, IsDigit) == |s|;
    assert s[..|s|] == s;
  }

  /** Hours with one decimal, `"<n>.<d>"`, read back as `n + d/10`. */
  lemma TenthHoursRoundTrip(n: nat, d: nat)
    requires d < 10
    ensures ParseHours(NatToDigits(n) + "." + [DigitChar(d)]) == Some(n as real + d as real / 10.0)
  {
    var w := NatToDigits(n);
    var s := w + "." + [DigitChar(d)];
    IntValueOfDigits(n);
    assert forall i | 0 <= i < |w| :: s[i] == w[i];
    assert s[|w|] == '.';
    var k := SkipWhile(s, 0, IsDigit);
    assert !IsDigit(s[|w|]);
    assert k == |w|;
    assert s[..|w|] == w;
    assert s[|w| + 1..] == [DigitChar(d)];
    assert FracValue([DigitChar(d)]) == d as real / 10.0;
  }

  /** Strings the annotation pattern captures but `float()` rejects. */
  lemma MalformedHours()
    ensures ParseHours(".") == None
    ensures ParseHours("1.2.3") == None
    ensures ParseHours("..") == None
  {
    assert !IsDecimal(".") by {
      assert !IsDigit("."[0]);
    }
    assert "1.2.3"[1] == '.' && "1.2.3"[3] == '.';
    assert ".."[0] == '.' && ".."[1] == '.';
  }
}
