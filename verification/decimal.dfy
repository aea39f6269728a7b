/** Decimal digit strings: the text form of the integers a command template
    interpolates (`${amount}`) and the digit runs the response parser reads
    back. Values are exact (unbounded naturals and reals), not IEEE doubles. */
module Decimal {

  predicate IsDigit(c: char) {
    '0' <= c <= '9'
  }

  predicate AllDigits(s: string) {
    forall i :: 0 <= i < |s| ==> IsDigit(s[i])
  }

  /** No digit anywhere in `s`. */
  predicate DigitFree(s: string) {
    forall i :: 0 <= i < |s| ==> !IsDigit(s[i])
  }

  /** The canonical spelling of a natural number: at least one digit and no
      leading zero unless the number is zero itself. */
  predicate Canonical(ds: string) {
    && |ds| >= 1
    && AllDigits(ds)
    && (|ds| == 1 || ds[0] != '0')
  }

  function DigitValue(c: char): (d: nat)
    requires IsDigit(c)
    ensures d < 10
  {
    (c as int - '0' as int) as nat
  }

  function DigitChar(d: nat): (c: char)
    requires d < 10
    ensures IsDigit(c) && DigitValue(c) == d
  {
    ('0' as int + d) as char
  }

  function Pow10(k: nat): (p: nat)
    ensures p >= 1
  {
    if k == 0 then 1 else 10 * Pow10(k - 1)
  }

  /** The number a digit string denotes, read most significant digit first. */
  function Value(ds: string): nat
    requires AllDigits(ds)
  {
    if ds == [] then 0 else 10 * Value(ds[..|ds| - 1]) + DigitValue(ds[|ds| - 1])
  }

  /** Appending digits shifts the number left by their count and adds their
      value: "12" followed by "34" is 12 * 100 + 34. */
  lemma {:induction false} ValueConcat(a: string, b: string)
    requires AllDigits(a) && AllDigits(b)
    ensures AllDigits(a + b)
    ensures Value(a + b) == Value(a) * Pow10(|b|) + Value(b)
  {
    assert AllDigits(a + b) by {
      assert forall i :: 0 <= i < |a + b| ==> (a + b)[i] == if i < |a| then a[i] else b[i - |a|];
    }
    if b == [] {
      assert a + b == a;
    } else {
      var init := b[..|b| - 1];
      var d := DigitValue(b[|b| - 1]);
      assert (a + b)[..|a + b| - 1] == a + init;
      assert (a + b)[|a + b| - 1] == b[|b| - 1];
      ValueConcat(a, init);
      ShiftStep(Value(a), Pow10(|init|), Value(init), d);
    }
  }

  /** One more digit at the end: `10 * (x * p + y) + d == x * (10 * p) + (10 * y + d)`. */
  lemma ShiftStep(x: nat, p: nat, y: nat, d: nat)
    ensures 10 * (x * p + y) + d == x * (10 * p) + (10 * y + d)
  {
  }

  /** The value of a fractional part: ".25" has digits "25" and value 0.25. */
  function FracValue(ds: string): (f: real)
    requires AllDigits(ds)
    ensures 0.0 <= f
  {
    Value(ds) as real / Pow10(|ds|) as real
  }

  /** `v` with its decimal point moved `k` places to the right. */
  function Shifted(v: real, k: nat): real {
    v * Pow10(k) as real
  }

  /** An integer part followed by fraction digits, with the point moved past
      the fraction, is the two digit strings read as one number: 12 and ".5"
      shifted one place give 125. */
  lemma ScaledValue(ds: string, f: string)
    requires AllDigits(ds) && AllDigits(f)
    ensures AllDigits(ds + f)
    ensures Shifted(Value(ds) as real + FracValue(f), |f|) == Value(ds + f) as real
  {
    ValueConcat(ds, f);
    Rescale(Value(ds), Value(f), |f|, FracValue(f), Value(ds + f));
  }

  /** Moving the point of `w + x / 10^k` past `k` places gives `w * 10^k + x`. */
  lemma Rescale(w: nat, x: nat, k: nat, fraction: real, total: nat)
    requires fraction == x as real / Pow10(k) as real && total == w * Pow10(k) + x
    ensures Shifted(w as real + fraction, k) == total as real
  {
  }

  /** The canonical decimal spelling of `n`: what JavaScript's `String(n)`
      produces for a non-negative integer up to 2^53 - 1
      (`Number.MAX_SAFE_INTEGER`). Above that a JavaScript number is a double
      that prints its shortest round-trip digits padded with zeros, and from
      10^21 on it prints exponent form. */
  function NatToDigits(n: nat): (ds: string)
    ensures Canonical(ds)
    ensures Value(ds) == n
  {
    if n < 10 then [DigitChar(n)]
    else
      var init := NatToDigits(n / 10);
      var ds := init + [DigitChar(n % 10)];
      assert ds[..|ds| - 1] == init;
      ds
  }

  /** A leading non-zero digit makes the whole number non-zero. */
  lemma {:induction false} LeadingDigitPositive(ds: string)
    requires AllDigits(ds) && |ds| >= 1 && ds[0] != '0'
    ensures Value(ds) >= 1
  {
    if |ds| > 1 {
      LeadingDigitPositive(ds[..|ds| - 1]);
    }
  }

  /** Reading and writing a canonical digit string are inverse: the spelling
      of a number is unique. */
  lemma {:induction false} DigitsRoundTrip(ds: string)
    requires Canonical(ds)
    ensures NatToDigits(Value(ds)) == ds
  {
    if |ds| > 1 {
      var init := ds[..|ds| - 1];
      var last := ds[|ds| - 1];
      LeadingDigitPositive(init);
      DigitsRoundTrip(init);
      assert Value(ds) / 10 == Value(init);
      assert Value(ds) % 10 == DigitValue(last);
      assert DigitChar(DigitValue(last)) == last;
      assert init + [last] == ds;
    }
  }

  /** JavaScript's `String(i)` for an integer of magnitude at most 2^53 - 1:
      an optional minus sign followed by the canonical digits of the
      magnitude. Larger magnitudes are spelled out digit for digit here as
      well, which JavaScript does not do. */
  function IntToDecimal(i: int): (s: string)
    ensures i >= 0 ==> Canonical(s) && Value(s) == i
    ensures i < 0 ==> |s| >= 2 && s[0] == '-' && Canonical(s[1..]) && Value(s[1..]) == -i
    ensures s != ""
  {
    if i < 0 then
      var s := "-" + NatToDigits(-i);
      assert s[1..] == NatToDigits(-i);
      s
    else NatToDigits(i)
  }
}
