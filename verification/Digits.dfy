/** Decimal digit strings: what `BigInt(s)` reads from one and what `n.toString()` prints. */
module Digits {

  predicate IsDigit(c: char) { '0' <= c <= '9' }

  predicate AllDigits(s: string) { forall i :: 0 <= i < |s| ==> IsDigit(s[i]) }

  function DigitValue(c: char): nat
    requires IsDigit(c)
  {
    (c as int) - ('0' as int)
  }

  function DigitChar(d: nat): (c: char)
    requires d < 10
    ensures IsDigit(c) && DigitValue(c) == d
  {
    (('0' as int) + d) as char
  }

  /** `BigInt(s)` for a string of decimal digits. */
  function Value(s: string): nat
    requires AllDigits(s)
  {
    if s == "" then 0 else 10 * Value(s[..|s| - 1]) + DigitValue(s[|s| - 1])
  }

  /** `n.toString()` for a non-negative integer. */
  function Print(n: nat): string {
    if n < 10 then [DigitChar(n)] else Print(n / 10) + [DigitChar(n % 10)]
  }

  function Pow10(n: nat): (p: nat)
    ensures p >= 1
  {
    if n == 0 then 1 else 10 * Pow10(n - 1)
  }

  function Zeros(n: nat): (z: string)
    ensures |z| == n && AllDigits(z)
  {
    if n == 0 then "" else Zeros(n - 1) + "0"
  }

  /** Drops redundant leading zeros, keeping at least one digit. */
  function StripLeading(s: string): string {
    if |s| > 1 && s[0] == '0' then StripLeading(s[1..]) else s
  }

  /** `s.replace(/0+$/, "")`. */
  function StripTrailing(s: string): string {
    if s != "" && s[|s| - 1] == '0' then StripTrailing(s[..|s| - 1]) else s
  }

  lemma {:induction false} PrintValue(n: nat)
    ensures AllDigits(Print(n)) && |Print(n)| >= 1
    ensures Value(Print(n)) == n
    ensures Print(n)[0] == '0' ==> n == 0
  {
    if n >= 10 {
      PrintValue(n / 10);
      var p := Print(n);
      assert p[..|p| - 1] == Print(n / 10);
    } else {
      assert Print(n)[..0] == "";
    }
  }

  lemma {:induction false} PrintLength(n: nat, k: nat)
    requires k >= 1 && n < Pow10(k)
    ensures |Print(n)| <= k
  {
    if n >= 10 {
      PrintLength(n / 10, k - 1);
    }
  }

  lemma {:induction false} ValueConcat(a: string, b: string)
    requires AllDigits(a) && AllDigits(b)
    ensures AllDigits(a + b)
    ensures Value(a + b) == Value(a) * Pow10(|b|) + Value(b)
  {
    if b == "" {
      assert a + b == a;
    } else {
      var c := b[..|b| - 1];
      ValueConcat(a, c);
      assert (a + b)[..|a + b| - 1] == a + c;
      assert Value(b) == 10 * Value(c) + DigitValue(b[|b| - 1]);
      assert Value(a + b) == 10 * Value(a + c) + DigitValue(b[|b| - 1]);
      ScaleTen(Value(a), Pow10(|c|));
      assert Pow10(|b|) == 10 * Pow10(|c|);
    }
  }

  lemma ScaleTen(x: nat, p: nat)
    ensures x * (10 * p) == 10 * (x * p)
  {
  }

  lemma {:induction false} ValueZeros(k: nat)
    ensures Value(Zeros(k)) == 0
  {
    if k > 0 {
      ValueZeros(k - 1);
      assert Zeros(k)[..k - 1] == Zeros(k - 1);
    }
  }

  lemma LeadingZeros(k: nat, s: string)
    requires AllDigits(s)
    ensures AllDigits(Zeros(k) + s) && Value(Zeros(k) + s) == Value(s)
  {
    ValueConcat(Zeros(k), s);
    ValueZeros(k);
  }

  lemma TrailingZeros(s: string, k: nat)
    requires AllDigits(s)
    ensures AllDigits(s + Zeros(k)) && Value(s + Zeros(k)) == Value(s) * Pow10(k)
  {
    ValueConcat(s, Zeros(k));
    ValueZeros(k);
  }

  lemma {:induction false} ValueBound(s: string)
    requires AllDigits(s)
    ensures Value(s) < Pow10(|s|)
  {
    if s != "" {
      ValueBound(s[..|s| - 1]);
    }
  }

  /** A digit string is determined by its length and its value. */
  lemma {:induction false} ValueInjective(a: string, b: string)
    requires AllDigits(a) && AllDigits(b) && |a| == |b| && Value(a) == Value(b)
    ensures a == b
  {
    if a != "" {
      var n := |a| - 1;
      assert DigitValue(a[n]) == DigitValue(b[n]) && Value(a[..n]) == Value(b[..n]);
      ValueInjective(a[..n], b[..n]);
      assert a == a[..n] + [a[n]] && b == b[..n] + [b[n]];
    }
  }

  lemma {:induction false} StripLeadingValue(s: string)
    requires AllDigits(s) && s != ""
    ensures var t := StripLeading(s);
            AllDigits(t) && t != "" && Value(t) == Value(s) && (t[0] == '0' ==> |t| == 1)
  {
    if |s| > 1 && s[0] == '0' {
      StripLeadingValue(s[1..]);
      ValueConcat(s[..1], s[1..]);
      assert s == s[..1] + s[1..] && Value(s[..1]) == 0;
    }
  }

  /** Two digit strings without redundant leading zeros and with one value have one length. */
  lemma {:induction false} CanonicalLength(a: string, b: string)
    requires AllDigits(a) && AllDigits(b) && a != "" && b != ""
    requires (a[0] == '0' ==> |a| == 1) && (b[0] == '0' ==> |b| == 1)
    requires Value(a) == Value(b)
    ensures |a| == |b|
  {
    if |a| < |b| {
      LeadingDigit(a, b);
    } else if |b| < |a| {
      LeadingDigit(b, a);
    }
  }

  lemma LeadingDigit(a: string, b: string)
    requires AllDigits(a) && AllDigits(b) && a != "" && |a| < |b|
    requires b[0] != '0'
    ensures Value(a) < Value(b)
  {
    ValueBound(a);
    ValueConcat(b[..1], b[1..]);
    assert b == b[..1] + b[1..];
    assert Value(b[..1]) == DigitValue(b[0]) >= 1;
    Pow10Monotonic(|a|, |b| - 1);
    hide *;
    AtLeast(Value(b[..1]), Pow10(|b[1..]|));
  }

  lemma AtLeast(x: nat, p: nat)
    requires x >= 1
    ensures x * p >= p
  {
  }

  lemma {:induction false} Pow10Monotonic(a: nat, b: nat)
    requires a <= b
    ensures Pow10(a) <= Pow10(b)
  {
    if a < b {
      Pow10Monotonic(a, b - 1);
    }
  }

  /** Reading a digit string and printing the number strips its redundant leading zeros, nothing else. */
  lemma PrintOfValue(s: string)
    requires AllDigits(s) && s != ""
    ensures Print(Value(s)) == StripLeading(s)
  {
    var n := Value(s);
    PrintValue(n);
    StripLeadingValue(s);
    PrintCanonical(n);
    CanonicalLength(Print(n), StripLeading(s));
    ValueInjective(Print(n), StripLeading(s));
  }

  lemma PrintCanonical(n: nat)
    ensures |Print(n)| >= 1 && (Print(n)[0] == '0' ==> |Print(n)| == 1)
  {
    PrintValue(n);
  }

  lemma PrintInjective(m: nat, n: nat)
    requires Print(m) == Print(n)
    ensures m == n
  {
    PrintValue(m);
    PrintValue(n);
  }
}
