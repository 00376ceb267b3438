/** Decimal numerals: the value of a string of digits, and how comparing strings compares values. */
module Decimal {

  predicate IsDigit(c: char) {
    '0' <= c <= '9'
  }

  function DigitValue(c: char): (d: nat)
    requires IsDigit(c)
    ensures d <= 9
  {
    (c - '0') as nat
  }

  predicate AllDigits(s: string) {
    forall i | 0 <= i < |s| :: IsDigit(s[i])
  }

  /** The number a string of digits denotes. */
  function Value(s: string): (v: nat)
    requires AllDigits(s)
    decreases |s|
  {
    if s == "" then 0 else 10 * Value(s[..|s| - 1]) + DigitValue(s[|s| - 1])
  }

  function Pow10(n: nat): (p: nat)
    ensures p > 0
  {
    if n == 0 then 1 else 10 * Pow10(n - 1)
  }

  lemma {:induction false} ValueBelow(s: string)
    requires AllDigits(s)
    ensures Value(s) < Pow10(|s|)
    decreases |s|
  {
    if s != "" {
      ValueBelow(s[..|s| - 1]);
    }
  }

  lemma {:induction false} ValueAtLeast(s: string)
    requires AllDigits(s) && s != "" && s[0] != '0'
    ensures Value(s) >= Pow10(|s| - 1)
    decreases |s|
  {
    if |s| > 1 {
      ValueAtLeast(s[..|s| - 1]);
    } else {
      assert s[..0] == "";
    }
  }

  lemma {:induction false} Pow10Monotone(m: nat, n: nat)
    requires m <= n
    ensures Pow10(m) <= Pow10(n)
    decreases n
  {
    if m < n {
      Pow10Monotone(m, n - 1);
    }
  }

  /** A longer numeral without a leading zero is larger. */
  lemma LongerIsLarger(s: string, t: string)
    requires AllDigits(s) && AllDigits(t) && |s| > |t| && s[0] != '0'
    ensures Value(s) > Value(t)
  {
    ValueAtLeast(s);
    ValueBelow(t);
    Pow10Monotone(|t|, |s| - 1);
  }

  /** strncmp(s, t, |s|) > 0 for strings of the same length. */
  predicate ComparesGreater(s: string, t: string)
    requires |s| == |t|
    decreases |s|
  {
    s != "" && (s[0] > t[0] || (s[0] == t[0] && ComparesGreater(s[1..], t[1..])))
  }

  lemma {:induction false} ValueFromFront(s: string)
    requires AllDigits(s) && s != ""
    ensures Value(s) == DigitValue(s[0]) * Pow10(|s| - 1) + Value(s[1..])
    decreases |s|
  {
    if |s| == 1 {
      assert s[..0] == "" && s[1..] == "";
    } else {
      var init := s[..|s| - 1];
      ValueFromFront(init);
      assert s[1..][..|s| - 2] == init[1..];
      TimesTen(DigitValue(s[0]), Pow10(|s| - 2), Value(init[1..]));
    }
  }

  /** Comparing numerals of one length as strings compares their values. */
  lemma {:induction false} ComparesByValue(s: string, t: string)
    requires AllDigits(s) && AllDigits(t) && |s| == |t|
    ensures ComparesGreater(s, t) <==> Value(s) > Value(t)
    decreases |s|
  {
    if s != "" {
      ValueFromFront(s);
      ValueFromFront(t);
      ComparesByValue(s[1..], t[1..]);
      ValueBelow(s[1..]);
      ValueBelow(t[1..]);
      LeadingDigit(DigitValue(s[0]), DigitValue(t[0]), Pow10(|s| - 1), Value(s[1..]), Value(t[1..]));
    }
  }

  lemma LeadingDigit(a: nat, b: nat, p: nat, x: nat, y: nat)
    requires x < p && y < p
    ensures a * p + x > b * p + y <==> a > b || (a == b && x > y)
  {
    if a > b {
      assert a * p >= (b + 1) * p;
    } else if a < b {
      assert b * p >= (a + 1) * p;
    }
  }

  lemma {:induction false} LeadingZeros(s: string, n: nat)
    requires AllDigits(s) && n <= |s| && forall i | 0 <= i < n :: s[i] == '0'
    ensures Value(s[n..]) == Value(s)
  {
    if n > 0 {
      LeadingZeros(s, n - 1);
      ValueFromFront(s[n - 1..]);
      assert s[n - 1..][1..] == s[n..];
    } else {
      assert s[0..] == s;
    }
  }

  lemma ConcatLast(s: string, t: string)
    requires t != ""
    ensures (s + t)[..|s + t| - 1] == s + t[..|t| - 1] && (s + t)[|s + t| - 1] == t[|t| - 1]
  {
  }

  lemma TimesTen(a: nat, p: nat, b: nat)
    ensures 10 * (a * p + b) == a * (10 * p) + 10 * b
  {
  }

  lemma {:induction false} ValueConcat(s: string, t: string)
    requires AllDigits(s) && AllDigits(t)
    ensures AllDigits(s + t) && Value(s + t) == Value(s) * Pow10(|t|) + Value(t)
    decreases |t|
  {
    if t == "" {
      assert s + t == s;
    } else {
      var init := t[..|t| - 1];
      ValueConcat(s, init);
      ConcatLast(s, t);
      TimesTen(Value(s), Pow10(|init|), Value(init));
    }
  }

  // -------------------------------------------------------------------- writing numbers

  function DigitChar(d: nat): (c: char)
    requires d <= 9
    ensures IsDigit(c) && DigitValue(c) == d
  {
    '0' + d as char
  }

  /** The shortest numeral of `v`. */
  function Shortest(v: nat): (s: string)
    ensures s != "" && AllDigits(s) && (s[0] == '0' ==> v == 0)
  {
    if v < 10 then [DigitChar(v)] else Shortest(v / 10) + [DigitChar(v % 10)]
  }

  /** The last `n` digits of `v`, with leading zeros. */
  function Padded(v: nat, n: nat): (s: string)
    ensures |s| == n && AllDigits(s)
  {
    if n == 0 then "" else Padded(v / 10, n - 1) + [DigitChar(v % 10)]
  }

  lemma {:induction false} ShortestValue(v: nat)
    ensures Value(Shortest(v)) == v
  {
    var s := Shortest(v);
    if v < 10 {
      assert s[..0] == "";
    } else {
      ShortestValue(v / 10);
      assert s[..|s| - 1] == Shortest(v / 10);
    }
  }

  lemma {:induction false} PaddedValue(v: nat, n: nat)
    requires v < Pow10(n)
    ensures Value(Padded(v, n)) == v
  {
    hide Pow10;
    TenthBelow(v, n);
    if n > 0 {
      PaddedValue(v / 10, n - 1);
      assert Padded(v, n)[..n - 1] == Padded(v / 10, n - 1);
    }
  }

  lemma TenthBelow(v: nat, n: nat)
    requires v < Pow10(n)
    ensures if n == 0 then v == 0 else v / 10 < Pow10(n - 1)
  {
  }
}
