// Decimal digit strings and the numbers they denote.
module Decimals {
  import opened Strings

  predicate IsDigit(c: char) { '0' <= c <= '9' }

  predicate AllDigits(s: string) { forall c :: c in s ==> IsDigit(c) }

  function Digit(d: nat): char
    requires d < 10
  {
    '0' + d as char
  }

  function DigitValue(c: char): (d: nat)
    requires IsDigit(c)
    ensures d < 10
  {
    (c - '0') as nat
  }

  lemma DigitRoundTrip(d: nat)
    requires d < 10
    ensures IsDigit(Digit(d)) && DigitValue(Digit(d)) == d
  {
  }

  lemma DigitOfValue(c: char)
    requires IsDigit(c)
    ensures Digit(DigitValue(c)) == c
  {
  }

  function Pow10(n: nat): (r: nat)
    ensures r > 0
  {
    if n == 0 then 1 else 10 * Pow10(n - 1)
  }

  lemma {:induction false} Pow10Add(a: nat, b: nat)
    ensures Pow10(a + b) == Pow10(a) * Pow10(b)
  {
    if a > 0 {
      Pow10Add(a - 1, b);
    }
  }

  // `to_string`: no leading zero, except for zero itself.
  function Digits(n: nat): (s: string)
    ensures s != "" && AllDigits(s)
  {
    if n < 10 then [Digit(n)]
    else
      DigitRoundTrip(n % 10);
      Digits(n / 10) + [Digit(n % 10)]
  }

  // The number a digit string denotes; leading zeros do not matter.
  function Value(s: string): nat
    requires AllDigits(s)
  {
    if s == "" then 0
    else
      assert s[|s| - 1] in s;
      10 * Value(s[..|s| - 1]) + DigitValue(s[|s| - 1])
  }

  lemma ValueSnoc(s: string, c: char)
    requires AllDigits(s) && IsDigit(c)
    ensures AllDigits(s + [c]) && Value(s + [c]) == 10 * Value(s) + DigitValue(c)
  {
    assert (s + [c])[..|s|] == s;
  }

  lemma {:induction false} ValueOfDigits(n: nat)
    ensures Value(Digits(n)) == n
  {
    if n < 10 {
      ValueSnoc("", Digit(n));
      assert "" + [Digit(n)] == [Digit(n)];
      DigitRoundTrip(n);
    } else {
      ValueOfDigits(n / 10);
      DigitRoundTrip(n % 10);
      ValueSnoc(Digits(n / 10), Digit(n % 10));
    }
  }

  lemma {:induction false} ValueConcat(a: string, b: string)
    requires AllDigits(a) && AllDigits(b)
    ensures AllDigits(a + b) && Value(a + b) == Value(a) * Pow10(|b|) + Value(b)
  {
    if b == "" {
      assert a + b == a;
    } else {
      var init, last := b[..|b| - 1], b[|b| - 1];
      assert last in b;
      ValueConcat(a, init);
      assert a + b == (a + init) + [last];
      ValueSnoc(a + init, last);
      assert init + [last] == b;
      ValueSnoc(init, last);
      MulTen(Value(a), Pow10(|init|));
    }
  }

  lemma MulTen(a: nat, p: nat)
    ensures a * (10 * p) == 10 * (a * p)
  {
  }

  lemma {:induction false} ValueBound(s: string)
    requires AllDigits(s)
    ensures Value(s) < Pow10(|s|)
  {
    if s != "" {
      assert s[|s| - 1] in s;
      ValueBound(s[..|s| - 1]);
    }
  }

  lemma {:induction false} ValueOfZeros(n: nat)
    ensures AllDigits(Repeat('0', n)) && Value(Repeat('0', n)) == 0
  {
    if n > 0 {
      ValueOfZeros(n - 1);
      ValueSnoc(Repeat('0', n - 1), '0');
    }
  }

  predicate Canonical(s: string) {
    s != "" && AllDigits(s) && (|s| > 1 ==> s[0] != '0')
  }

  lemma {:induction false} DigitsCanonical(n: nat)
    ensures Canonical(Digits(n)) && (n > 0 ==> Digits(n)[0] != '0')
  {
    if n >= 10 {
      DigitsCanonical(n / 10);
    }
  }

  lemma {:induction false} DigitsOfValue(s: string)
    requires Canonical(s)
    ensures Digits(Value(s)) == s
  {
    var init, last := s[..|s| - 1], s[|s| - 1];
    assert last in s && init + [last] == s;
    DigitOfValue(last);
    if |s| == 1 {
      assert Value(init) == 0;
    } else {
      assert forall c :: c in init ==> c in s;
      DigitsOfValue(init);
      ValuePositive(init);
      assert Value(s) / 10 == Value(init) && Value(s) % 10 == DigitValue(last);
    }
  }

  lemma {:induction false} ValuePositive(s: string)
    requires s != "" && AllDigits(s) && s[0] != '0'
    ensures Value(s) > 0
  {
    assert s[0] in s && s[|s| - 1] in s;
    if |s| > 1 {
      ValuePositive(s[..|s| - 1]);
    }
  }

  // `{:0w}`: exactly w digits of a number below 10^w.
  function Padded(n: nat, w: nat): (s: string)
    requires n < Pow10(w)
    ensures |s| == w && AllDigits(s)
  {
    if w == 0 then ""
    else
      DigitRoundTrip(n % 10);
      Padded(n / 10, w - 1) + [Digit(n % 10)]
  }

  lemma {:induction false} ValueOfPadded(n: nat, w: nat)
    requires n < Pow10(w)
    ensures Value(Padded(n, w)) == n
  {
    if w > 0 {
      ValueOfPadded(n / 10, w - 1);
      DigitRoundTrip(n % 10);
      ValueSnoc(Padded(n / 10, w - 1), Digit(n % 10));
    }
  }

  lemma {:induction false} PaddedOfValue(s: string)
    requires AllDigits(s)
    ensures Value(s) < Pow10(|s|) && Padded(Value(s), |s|) == s
  {
    ValueBound(s);
    if s != "" {
      var init, last := s[..|s| - 1], s[|s| - 1];
      assert last in s && init + [last] == s;
      PaddedOfValue(init);
      DigitOfValue(last);
      assert Value(s) / 10 == Value(init) && Value(s) % 10 == DigitValue(last);
    }
  }

  // Writing a number in full is writing its head in full and its tail padded.
  lemma {:induction false} DigitsSplit(n: nat, w: nat)
    requires n >= Pow10(w)
    ensures n % Pow10(w) < Pow10(w)
    ensures Digits(n) == Digits(n / Pow10(w)) + Padded(n % Pow10(w), w)
  {
    if w == 0 {
      assert Digits(n) + "" == Digits(n);
    } else {
      var p := Pow10(w - 1);
      DivTen(n, p);
      DigitsSplit(n / 10, w - 1);
      assert Digits(n / 10 / p) + (Padded(n / 10 % p, w - 1) + [Digit(n % 10)])
          == Digits(n / 10 / p) + Padded(n / 10 % p, w - 1) + [Digit(n % 10)];
    }
  }

  lemma DivTen(n: nat, p: nat)
    requires p > 0
    ensures n / 10 / p == n / (10 * p)
    ensures n % (10 * p) / 10 == n / 10 % p && n % (10 * p) % 10 == n % 10
    ensures n >= 10 * p ==> n / 10 >= p
  {
    var q, r := n / (10 * p), n % (10 * p);
    assert n == q * (10 * p) + r;
    assert n == 10 * (q * p) + r by { assert q * (10 * p) == 10 * (q * p); }
    assert n / 10 == q * p + r / 10;
    assert r / 10 < p;
    DivUnique(n / 10, p, q, r / 10);
  }

  lemma DivUnique(n: nat, p: nat, q: nat, r: nat)
    requires p > 0 && n == q * p + r && r < p
    ensures n / p == q && n % p == r
  {
    var d := n / p;
    if d > q {
      MulLess(q, d, p);
    } else if d < q {
      MulLess(d, q, p);
    }
  }

  lemma {:induction false} MulLess(a: nat, b: nat, p: nat)
    requires a < b
    ensures a * p + p <= b * p
  {
    assert b * p == (b - 1) * p + p;
    if a + 1 < b {
      MulLess(a, b - 1, p);
    }
  }

  lemma {:induction false} ScaledBound(n: nat, w: nat, k: nat)
    requires n < Pow10(w)
    ensures n * Pow10(k) < Pow10(w + k)
  {
    if k > 0 {
      ScaledBound(n, w, k - 1);
      MulTen(n, Pow10(k - 1));
    }
  }

  lemma {:induction false} PaddedZeros(n: nat, w: nat, k: nat)
    requires n < Pow10(w) && n * Pow10(k) < Pow10(w + k)
    ensures Padded(n * Pow10(k), w + k) == Padded(n, w) + Repeat('0', k)
  {
    if k == 0 {
      assert Padded(n, w) + "" == Padded(n, w);
    } else {
      var m := n * Pow10(k - 1);
      ScaledBound(n, w, k - 1);
      MulTen(n, Pow10(k - 1));
      PaddedZeros(n, w, k - 1);
      PaddedTimesTen(m, w + k - 1);
      assert n * Pow10(k) == 10 * m;
      ConcatSnoc(Padded(n, w), Repeat('0', k - 1), '0');
    }
  }

  lemma PaddedTimesTen(m: nat, w: nat)
    requires m < Pow10(w)
    ensures 10 * m < Pow10(w + 1) && Padded(10 * m, w + 1) == Padded(m, w) + ['0']
  {
    assert 10 * m / 10 == m && 10 * m % 10 == 0;
  }

  lemma ConcatSnoc(a: string, b: string, c: char)
    ensures a + (b + [c]) == (a + b) + [c]
  {
  }
}
