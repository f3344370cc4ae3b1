/** Digits, powers and positional values: the arithmetic that LinkedNumber's
    base conversion relies on, stated over plain digit strings. */
module Numerals {

  /** The digit characters; a digit's value is its index in this string. */
  const Alphabet: string := "0123456789ABCDEF"

  /** The largest value a Java int can hold. */
  const IntMax: int := 0x7FFF_FFFF

  /** The value of a digit character: its index in Alphabet, or -1 for a
      character that is not a digit. */
  function DigitValue(c: char): (v: int)
    ensures -1 <= v < |Alphabet|
    ensures 0 <= v ==> Alphabet[v] == c
  {
    if '0' <= c <= '9' then c as int - '0' as int
    else if 'A' <= c <= 'F' then 10 + (c as int - 'A' as int)
    else -1
  }

  /** Every character of s is a digit whose value is below b. */
  predicate ValidIn(s: string, b: int) {
    forall i :: 0 <= i < |s| ==> 0 <= DigitValue(s[i]) <= b - 1
  }

  /** Every character of s is one of '0'..'9'. */
  predicate AllDecimal(s: string) {
    forall i :: 0 <= i < |s| ==> '0' <= s[i] <= '9'
  }

  /** A numeral without leading zeros: non-empty, and "0" is the only one
      that starts with '0'. */
  predicate Canonical(s: string) {
    |s| > 0 && (s[0] == '0' ==> |s| == 1)
  }

  function Pow(b: int, e: nat): int {
    if e == 0 then 1 else b * Pow(b, e - 1)
  }

  /** The positional value of s in base b: the sum over i of
      value(s[i]) * b^(|s|-1-i), most significant digit first. */
  function Value(s: string, b: int): int {
    if s == [] then 0 else DigitValue(s[0]) * Pow(b, |s| - 1) + Value(s[1..], b)
  }

  /** The digits of n in base b, most significant first, with no digit at
      all for zero: what repeated remainder extraction produces. */
  function Extract(n: nat, b: int): string
    requires 2 <= b <= 16
    decreases n
  {
    if n == 0 then [] else Extract(n / b, b) + [Alphabet[n % b]]
  }

  /** The rendering of n in base b: "0" for zero, the extracted digits otherwise. */
  function ToBase(n: nat, b: int): string
    requires 2 <= b <= 16
  {
    if n == 0 then "0" else Extract(n, b)
  }

  lemma DigitOfValue(v: int)
    requires 0 <= v < |Alphabet|
    ensures DigitValue(Alphabet[v]) == v
  {
  }

  lemma {:induction false} PowPositive(b: int, e: nat)
    requires b >= 1
    ensures Pow(b, e) >= 1
  {
    if e > 0 {
      PowPositive(b, e - 1);
    }
  }

  /** Within a valid numeral the positional value cannot be negative. */
  lemma {:induction false} ValueNonNegative(s: string, b: int)
    requires ValidIn(s, b)
    ensures Value(s, b) >= 0
  {
    if s != [] {
      assert 0 <= DigitValue(s[0]) <= b - 1;
      PowPositive(b, |s| - 1);
      MulNonNegative(DigitValue(s[0]), Pow(b, |s| - 1));
      assert ValidIn(s[1..], b) by {
        forall i | 0 <= i < |s| - 1 ensures 0 <= DigitValue(s[1..][i]) <= b - 1 {
          assert s[1..][i] == s[i + 1];
        }
      }
      ValueNonNegative(s[1..], b);
    }
  }

  /** The value of a suffix: its first digit's place value plus the rest. */
  lemma ValueSuffix(s: string, i: nat, b: int)
    requires i < |s|
    ensures Value(s[i..], b) == DigitValue(s[i]) * Pow(b, |s| - 1 - i) + Value(s[i + 1..], b)
  {
    assert s[i..][1..] == s[i + 1..];
  }

  /** Appending a digit shifts the value one place up: Horner's step. */
  lemma {:induction false} ValueAppend(s: string, c: char, b: int)
    ensures Value(s + [c], b) == Value(s, b) * b + DigitValue(c)
  {
    if s == [] {
      assert [] + [c] == [c];
    } else {
      var t := s + [c];
      assert t[1..] == s[1..] + [c];
      ValueAppend(s[1..], c, b);
      var d, p, v, e := DigitValue(s[0]), Pow(b, |s| - 1), Value(s[1..], b), DigitValue(c);
      assert Value(t, b) == d * Pow(b, |t| - 1) + Value(t[1..], b);
      assert Pow(b, |t| - 1) == b * p;
      assert Value(t[1..], b) == v * b + e;
      assert Value(s, b) == d * p + v;
      Horner(d, p, v, b, e);
    }
  }

  lemma Horner(d: int, p: int, v: int, b: int, e: int)
    ensures d * (b * p) + (v * b + e) == (d * p + v) * b + e
  {
  }

  lemma {:induction false} PowAdd(b: int, m: nat, n: nat)
    ensures Pow(b, m + n) == Pow(b, m) * Pow(b, n)
    decreases m
  {
    if m > 0 {
      PowAdd(b, m - 1, n);
      var p, q := Pow(b, m - 1), Pow(b, n);
      assert Pow(b, m + n) == b * Pow(b, (m - 1) + n);
      assert Pow(b, m) == b * p;
      assert b * (p * q) == (b * p) * q;
    }
  }

  /** The value of a concatenation: the left part shifted up by the length
      of the right part, plus the right part. */
  lemma {:induction false} ValueConcat(s: string, t: string, b: int)
    ensures Value(s + t, b) == Value(s, b) * Pow(b, |t|) + Value(t, b)
    decreases |s|
  {
    if s == [] {
      assert [] + t == t;
    } else {
      var u := s + t;
      assert u[0] == s[0] && u[1..] == s[1..] + t;
      ValueConcat(s[1..], t, b);
      PowAdd(b, |s| - 1, |t|);
      var d, p, q, v, w := DigitValue(s[0]), Pow(b, |s| - 1), Pow(b, |t|), Value(s[1..], b), Value(t, b);
      assert Value(u, b) == d * Pow(b, |u| - 1) + Value(u[1..], b);
      assert Pow(b, |u| - 1) == p * q;
      assert Value(u[1..], b) == v * q + w;
      assert Value(s, b) == d * p + v;
      Shift(d, p, q, v, w);
    }
  }

  lemma Shift(d: int, p: int, q: int, v: int, w: int)
    ensures d * (p * q) + (v * q + w) == (d * p + v) * q + w
  {
  }

  /** A digit string is a decimal one exactly when it is valid in base ten. */
  lemma DecimalIsValidInTen(s: string)
    ensures AllDecimal(s) <==> ValidIn(s, 10)
  {
    if AllDecimal(s) {
      forall i | 0 <= i < |s| ensures 0 <= DigitValue(s[i]) <= 9 {
      }
    }
    if ValidIn(s, 10) {
      forall i | 0 <= i < |s| ensures '0' <= s[i] <= '9' {
        var v := DigitValue(s[i]);
      }
    }
  }

  /** Digits valid in a base up to ten are decimal characters. */
  lemma ValidBelowTenIsDecimal(s: string, b: int)
    requires ValidIn(s, b) && b <= 10
    ensures AllDecimal(s)
  {
    forall i | 0 <= i < |s| ensures '0' <= s[i] <= '9' {
      var v := DigitValue(s[i]);
    }
  }

  lemma MulNonNegative(x: int, y: int)
    requires x >= 0 && y >= 0
    ensures x * y >= 0
  {
  }

  lemma MulSign(x: int, b: int)
    requires b > 0
    ensures x >= 1 ==> x * b >= b
    ensures x <= -1 ==> x * b <= -b
  {
    if x >= 1 {
      MulNonNegative(x - 1, b);
      assert x * b == (x - 1) * b + b;
    }
    if x <= -1 {
      MulNonNegative(-x - 1, b);
      assert x * b == -((-x - 1) * b) - b;
    }
  }

  lemma DivModOfLast(q: int, r: int, b: int)
    requires 0 <= r < b
    ensures (q * b + r) / b == q && (q * b + r) % b == r
  {
    var n := q * b + r;
    var k, m := n / b, n % b;
    assert n == k * b + m;
    assert (k - q) * b == r - m;
    MulSign(k - q, b);
  }

  /** The last extracted digit is n % b, after the digits of n / b. */
  lemma ExtractLast(n: nat, b: int)
    requires 2 <= b <= 16 && n > 0
    ensures Extract(n, b) == Extract(n / b, b) + [Alphabet[n % b]]
  {
  }

  lemma DivMod(n: nat, b: int)
    requires 2 <= b
    ensures n == (n / b) * b + n % b && 0 <= n % b < b
  {
  }

  lemma QuotientSmaller(n: nat, b: int)
    requires 2 <= b && n > 0
    ensures 0 <= n / b < n
  {
  }

  /** One round of remainder extraction: the digit n % b goes in front of
      what was already extracted, and n / b is left to extract. */
  lemma ExtractStep(n: nat, b: int, done: string)
    requires 2 <= b <= 16 && n > 0
    ensures 0 <= n / b < n && 0 <= n % b < b
    ensures Extract(n / b, b) + ([Alphabet[n % b]] + done) == Extract(n, b) + done
  {
    QuotientSmaller(n, b);
    DivMod(n, b);
    ExtractLast(n, b);
  }

  /** Extraction inverts positional value. */
  lemma {:induction false} ExtractValue(n: nat, b: int)
    requires 2 <= b <= 16
    ensures Value(Extract(n, b), b) == n
  {
    if n > 0 {
      var q, r := n / b, n % b;
      assert 0 <= q < n by { QuotientSmaller(n, b); }
      var e, c := Extract(q, b), Alphabet[r];
      assert Extract(n, b) == e + [c] by { ExtractLast(n, b); }
      assert n == q * b + r by { DivMod(n, b); }
      assert Value(e, b) == q by { ExtractValue(q, b); }
      assert DigitValue(c) == r by { DigitOfValue(r); }
      ValueAppend(e, c, b);
    }
  }

  lemma ValidInAppend(e: string, c: char, b: int)
    requires ValidIn(e, b) && 0 <= DigitValue(c) <= b - 1
    ensures ValidIn(e + [c], b)
  {
    forall i | 0 <= i < |e| + 1 ensures 0 <= DigitValue((e + [c])[i]) <= b - 1 {
      if i < |e| {
        assert (e + [c])[i] == e[i];
      }
    }
  }

  lemma ValidInPrefix(s: string, k: nat, b: int)
    requires ValidIn(s, b) && k <= |s|
    ensures ValidIn(s[..k], b)
  {
    forall i | 0 <= i < k ensures 0 <= DigitValue(s[..k][i]) <= b - 1 {
      assert s[..k][i] == s[i];
    }
  }

  /** The extracted digits are all below b. */
  lemma {:induction false} ExtractValid(n: nat, b: int)
    requires 2 <= b <= 16
    ensures ValidIn(Extract(n, b), b)
  {
    if n > 0 {
      var q, r := n / b, n % b;
      assert 0 <= q < n by { QuotientSmaller(n, b); }
      var e, c := Extract(q, b), Alphabet[r];
      assert Extract(n, b) == e + [c] by { ExtractLast(n, b); }
      assert 0 <= r < b by { DivMod(n, b); }
      assert DigitValue(c) == r by { DigitOfValue(r); }
      ExtractValid(q, b);
      ValidInAppend(e, c, b);
    }
  }

  /** The first extracted digit of a positive number is not zero. */
  lemma {:induction false} ExtractLeading(n: nat, b: int)
    requires 2 <= b <= 16 && n > 0
    ensures |Extract(n, b)| > 0 && Extract(n, b)[0] != '0'
  {
    var q, r := n / b, n % b;
    assert 0 <= q < n by { QuotientSmaller(n, b); }
    var e, c := Extract(q, b), Alphabet[r];
    assert Extract(n, b) == e + [c] by { ExtractLast(n, b); }
    if q == 0 {
      assert r == n && r < b by { DivMod(n, b); }
      assert c != '0' by { DigitOfValue(0); DigitOfValue(r); }
      assert (e + [c])[0] == c;
    } else {
      ExtractLeading(q, b);
      assert (e + [c])[0] == e[0];
    }
  }

  /** What decimalToNewBase promises: the rendering of n in base b has no
      leading zero, uses only digits below b, and has value n in base b. */
  lemma ToBaseCorrect(n: nat, b: int)
    requires 2 <= b <= 16
    ensures Value(ToBase(n, b), b) == n
    ensures ValidIn(ToBase(n, b), b)
    ensures Canonical(ToBase(n, b))
  {
    ExtractValue(n, b);
    ExtractValid(n, b);
    if n > 0 {
      ExtractLeading(n, b);
    } else {
      assert Value("0", b) == DigitValue('0') * Pow(b, 0) + Value([], b);
      assert DigitValue('0') == 0;
    }
  }

  /** A valid numeral that starts with a non-zero digit has a positive value,
      and extraction gives it back. */
  lemma {:induction false} ExtractOfValue(s: string, b: int)
    requires 2 <= b <= 16
    requires ValidIn(s, b) && |s| > 0 && s[0] != '0'
    ensures Value(s, b) > 0
    ensures Extract(Value(s, b), b) == s
    decreases |s|
  {
    var p, c := s[..|s| - 1], s[|s| - 1];
    var d := DigitValue(c);
    assert s == p + [c];
    assert 0 <= d < b && Alphabet[d] == c;
    assert Value(s, b) == Value(p, b) * b + d by { ValueAppend(p, c, b); }
    if p == [] {
      ExtractOfDigit(c, b);
    } else {
      ValidInPrefix(s, |s| - 1, b);
      assert p[0] == s[0];
      ExtractOfValue(p, b);
      ExtractShift(Value(p, b), d, b);
    }
  }

  /** A single non-zero digit is extracted back to itself. */
  lemma ExtractOfDigit(c: char, b: int)
    requires 2 <= b <= 16 && 0 < DigitValue(c) < b
    ensures Value([c], b) == DigitValue(c) && Extract(DigitValue(c), b) == [c]
  {
    var d := DigitValue(c);
    assert Value([c], b) == d * Pow(b, 0) + Value([], b);
    assert d / b == 0 && d % b == d by { DivModOfLast(0, d, b); }
    assert Extract(d, b) == Extract(0, b) + [Alphabet[d]] by { ExtractLast(d, b); }
  }

  /** Extracting v * b + d appends the digit d to the extraction of v. */
  lemma ExtractShift(v: nat, d: int, b: int)
    requires 2 <= b <= 16 && v > 0 && 0 <= d < b
    ensures v * b + d > 0 && Extract(v * b + d, b) == Extract(v, b) + [Alphabet[d]]
  {
    var n := v * b + d;
    assert n > 0 by { MulSign(v, b); }
    assert n / b == v && n % b == d by { DivModOfLast(v, d, b); }
    ExtractLast(n, b);
  }

  /** Rendering inverts positional value on canonical numerals: a canonical
      numeral is the one rendering of its own value. */
  lemma ToBaseOfValue(s: string, b: int)
    requires 2 <= b <= 16
    requires ValidIn(s, b) && Canonical(s)
    ensures Value(s, b) >= 0 && ToBase(Value(s, b), b) == s
  {
    if s[0] == '0' {
      assert s == "0";
      assert Value(s, b) == 0 by {
        assert Value(s, b) == DigitValue('0') * Pow(b, 0) + Value([], b);
      }
    } else {
      ExtractOfValue(s, b);
    }
  }

  /** Two canonical numerals valid in the same base are equal exactly when
      their values are: comparing digit strings compares values. */
  lemma CanonicalValueUnique(s: string, t: string, b: int)
    requires 2 <= b <= 16
    requires ValidIn(s, b) && Canonical(s) && ValidIn(t, b) && Canonical(t)
    ensures s == t <==> Value(s, b) == Value(t, b)
  {
    ToBaseOfValue(s, b);
    ToBaseOfValue(t, b);
  }

  /** Rendering in base nb and reading the rendering back in base nb, then
      rendering in the original base, gives the canonical numeral back. */
  lemma ConvertRoundTrip(s: string, b: int, nb: int)
    requires 2 <= b <= 16 && 2 <= nb <= 16
    requires ValidIn(s, b) && Canonical(s)
    ensures Value(s, b) >= 0
    ensures Value(ToBase(Value(s, b), nb), nb) == Value(s, b)
    ensures ToBase(Value(ToBase(Value(s, b), nb), nb), b) == s
  {
    ToBaseOfValue(s, b);
    ToBaseCorrect(Value(s, b), nb);
  }

  /** Going through base ten first, as convert does for two non-decimal
      bases, renders the same numeral as converting directly. */
  lemma ViaDecimal(n: nat, nb: int)
    requires 2 <= nb <= 16
    ensures Value(ToBase(n, 10), 10) == n
    ensures AllDecimal(ToBase(n, 10))
    ensures ToBase(Value(ToBase(n, 10), 10), nb) == ToBase(n, nb)
  {
    ToBaseCorrect(n, 10);
    DecimalIsValidInTen(ToBase(n, 10));
  }
}
