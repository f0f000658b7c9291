/** Decimal text of integers, as JavaScript's `Number.prototype.toString()`
    writes integral values of magnitude below 10^21 (larger ones it writes in
    exponent form, which is not modelled), and the value read back from a
    string of decimal digits. */
module Decimal {

  function Pow10(n: nat): (r: nat)
    ensures r >= 1
  {
    if n == 0 then 1 else 10 * Pow10(n - 1)
  }

  predicate IsDigit(c: char) {
    '0' <= c <= '9'
  }

  predicate AllDigits(s: string) {
    forall k :: 0 <= k < |s| ==> IsDigit(s[k])
  }

  /** A digit string in canonical form: non-empty, no leading zero unless it is "0". */
  predicate Canonical(s: string) {
    |s| >= 1 && AllDigits(s) && (|s| > 1 ==> s[0] != '0')
  }

  function DigitChar(d: nat): (c: char)
    requires d < 10
    ensures IsDigit(c)
  {
    ('0' as int + d) as char
  }

  function DigitValue(c: char): (d: nat)
    requires IsDigit(c)
    ensures d < 10
  {
    c as int - '0' as int
  }

  /** `n.toString()` for a non-negative integer `n`. */
  function NatToString(n: nat): (s: string)
    ensures Canonical(s)
  {
    if n < 10 then [DigitChar(n)] else NatToString(n / 10) + [DigitChar(n % 10)]
  }

  /** `i.toString()` for any integer `i`: a minus sign before the magnitude. */
  function IntToString(i: int): (s: string)
    ensures i >= 0 ==> Canonical(s)
    ensures i < 0 ==> |s| >= 2 && s[0] == '-' && Canonical(s[1..])
    ensures forall k :: 0 <= k < |s| ==> s[k] == '-' || IsDigit(s[k])
    ensures i >= 0 ==> DigitsValue(s) == i
    ensures i < 0 ==> DigitsValue(s[1..]) == -i
  {
    if i < 0 then
      NatToStringValue(-i);
      "-" + NatToString(-i)
    else
      NatToStringValue(i);
      NatToString(i)
  }

  /** The number a string of decimal digits denotes, most significant digit first. */
  function DigitsValue(s: string): nat
    requires AllDigits(s)
  {
    if |s| == 0 then 0 else 10 * DigitsValue(s[..|s| - 1]) + DigitValue(s[|s| - 1])
  }

  function Zeros(k: nat): (z: string)
    ensures |z| == k && AllDigits(z)
    ensures forall j :: 0 <= j < k ==> z[j] == '0'
  {
    seq(k, _ => '0')
  }

  // ---- arithmetic helpers -------------------------------------------------

  lemma Pow10Monotone(a: nat, b: nat)
    requires a <= b
    ensures Pow10(a) <= Pow10(b)
    decreases b
  {
    if a < b {
      Pow10Monotone(a, b - 1);
    }
  }

  lemma ModUnique(x: int, m: int, q: int, r: int)
    requires m > 0 && x == q * m + r && 0 <= r < m
    ensures x % m == r && x / m == q
  {
    var q0, r0 := x / m, x % m;
    assert (q - q0) * m == r0 - r;
    if q > q0 {
      MulAtLeast(q - q0, m);
    } else if q < q0 {
      MulAtLeast(q0 - q, m);
    }
  }

  lemma MulAtLeast(k: int, m: int)
    requires k >= 1 && m > 0
    ensures k * m >= m
  {
  }

  lemma ShiftMod(a: nat, c: nat, m: nat)
    requires c < 10 && m >= 1
    ensures (10 * a + c) % (10 * m) == 10 * (a % m) + c
  {
    var q, r := a / m, a % m;
    assert a == q * m + r;
    assert 10 * a + c == q * (10 * m) + (10 * r + c);
    assert 10 * r + c < 10 * m;
    ModUnique(10 * a + c, 10 * m, q, 10 * r + c);
  }

  // ---- toString and DigitsValue are inverse on canonical strings ----------

  /** Reading back the text of `n` gives `n`. */
  lemma {:induction false} NatToStringValue(n: nat)
    ensures DigitsValue(NatToString(n)) == n
    decreases n
  {
    var s := NatToString(n);
    if n >= 10 {
      NatToStringValue(n / 10);
      assert s[..|s| - 1] == NatToString(n / 10);
    }
  }

  /** A canonical digit string of length `k` denotes a number of exactly `k` digits. */
  lemma {:induction false} CanonicalValueBounds(s: string)
    requires Canonical(s)
    ensures DigitsValue(s) < Pow10(|s|)
    ensures |s| > 1 ==> Pow10(|s| - 1) <= DigitsValue(s)
    decreases |s|
  {
    ValueBound(s);
    if |s| > 1 {
      var p := s[..|s| - 1];
      assert p[0] == s[0];
      CanonicalValueBounds(p);
      if |p| == 1 {
        assert DigitsValue(p) == DigitValue(p[0]) by {
          assert p[..0] == [];
        }
      }
    }
  }

  lemma {:induction false} ValueBound(s: string)
    requires AllDigits(s)
    ensures DigitsValue(s) < Pow10(|s|)
    decreases |s|
  {
    if |s| > 0 {
      ValueBound(s[..|s| - 1]);
    }
  }

  /** Formatting the value of a canonical digit string gives the string back. */
  lemma {:induction false} ValueToString(s: string)
    requires Canonical(s)
    ensures NatToString(DigitsValue(s)) == s
    decreases |s|
  {
    var v := DigitsValue(s);
    if |s| == 1 {
      assert s[..0] == [];
      assert DigitsValue(s[..0]) == 0;
      assert v == DigitValue(s[0]);
    } else {
      var p := s[..|s| - 1];
      assert p[0] == s[0];
      ValueToString(p);
      CanonicalValueBounds(p);
      if |p| == 1 {
        assert p[..0] == [];
        assert DigitsValue(p) == DigitValue(p[0]);
      }
      assert DigitsValue(p) >= 1;
      var d := DigitValue(s[|s| - 1]);
      ModUnique(v, 10, DigitsValue(p), d);
      assert s == p + [s[|s| - 1]];
    }
  }

  /** Leading zeros do not change the value of a digit string. */
  lemma {:induction false} LeadingZerosValue(k: nat, s: string)
    requires AllDigits(s)
    ensures DigitsValue(Zeros(k) + s) == DigitsValue(s)
    decreases |s|, k
  {
    var z := Zeros(k) + s;
    if |s| == 0 {
      assert z == Zeros(k);
      if k > 0 {
        assert z[..|z| - 1] == Zeros(k - 1);
        LeadingZerosValue(k - 1, s);
        assert Zeros(k - 1) + s == Zeros(k - 1);
      }
    } else {
      var p := s[..|s| - 1];
      assert z[..|z| - 1] == Zeros(k) + p;
      LeadingZerosValue(k, p);
    }
  }

  /** The last `d` digits of a digit string denote its value modulo `10^d`. */
  lemma {:induction false} SuffixValue(s: string, d: nat)
    requires AllDigits(s) && d <= |s|
    ensures DigitsValue(s[|s| - d..]) == DigitsValue(s) % Pow10(d)
    decreases d
  {
    var t := s[|s| - d..];
    if d == 0 {
      assert t == [];
    } else {
      var p := s[..|s| - 1];
      SuffixValue(p, d - 1);
      assert t[..|t| - 1] == p[|p| - (d - 1)..];
      ShiftMod(DigitsValue(p), DigitValue(s[|s| - 1]), Pow10(d - 1));
    }
  }

}
