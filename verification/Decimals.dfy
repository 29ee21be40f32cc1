/** Strings of decimal digits and the numbers they denote. */
module Decimals {
  predicate IsDigit(c: char) {
    '0' <= c <= '9'
  }

  predicate Digits(s: string) {
    forall i :: 0 <= i < |s| ==> IsDigit(s[i])
  }

  function DigitValue(c: char): int {
    c as int - '0' as int
  }

  function Zeros(n: nat): (s: string)
    ensures |s| == n && Digits(s) && forall i :: 0 <= i < n ==> s[i] == '0'
  {
    seq(n, _ => '0')
  }

  function Pow(n: nat): (r: nat)
    ensures r >= 1
  {
    if n == 0 then 1 else 10 * Pow(n - 1)
  }

  /** The number that a digit string denotes. */
  function Val(s: string): nat
    requires Digits(s)
  {
    if s == "" then 0 else 10 * Val(s[..|s| - 1]) + DigitValue(s[|s| - 1])
  }

  lemma TenProduct(a: nat, p: nat)
    ensures a * (10 * p) == 10 * (a * p)
  {
  }

  lemma {:induction false} PowGap(a: nat, k: nat)
    requires k >= 1
    ensures Pow(a + k) >= 10 * Pow(a)
  {
    if k > 1 {
      PowGap(a, k - 1);
    }
  }

  lemma {:induction false} ValAppend(a: string, b: string)
    requires Digits(a) && Digits(b)
    ensures Digits(a + b) && Val(a + b) == Val(a) * Pow(|b|) + Val(b)
  {
    if b == "" {
      assert a + b == a;
    } else {
      var b' := b[..|b| - 1];
      assert (a + b)[..|a + b| - 1] == a + b';
      ValAppend(a, b');
      assert Pow(|b|) == 10 * Pow(|b'|);
      TenProduct(Val(a), Pow(|b'|));
    }
  }

  lemma {:induction false} ValBound(s: string)
    requires Digits(s)
    ensures Val(s) < Pow(|s|)
  {
    if s != "" {
      ValBound(s[..|s| - 1]);
    }
  }

  lemma {:induction false} ValZero(s: string)
    requires Digits(s)
    ensures Val(s) == 0 <==> s == Zeros(|s|)
  {
    if s != "" {
      var p := s[..|s| - 1];
      ValZero(p);
      assert s == p + [s[|s| - 1]];
      if s == Zeros(|s|) {
        assert p == Zeros(|p|);
      }
      if Val(s) == 0 {
        assert Val(p) == 0 && p == Zeros(|p|);
        assert forall i :: 0 <= i < |p| ==> s[i] == p[i];
      }
    }
  }

  lemma {:induction false} ValFirst(s: string)
    requires Digits(s) && s != ""
    ensures Val(s) == DigitValue(s[0]) * Pow(|s| - 1) + Val(s[1..])
  {
    assert s == s[..1] + s[1..];
    assert Val(s[..1]) == DigitValue(s[0]) by {
      assert s[..1][..0] == "";
    }
    ValAppend(s[..1], s[1..]);
  }

  /** A digit string is determined by its length and its value. */
  lemma {:induction false} ValInjective(a: string, b: string)
    requires Digits(a) && Digits(b) && |a| == |b| && Val(a) == Val(b)
    ensures a == b
  {
    if a != "" {
      var p, q := a[..|a| - 1], b[..|b| - 1];
      ValInjective(p, q);
      assert a == p + [a[|a| - 1]] && b == q + [b[|b| - 1]];
    }
  }

  lemma {:induction false} PowMonotone(a: nat, b: nat)
    requires a <= b
    ensures Pow(a) <= Pow(b)
  {
    if a < b {
      PowMonotone(a, b - 1);
    }
  }

  /** Without a leading zero the length is determined as well. */
  lemma LongerIsMore(a: string, b: string)
    requires Digits(a) && Digits(b) && |a| < |b| && b[0] != '0'
    ensures Val(a) < Val(b)
  {
    ValFirst(b);
    ValBound(a);
    PowMonotone(|a|, |b| - 1);
    MulMonotone(1, DigitValue(b[0]), Pow(|b| - 1));
  }

  lemma MulMonotone(a: int, b: int, c: int)
    requires a <= b && c >= 0
    ensures a * c <= b * c
  {
  }

  /** Python's repr of a natural number. */
  function Decimal(n: nat): (s: string)
    ensures s != "" && Digits(s) && Val(s) == n && (|s| > 1 ==> s[0] != '0')
  {
    var d := [(n % 10 + '0' as int) as char];
    if n < 10 then
      assert d[..0] == "";
      d
    else
      var s := Decimal(n / 10) + d;
      assert s[..|s| - 1] == Decimal(n / 10);
      assert |Decimal(n / 10)| == 1 ==> Decimal(n / 10) != "0" by { assert "0"[..0] == "" && Val("0") == 0; }
      s
  }
}
