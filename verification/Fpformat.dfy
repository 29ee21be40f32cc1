/** Decimal formatting of Lib/fpformat.py: rounding on digit strings, with carry, exponent
    shifting and negative digit counts. The methods start from the parts that `extract` returns. */
module Fpformat {
  import opened Basics
  import opened Decimals

  function Max0(n: int): nat {
    if n > 0 then n else 0
  }

  // ---------- Rounding ----------

  /** n / m rounded to the nearest integer, halves upwards. */
  function HalfUp(n: nat, m: nat): nat
    requires m > 0
  {
    (2 * n + m) / (2 * m)
  }

  lemma HalfUpSplit(q: nat, r: nat, m: nat)
    requires 0 <= r < m
    ensures HalfUp(q * m + r, m) == if 2 * r >= m then q + 1 else q
  {
    var k := if 2 * r >= m then q + 1 else q;
    var n := 2 * (q * m + r) + m;
    var rest := n - k * (2 * m);
    assert rest == if 2 * r >= m then 2 * r - m else 2 * r + m;
    QuotientIs(n, 2 * m, k, rest);
  }

  lemma HalfUpSmall(n: nat, m: nat)
    requires 2 * n < m
    ensures HalfUp(n, m) == 0
  {
    QuotientIs(2 * n + m, 2 * m, 0, 2 * n + m);
  }

  /** What `roundfrac` should keep of a number with f fraction digits: the integer multiple of
      10 to the power -digs nearest to it. */
  function Kept(n: nat, f: nat, digs: int): nat {
    if f <= digs then n * Pow(digs - f) else HalfUp(n, Pow(f - digs))
  }

  function NextDigit(c: char): char
    requires '0' <= c < '9'
  {
    (c as int + 1) as char
  }

  /** Incrementing the last digit that is not a nine, and clearing what follows. */
  lemma {:induction false} Increment(s: string, n: nat)
    requires Digits(s) && n < |s| && s[n] != '9'
    requires forall k :: n < k < |s| ==> s[k] == '9'
    ensures var t := s[..n] + [NextDigit(s[n])] + Zeros(|s| - n - 1);
      Digits(t) && Val(t) == Val(s) + 1
    decreases |s|
  {
    var t := s[..n] + [NextDigit(s[n])] + Zeros(|s| - n - 1);
    if n == |s| - 1 {
      assert t[..|t| - 1] == s[..|s| - 1];
    } else {
      var p := s[..|s| - 1];
      Increment(p, n);
      assert t[..|t| - 1] == p[..n] + [NextDigit(p[n])] + Zeros(|p| - n - 1);
      assert s[|s| - 1] == '9' && t[|t| - 1] == '0';
    }
  }

  /** The first dropped digit decides: it is at least 5 exactly when the dropped part is at least
      half a unit. */
  lemma FirstDigitDecides(rest: string)
    requires Digits(rest) && rest != ""
    ensures rest[0] >= '5' <==> 2 * Val(rest) >= Pow(|rest|)
  {
    ValFirst(rest);
    ValBound(rest[1..]);
    var p := Pow(|rest| - 1);
    var d := DigitValue(rest[0]);
    if d >= 5 {
      MulMonotone(5, d, p);
    } else {
      MulMonotone(d, 4, p);
    }
  }

  lemma KeptSplit(total: string, f: nat, digs: int, cut: nat)
    requires Digits(total) && f > digs && cut < |total| && |total| - cut == f - digs
    ensures Kept(Val(total), f, digs) == Val(total[..cut]) + if total[cut] >= '5' then 1 else 0
  {
    var rest := total[cut..];
    assert total == total[..cut] + rest;
    ValAppend(total[..cut], rest);
    ValBound(rest);
    FirstDigitDecides(rest);
    HalfUpSplit(Val(total[..cut]), Val(rest), Pow(|rest|));
  }

  /** A number of fewer digits than are dropped rounds to nothing. */
  lemma KeptNothing(total: string, f: nat, digs: int)
    requires Digits(total) && f > digs && |total| < f - digs
    ensures Kept(Val(total), f, digs) == 0
  {
    ValBound(total);
    PowGap(|total|, f - digs - |total|);
    hide Pow, HalfUp;
    HalfUpSmall(Val(total), Pow(f - digs));
  }

  lemma ValShift(s: string, n: nat)
    requires Digits(s)
    ensures Digits(s + Zeros(n)) && Val(s + Zeros(n)) == Val(s) * Pow(n)
  {
    ValAppend(s, Zeros(n));
    ValZero(Zeros(n));
  }

  /** The same within the first cut digits of a longer string. */
  lemma IncrementPrefix(s: string, cut: nat, n: nat)
    requires Digits(s) && n < cut <= |s| && s[n] != '9'
    requires forall k :: n < k < cut ==> s[k] == '9'
    ensures var t := s[..n] + [NextDigit(s[n])] + Zeros(|s| - n - 1);
      Digits(t) && |t| == |s| && Val(t[..cut]) == Val(s[..cut]) + 1
  {
    var t := s[..n] + [NextDigit(s[n])] + Zeros(|s| - n - 1);
    Increment(s[..cut], n);
    assert t[..cut] == s[..cut][..n] + [NextDigit(s[..cut][n])] + Zeros(cut - n - 1);
  }

  lemma LeadingZero(s: string)
    requires Digits(s)
    ensures Digits("0" + s) && Val("0" + s) == Val(s)
  {
    assert "0"[..0] == "" && Val("0") == 0;
    ValAppend("0", s);
  }

  /** The hard case of `roundfrac`: increment the last kept digit, with carry, where the first cut
      digits are kept. A carry out of the first digit makes the string one longer. */
  method RoundUp(total: string, cut: nat) returns (t: string, shift: nat)
    requires Digits(total) && cut <= |total|
    ensures shift <= 1 && |t| == |total| + shift && Digits(t)
    ensures Val(t[..cut + shift]) == Val(total[..cut]) + 1
    ensures shift == 1 ==> t[0] == '1'
  {
    hide Val;
    var n := cut - 1;
    while n >= 0 && total[n] == '9'
      invariant -1 <= n < cut
      invariant forall k :: n < k < cut ==> total[k] == '9'
    {
      n := n - 1;
    }
    t, shift := total, 0;
    if n < 0 {
      LeadingZero(total[..cut]);
      t, shift, n := "0" + total, 1, 0;
      assert t[..cut + 1] == "0" + total[..cut];
    }
    IncrementPrefix(t, cut + shift, n);
    t := t[..n] + [NextDigit(t[n])] + Zeros(|t| - n - 1);
  }

  lemma TakeJoins(s: string, i: nat, n: nat)
    requires i + n <= |s|
    ensures s[..i] + s[i..][..n] == s[..i + n]
  {
  }

  /** `roundfrac`: round or extend the fraction to digs digits; a negative digs clears digits of
      the integer part. */
  method RoundFrac(intpart: string, fraction: string, digs: int) returns (ip: string, fr: string)
    requires Digits(intpart) && Digits(fraction)
    ensures Digits(ip) && Digits(fr) && Digits(ip + fr) && |fr| == Max0(digs)
    ensures Val(ip + fr) == Kept(Val(intpart + fraction), |fraction|, digs) * Pow(Max0(-digs))
    ensures digs >= 0 ==> |ip| == |intpart| || (|ip| == |intpart| + 1 && ip[0] == '1')
  {
    hide Kept, Val;
    var f := |fraction|;
    if f <= digs {
      ip, fr := intpart, fraction + Zeros(digs - f);
      assert ip + fr == (intpart + fraction) + Zeros(digs - f);
      ValShift(intpart + fraction, digs - f);
      KeptExtends(Val(intpart + fraction), f, digs);
      return;
    }
    var i := |intpart|;
    if i + digs < 0 {
      ip, fr := Zeros(-digs), "";
      assert ip + fr == Zeros(-digs);
      ValZero(ip);
      KeptNothing(intpart + fraction, f, digs);
      return;
    }
    var total := intpart + fraction;
    ghost var cut := i + digs;
    KeptSplit(total, f, digs, cut);
    if total[i + digs] >= '5' {
      var shift;
      total, shift := RoundUp(total, i + digs);
      i, cut := i + shift, cut + shift;
    }
    ip, fr := total[..i], total[i..];
    if digs >= 0 {
      fr := fr[..digs];
      TakeJoins(total, i, digs);
    } else {
      ip, fr := ip[..i + digs] + Zeros(-digs), "";
      assert ip + fr == total[..cut] + Zeros(-digs);
      ValShift(total[..cut], -digs);
    }
  }

  lemma KeptExtends(n: nat, f: nat, digs: int)
    requires f <= digs
    ensures Kept(n, f, digs) == n * Pow(digs - f)
  {
  }

  // ---------- What the strings denote ----------

  /** 10 to the power e, for any integer e. */
  function Scale(e: int): real
    decreases if e < 0 then -e else e
  {
    if e == 0 then 1.0 else if e > 0 then 10.0 * Scale(e - 1) else Scale(e + 1) / 10.0
  }

  /** x with the decimal point moved e places to the right. */
  function Shift(x: real, e: int): real {
    x * Scale(e)
  }

  /** The number written intpart.fraction times 10 to the power expo. */
  function Num(intpart: string, fraction: string, expo: int): real
    requires Digits(intpart) && Digits(fraction)
  {
    Shift(Val(intpart + fraction) as real, expo - |fraction|)
  }

  /** x rounded to the nearest multiple of 10 to the power -digs, halves away from zero (the sign
      is formatted separately, so x is not negative). */
  function Rounded(x: real, digs: int): real {
    Shift((Shift(x, digs) + 0.5).Floor as real, -digs)
  }

  lemma {:induction false} ScalePositive(e: int)
    ensures Scale(e) > 0.0
    decreases if e < 0 then -e else e
  {
    if e > 0 {
      ScalePositive(e - 1);
    } else if e < 0 {
      ScalePositive(e + 1);
    }
  }

  lemma ScaleAdd(a: int, b: int)
    ensures Scale(a + b) == Scale(a) * Scale(b)
  {
    if a >= 0 {
      ScaleAddUp(a, b);
    } else {
      ScaleAddDown(-a, b);
    }
  }

  lemma {:induction false} ScaleAddUp(a: nat, b: int)
    ensures Scale(a + b) == Scale(a) * Scale(b)
  {
    assert Scale(0) == 1.0;
    hide Scale;
    if a > 0 {
      ScaleAddUp(a - 1, b);
      ScaleSuccessor(a - 1);
      ScaleSuccessor(a + b - 1);
      TenUp(Scale(a - 1), Scale(b), Scale(a), Scale(a + b - 1), Scale(a + b));
    }
  }

  lemma {:induction false} ScaleAddDown(a: nat, b: int)
    ensures Scale(b - a) == Scale(0 - a) * Scale(b)
  {
    assert Scale(0) == 1.0;
    hide Scale;
    if a > 0 {
      ScaleAddDown(a - 1, b);
      ScaleSuccessor(0 - a);
      ScaleSuccessor(b - a);
      TenDown(Scale(0 - a), Scale(b), Scale(1 - a), Scale(b - a), Scale(b - a + 1));
    }
  }

  lemma TenUp(x: real, y: real, x10: real, z: real, z10: real)
    requires x10 == 10.0 * x && z10 == 10.0 * z && z == x * y
    ensures z10 == x10 * y
  {
  }

  lemma TenDown(x: real, y: real, x10: real, z: real, z10: real)
    requires x10 == 10.0 * x && z10 == 10.0 * z && z10 == x10 * y
    ensures z == x * y
  {
    assert 10.0 * z == 10.0 * (x * y);
  }

  lemma Associate(a: real, b: real, c: real)
    ensures (a * b) * c == a * (b * c)
  {
  }

  lemma ScaleSuccessor(e: int)
    ensures Scale(e + 1) == 10.0 * Scale(e)
  {
  }

  lemma ScaleInverse(e: int)
    ensures Scale(e) * Scale(-e) == 1.0
  {
    ScaleAdd(e, -e);
  }

  lemma {:induction false} ScalePow(n: nat)
    ensures Scale(n) == Pow(n) as real
  {
    if n > 0 {
      ScalePow(n - 1);
    }
  }

  lemma FloorOfQuotient(a: int, b: int)
    requires b > 0
    ensures (a as real / b as real).Floor == a / b
  {
    var q, r := a / b, a % b;
    var y := a as real / b as real;
    assert a as real == (b * q) as real + r as real;
    assert (b * q) as real == b as real * q as real;
    assert y * b as real == a as real;
    RealQuotient(y, b as real, q as real, r as real);
  }

  lemma RealQuotient(y: real, b: real, q: real, r: real)
    requires b > 0.0 && 0.0 <= r < b && y * b == b * q + r
    ensures q <= y < q + 1.0
  {
    var d := y - q;
    assert d * b == r;
    assert d < 0.0 ==> d * b < 0.0;
    assert d >= 1.0 ==> d * b >= b;
  }

  lemma ShiftShift(x: real, a: int, b: int)
    ensures Shift(Shift(x, a), b) == Shift(x, a + b)
  {
    ScaleAdd(a, b);
    hide Scale;
    Associate(x, Scale(a), Scale(b));
  }

  lemma ShiftNot(x: real)
    ensures Shift(x, 0) == x
  {
    assert Scale(0) == 1.0;
  }

  lemma ShiftNat(n: nat, e: nat)
    ensures Shift(n as real, e) == (n * Pow(e)) as real
  {
    ScalePow(e);
    hide Scale, Pow;
  }

  /** The integer that roundfrac keeps is the nearest one. */
  lemma KeptIsRounded(n: nat, f: nat, digs: int)
    ensures Rounded(Shift(n as real, 0 - f), digs) == Shift(Kept(n, f, digs) as real, -digs)
  {
    ShiftShift(n as real, 0 - f, digs);
    assert 0 - f + digs == digs - f;
    NearestInteger(n, f, digs);
  }

  lemma NearestInteger(n: nat, f: nat, digs: int)
    ensures (Shift(n as real, digs - f) + 0.5).Floor == Kept(n, f, digs)
  {
    if f <= digs {
      ShiftNat(n, digs - f);
      var k := n * Pow(digs - f);
      assert (k as real + 0.5).Floor == k;
    } else {
      var m := Pow(f - digs);
      ScalePow(f - digs);
      ScaleInverse(f - digs);
      assert digs - f == -(f - digs);
      hide Scale, Pow;
      HalfwayQuotient(n, m, Scale(digs - f));
      FloorOfQuotient(2 * n + m, 2 * m);
    }
  }

  lemma HalfwayQuotient(n: nat, m: nat, s: real)
    requires m > 0 && m as real * s == 1.0
    ensures n as real * s + 0.5 == (2 * n + m) as real / (2 * m) as real
  {
    var y := n as real * s + 0.5;
    assert y * (2 * m) as real == 2.0 * n as real * (m as real * s) + m as real;
  }

  /** The error is at most half a unit of the last place kept, and less than that where it rounds
      down. */
  lemma RoundedError(x: real, digs: int)
    ensures -Shift(0.5, -digs) < Rounded(x, digs) - x <= Shift(0.5, -digs)
  {
    var y := Shift(x, digs);
    var k := (y + 0.5).Floor as real;
    ShiftShift(x, digs, -digs);
    ShiftNot(x);
    assert Shift(y, -digs) == x && Rounded(x, digs) == Shift(k, -digs);
    ShiftMonotone(k, y + 0.5, y, 0.5, -digs);
    ShiftIncreases(y, k + 0.5, k, 0.5, -digs);
  }

  lemma ShiftIncreases(a: real, bc: real, b: real, c: real, e: int)
    requires a < bc && bc == b + c
    ensures Shift(a, e) < Shift(b, e) + Shift(c, e)
  {
    ScalePositive(e);
    hide Scale;
    RealIncreases(a, bc, Scale(e));
  }

  lemma RealIncreases(a: real, b: real, c: real)
    requires a < b && c > 0.0
    ensures a * c < b * c
  {
  }

  lemma ShiftMonotone(a: real, bc: real, b: real, c: real, e: int)
    requires a <= bc && bc == b + c
    ensures Shift(a, e) <= Shift(b, e) + Shift(c, e)
  {
    ScalePositive(e);
    hide Scale;
    RealMonotone(a, bc, Scale(e));
  }

  lemma RealMonotone(a: real, b: real, c: real)
    requires a <= b && c >= 0.0
    ensures a * c <= b * c
  {
  }

  /** Rounding commutes with moving the point. */
  lemma RoundedShift(x: real, digs: int, e: int)
    ensures Rounded(Shift(x, e), digs - e) == Shift(Rounded(x, digs), e)
  {
    ShiftShift(x, e, digs - e);
    ShiftShift((Shift(x, digs) + 0.5).Floor as real, -digs, e);
    hide Shift;
    assert e + (digs - e) == digs && -digs + e == -(digs - e);
  }

  // ---------- fix ----------

  /** `unexpo`: remove the exponent by moving digits between the two parts. */
  function Unexpo(intpart: string, fraction: string, expo: int): (string, string) {
    var i, f := |intpart|, |fraction|;
    if expo > 0 then
      if expo > f then (intpart + fraction + Zeros(expo - f), "")
      else (intpart + fraction[..expo], fraction[expo..])
    else if expo < 0 then
      if expo < -i then ("", Zeros(-expo - i) + (intpart + fraction))
      else (intpart[..i + expo], intpart[i + expo..] + fraction)
    else (intpart, fraction)
  }

  lemma UnexpoDenotes(intpart: string, fraction: string, expo: int)
    requires Digits(intpart) && Digits(fraction)
    ensures var (ip, fr) := Unexpo(intpart, fraction, expo);
      Digits(ip) && Digits(fr) && Num(ip, fr, 0) == Num(intpart, fraction, expo)
  {
    hide Shift, Val;
    var (ip, fr) := Unexpo(intpart, fraction, expo);
    var all := intpart + fraction;
    if expo > |fraction| {
      var k := expo - |fraction|;
      assert ip + fr == all + Zeros(k);
      ValShift(all, k);
      ShiftNat(Val(all), k);
      ShiftNot(Val(all + Zeros(k)) as real);
    } else if expo < -|intpart| {
      var z := Zeros(-expo - |intpart|);
      assert ip + fr == z + all;
      ValAppend(z, all);
      ValZero(z);
    } else {
      assert ip + fr == all;
    }
  }

  /** `roundfrac`, in terms of what the strings denote. */
  lemma KeptDenotes(intpart: string, fraction: string, digs: int, ip: string, fr: string)
    requires Digits(intpart) && Digits(fraction) && Digits(ip) && Digits(fr) && |fr| == Max0(digs)
    requires Val(ip + fr) == Kept(Val(intpart + fraction), |fraction|, digs) * Pow(Max0(-digs))
    ensures Num(ip, fr, 0) == Rounded(Num(intpart, fraction, 0), digs)
  {
    hide Kept, Rounded, Val, Shift;
    var k := Kept(Val(intpart + fraction), |fraction|, digs);
    assert Rounded(Num(intpart, fraction, 0), digs) == Shift(k as real, -digs) by {
      KeptIsRounded(Val(intpart + fraction), |fraction|, digs);
    }
    var v := Val(ip + fr);
    assert Num(ip, fr, 0) == Shift(v as real, 0 - |fr|);
    WholeUnits(k, v, digs);
  }

  lemma WholeUnits(k: nat, v: nat, digs: int)
    requires v == k * Pow(Max0(-digs))
    ensures Shift(v as real, 0 - Max0(digs)) == Shift(k as real, -digs)
  {
    hide Shift;
    if digs < 0 {
      ShiftNat(k, -digs);
      ShiftNot(v as real);
    } else {
      assert Pow(0) == 1;
    }
  }

  lemma StripZero(s: string)
    requires Digits(s) && s != "" && s[0] == '0'
    ensures Digits(s[1..]) && Val(s[1..]) == Val(s)
  {
    assert s == "0" + s[1..];
    LeadingZero(s[1..]);
  }

  lemma StripZeroNum(ip: string, fr: string)
    requires Digits(ip) && Digits(fr) && ip != "" && ip[0] == '0'
    ensures Digits(ip[1..]) && Num(ip[1..], fr, 0) == Num(ip, fr, 0)
  {
    assert (ip + fr)[1..] == ip[1..] + fr;
    StripZero(ip + fr);
    hide Shift, Val, Digits;
  }

  lemma LeadingZeroNum(fr: string)
    requires Digits(fr)
    ensures Num("0", fr, 0) == Num("", fr, 0)
  {
    assert "" + fr == fr;
    LeadingZero(fr);
    hide Shift, Val;
  }

  /** The loop of `fix` that drops superfluous zeros. */
  method StripZeros(ip0: string, fr: string) returns (ip: string)
    requires Digits(ip0) && Digits(fr)
    ensures Digits(ip) && ip != "" && (|ip| > 1 ==> ip[0] != '0')
    ensures Num(ip, fr, 0) == Num(ip0, fr, 0)
  {
    hide Num;
    ip := ip0;
    while ip != "" && ip[0] == '0'
      invariant Digits(ip) && Num(ip, fr, 0) == Num(ip0, fr, 0)
      decreases |ip|
    {
      StripZeroNum(ip, fr);
      ip := ip[1..];
    }
    if ip == "" {
      LeadingZeroNum(fr);
      ip := "0";
    }
  }

  /** `fix`, from the parts of the number: the text s is made of the digits i and f, which are those
      of the number rounded to digs places, with no superfluous leading zero. */
  method Fix(sign: string, intpart: string, fraction: string, expo: int, digs: int)
    returns (s: string, i: string, f: string)
    requires Digits(intpart) && Digits(fraction)
    ensures s == sign + i + if digs > 0 then "." + f else ""
    ensures Digits(i) && Digits(f) && i != "" && (|i| > 1 ==> i[0] != '0') && |f| == Max0(digs)
    ensures Num(i, f, 0) == Rounded(Num(intpart, fraction, expo), digs)
  {
    UnexpoDenotes(intpart, fraction, expo);
    var (ip0, fr0) := Unexpo(intpart, fraction, expo);
    var ip, fr := RoundFrac(ip0, fr0, digs);
    KeptDenotes(ip0, fr0, digs, ip, fr);
    hide Num, Rounded, Kept, Unexpo, Shift, Val, Pow;
    ip := StripZeros(ip, fr);
    s := if digs > 0 then sign + ip + "." + fr else sign + ip;
    i, f := ip, fr;
    assert sign + ip + "." + fr == sign + ip + ("." + fr);
    assert sign + ip == sign + ip + "";
  }

  // ---------- sci ----------

  /** The text of an exponent: a sign, and at least three digits, without superfluous zeros in front. */
  predicate IsExponent(s: string, e: int) {
    && |s| >= 4 && s[0] == (if e < 0 then '-' else '+')
    && Digits(s[1..]) && Val(s[1..]) == (if e < 0 then -e else e)
    && (|s| > 4 ==> s[1] != '0')
  }

  /** There is only one. */
  lemma ExponentIsUnique(s: string, t: string, e: int)
    requires IsExponent(s, e) && IsExponent(t, e)
    ensures s == t
  {
    if |s| < |t| {
      LongerIsMore(s[1..], t[1..]);
    } else if |t| < |s| {
      LongerIsMore(t[1..], s[1..]);
    } else {
      ValInjective(s[1..], t[1..]);
      assert s == [s[0]] + s[1..] && t == [t[0]] + t[1..];
    }
  }

  function ExponentText(e: int): (s: string)
    ensures IsExponent(s, e)
  {
    var t := Decimal(if e < 0 then -e else e);
    var padded := Zeros(Max0(3 - |t|)) + t;
    ValAppend(Zeros(Max0(3 - |t|)), t);
    ValZero(Zeros(Max0(3 - |t|)));
    [if e < 0 then '-' else '+'] + padded
  }

  /** The leading digit stands at 10 to the power e. */
  lemma LeadingPlace(d: string, fr: string, e: int)
    requires Digits(d) && Digits(fr) && |d| == 1
    ensures d != "0" ==> Shift(1.0, e) <= Num(d, fr, e) < Shift(1.0, e + 1)
    ensures d == "0" && fr == "" ==> Num(d, fr, e) == 0.0
  {
    var all := d + fr;
    var n := |fr|;
    if d != "0" {
      ValFirst(all);
      ValBound(all[1..]);
      ValBound(all);
      MulMonotone(1, DigitValue(d[0]), Pow(n));
      PlaceOf(n, e);
      PlaceOf(n + 1, e + 1);
      hide Shift, Val, Pow;
      var v := Val(all);
      assert Pow(n) <= v < Pow(n + 1);
      ShiftStrict(Pow(n), v, Pow(n + 1), e - n);
    } else if fr == "" {
      assert all == "0";
      LeadingZero("");
      assert "0" + "" == "0";
    }
  }

  lemma PlaceOf(n: nat, e: int)
    ensures Shift(Pow(n) as real, e - n) == Shift(1.0, e)
  {
    ShiftNat(1, n);
    hide Shift;
    ShiftShift(1.0, n, e - n);
    assert 1 * Pow(n) == Pow(n) && n + (e - n) == e;
  }

  lemma ShiftStrict(a: nat, b: nat, c: nat, e: int)
    requires a <= b < c
    ensures Shift(a as real, e) <= Shift(b as real, e) < Shift(c as real, e)
  {
    ScalePositive(e);
    hide Scale;
    var s := Scale(e);
    assert (b as real - a as real) * s >= 0.0;
    assert (c as real - b as real) * s > 0.0;
  }

  lemma NumShift(ip: string, fr: string, e: int)
    requires Digits(ip) && Digits(fr)
    ensures Num(ip, fr, e) == Shift(Num(ip, fr, 0), e)
  {
    ShiftShift(Val(ip + fr) as real, 0 - |fr|, e);
    hide Shift;
    assert 0 - |fr| + e == e - |fr|;
  }

  lemma KeptBound(ip: string, fr: string, digs: nat)
    requires Digits(ip) && Digits(fr)
    ensures Kept(Val(ip + fr), |fr|, digs) <= Pow(|ip| + digs)
  {
    var all := ip + fr;
    if |fr| <= digs {
      var z := Zeros(digs - |fr|);
      ValShift(all, digs - |fr|);
      ValBound(all + z);
    } else {
      KeptSplit(all, |fr|, digs, |ip| + digs);
      ValBound(all[..|ip| + digs]);
    }
  }

  /** A carry out of the first digit leaves a one and zeros. */
  lemma CarryOut(s: string, n: nat)
    requires Digits(s) && |s| == n + 1 && s[0] == '1' && Val(s) <= Pow(n)
    ensures s == "1" + Zeros(n) && Val(s) == Pow(n)
  {
    ValFirst(s);
    ValZero(s[1..]);
    assert s == s[..1] + s[1..];
  }

  lemma OneAndZeros(n: nat)
    ensures Digits("1" + Zeros(n)) && Val("1" + Zeros(n)) == Pow(n)
  {
    assert "1"[..0] == "" && Val("1") == 1;
    ValShift("1", n);
  }

  lemma RoundedAtLead(ip0: string, fr0: string, digs: nat, ip: string, fr: string, e: int)
    requires Digits(ip0) && Digits(fr0) && Digits(ip) && Digits(fr)
    requires Num(ip, fr, 0) == Rounded(Num(ip0, fr0, 0), digs)
    ensures Num(ip, fr, e) == Rounded(Num(ip0, fr0, e), digs - e)
  {
    NumShift(ip, fr, e);
    NumShift(ip0, fr0, e);
    RoundedShift(Num(ip0, fr0, 0), digs, e);
  }

  /** Rounding keeps a leading digit that is not zero, and zero stays zero. */
  lemma LeadingDigitStays(d: string, fr0: string, digs: nat, ip: string, fr: string)
    requires Digits(d) && Digits(fr0) && Digits(ip) && Digits(fr) && |d| == 1 && |fr| == digs && |ip| >= 1
    requires |ip| == 1 || ip[0] == '1'
    requires d == "0" ==> fr0 == ""
    requires Val(ip + fr) == Kept(Val(d + fr0), |fr0|, digs)
    ensures ip == "0" <==> d == "0"
  {
    hide Kept, Val, Pow;
    if d == "0" {
      assert d + fr0 == "0";
      KeptZero(digs);
      ZeroFirst(ip, fr);
    } else {
      KeptAtLeast(d, fr0, digs);
      NonZeroFirst(ip, fr);
    }
  }

  lemma ZeroFirst(ip: string, fr: string)
    requires Digits(ip) && Digits(fr) && Digits(ip + fr) && Val(ip + fr) == 0 && |ip| >= 1
    ensures ip[0] == '0'
  {
    ValZero(ip + fr);
    assert (ip + fr)[0] == ip[0];
  }

  lemma NonZeroFirst(ip: string, fr: string)
    requires Digits(ip) && Digits(fr) && Digits(ip + fr) && Val(ip + fr) >= Pow(|fr|)
    ensures ip != "0"
  {
    if ip == "0" {
      LeadingZero(fr);
      ValBound(fr);
    }
  }

  lemma KeptZero(digs: nat)
    ensures Digits("0") && Kept(Val("0"), 0, digs) == 0
  {
    assert "0"[..0] == "" && Val("0") == 0;
  }

  lemma KeptAtLeast(d: string, fr0: string, digs: nat)
    requires Digits(d) && Digits(fr0) && |d| == 1 && d != "0"
    ensures Kept(Val(d + fr0), |fr0|, digs) >= Pow(digs)
  {
    hide Val, Kept, Pow, DigitValue;
    var all, f := d + fr0, |fr0|;
    if f <= digs {
      ValShift(all, digs - f);
      KeptExtends(Val(all), f, digs);
      AtLeast(all + Zeros(digs - f));
    } else {
      KeptSplit(all, f, digs, 1 + digs);
      AtLeast(all[..1 + digs]);
    }
  }

  lemma AtLeast(s: string)
    requires Digits(s) && s != "" && s[0] != '0'
    ensures Val(s) >= Pow(|s| - 1)
  {
    ValFirst(s);
    MulMonotone(1, DigitValue(s[0]), Pow(|s| - 1));
  }

  /** `sci` after a carry out of the leading digit: the same number, with one digit in front. */
  lemma CarryStep(ip0: string, fr0: string, digs: nat, ip: string, fr: string, e: int)
    requires Digits(ip0) && Digits(fr0) && Digits(ip) && Digits(fr)
    requires |ip0| == 1 && |ip| == 2 && ip[0] == '1' && |fr| == digs
    requires Val(ip + fr) == Kept(Val(ip0 + fr0), |fr0|, digs)
    ensures ip == "10" && fr == Zeros(digs) && Digits("1")
    ensures Num("1", Zeros(digs), e + 1) == Num(ip, fr, e)
  {
    hide Kept, Val, Pow, Shift, Num;
    KeptBound(ip0, fr0, digs);
    CarryOut(ip + fr, digs + 1);
    TwoDigits(ip, fr, digs);
    CarryValue(ip, fr, digs, e);
  }

  lemma CarryValue(ip: string, fr: string, digs: nat, e: int)
    requires Digits(ip) && Digits(fr) && Digits(ip + fr) && |fr| == digs && Val(ip + fr) == Pow(digs + 1)
    ensures Digits("1") && Num("1", Zeros(digs), e + 1) == Num(ip, fr, e)
  {
    hide Val, Pow, Shift, Num;
    NumIs(ip, fr, e, Pow(digs + 1));
    NumOfOne(digs, e + 1);
    SamePlace(digs, e);
  }

  lemma NumIs(ip: string, fr: string, e: int, v: nat)
    requires Digits(ip) && Digits(fr) && Digits(ip + fr) && Val(ip + fr) == v
    ensures Num(ip, fr, e) == Shift(v as real, e - |fr|)
  {
  }

  lemma NumOfOne(digs: nat, e: int)
    ensures Digits("1") && Digits("1" + Zeros(digs))
    ensures Num("1", Zeros(digs), e) == Shift(Pow(digs) as real, e - digs)
  {
    hide Shift, Val, Pow;
    OneAndZeros(digs);
  }

  lemma SamePlace(digs: nat, e: int)
    ensures Shift(Pow(digs) as real, e + 1 - digs) == Shift(Pow(digs + 1) as real, e - digs)
  {
    hide Shift, Pow;
    PlaceOf(digs + 1, e + 1);
    PlaceOf(digs, e + 1);
    assert e + 1 - (digs + 1) == e - digs;
  }

  lemma TwoDigits(ip: string, fr: string, digs: nat)
    requires |ip| == 2 && |fr| == digs && ip + fr == "1" + Zeros(digs + 1)
    ensures ip == "10" && fr == Zeros(digs)
  {
    var s := ip + fr;
    assert ip == s[..2] && fr == s[2..];
  }

  /** The first half of `sci`: move the point behind the first significant digit. */
  method Normalize(intpart: string, fraction: string, expo: int) returns (d: string, fr: string, e: int)
    requires Digits(intpart) && Digits(fraction) && (intpart == "" || intpart[0] != '0')
    ensures Digits(d) && Digits(fr) && |d| == 1 && (d == "0" ==> fr == "")
    ensures Num(d, fr, e) == Num(intpart, fraction, expo)
  {
    hide Shift, Val;
    d, fr, e := intpart, fraction, expo;
    if intpart == "" {
      while fr != "" && fr[0] == '0'
        invariant Digits(fr) && d == ""
        invariant Val(d + fr) == Val(intpart + fraction) && e - |fr| == expo - |fraction|
        decreases |fr|
      {
        assert "" + fr == fr && "" + fr[1..] == fr[1..];
        StripZero(fr);
        fr := fr[1..];
        e := e - 1;
      }
      assert "" + fr == fr;
      if fr != "" {
        assert [fr[0]] + fr[1..] == fr;
        d, fr := [fr[0]], fr[1..];
        e := e - 1;
      } else {
        LeadingZero("");
        assert "0" + "" == "0";
        d := "0";
      }
    } else {
      e := expo + |intpart| - 1;
      assert [intpart[0]] + (intpart[1..] + fraction) == intpart + fraction;
      d, fr := [intpart[0]], intpart[1..] + fraction;
    }
  }

  /** `sci`, from the parts of the number. With lead the place of the leading digit, what is written
      is the number rounded to digs places after that digit: one digit d before the point, which
      is zero only for the number zero, also when the rounding carries out of the first digit. */
  method Sci(sign: string, intpart: string, fraction: string, expo: int, digs0: int)
    returns (s: string, d: string, f: string, e: int, x: string, ghost lead: int)
    requires Digits(intpart) && Digits(fraction) && (intpart == "" || intpart[0] != '0')
    ensures s == sign + d + (if digs0 > 0 then "." + f else "") + "e" + x && IsExponent(x, e)
    ensures Digits(d) && Digits(f) && |d| == 1 && |f| == Max0(digs0)
    ensures var n := Num(intpart, fraction, expo);
      && Num(d, f, e) == Rounded(n, Max0(digs0) - lead)
      && (n == 0.0 ==> d == "0")
      && (n != 0.0 ==> d != "0" && Shift(1.0, lead) <= n < Shift(1.0, lead + 1))
  {
    hide Num, Shift, Val, Kept, Pow, Rounded, ExponentText, IsExponent;
    var ip0, fr0, expo1 := Normalize(intpart, fraction, expo);
    var digs := Max0(digs0);
    var ip, fr := RoundFrac(ip0, fr0, digs);
    SciDenotes(ip0, fr0, expo1, digs, ip, fr);
    lead := expo1;
    if |ip| > 1 {
      assert [ip[0]] == "1" && ip[1..] == "0";
      assert digs > 0 ==> "0" + fr[..|fr| - 1] == Zeros(digs);
      ip, fr, expo1 := [ip[0]], ip[1..] + (if fr == "" then "" else fr[..|fr| - 1]), expo1 + 1;
    }
    s := sign + ip;
    if digs > 0 {
      s := s + "." + fr;
    }
    x := ExponentText(expo1);
    s := s + "e" + x;
    d, f, e := ip, if digs > 0 then fr else "", expo1;
    assert sign + ip + "." + fr == sign + ip + ("." + fr);
    assert sign + ip == sign + ip + "";
  }

  /** What `sci` writes denotes the rounded number, with or without a carry. */
  lemma SciDenotes(ip0: string, fr0: string, e: int, digs: nat, ip: string, fr: string)
    requires Digits(ip0) && Digits(fr0) && Digits(ip) && Digits(fr)
    requires |ip0| == 1 && |fr| == digs && (ip0 == "0" ==> fr0 == "")
    requires |ip| == 1 || (|ip| == 2 && ip[0] == '1')
    requires Val(ip + fr) == Kept(Val(ip0 + fr0), |fr0|, digs) * Pow(Max0(-(digs as int)))
    ensures |ip| == 1 ==> Num(ip, fr, e) == Rounded(Num(ip0, fr0, e), digs - e)
    ensures |ip| == 2 ==> ip == "10" && fr == Zeros(digs) && Digits("1")
    ensures |ip| == 2 ==> Num("1", Zeros(digs), e + 1) == Rounded(Num(ip0, fr0, e), digs - e)
    ensures |ip| == 1 ==> (ip == "0" <==> ip0 == "0")
    ensures ip0 == "0" ==> |ip| == 1 && Num(ip0, fr0, e) == 0.0
    ensures ip0 != "0" ==> 0.0 < Shift(1.0, e) <= Num(ip0, fr0, e) < Shift(1.0, e + 1)
  {
    assert Pow(0) == 1;
    hide Num, Shift, Val, Kept, Pow, Rounded;
    KeptDenotes(ip0, fr0, digs, ip, fr);
    RoundedAtLead(ip0, fr0, digs, ip, fr, e);
    LeadingPlace(ip0, fr0, e);
    ShiftPositive(e);
    LeadingDigitStays(ip0, fr0, digs, ip, fr);
    if |ip| == 2 {
      CarryStep(ip0, fr0, digs, ip, fr, e);
    }
  }

  lemma ShiftPositive(e: int)
    ensures Shift(1.0, e) > 0.0
  {
    ScalePositive(e);
  }
}
