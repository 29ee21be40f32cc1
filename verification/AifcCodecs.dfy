/** The number, string and float codecs of Lib/aifc.py. */
module AifcCodecs {
  import opened Basics

  type byte = x: int | 0 <= x < 256

  const TWO31: int := 0x8000_0000
  const TWO32: int := 0x1_0000_0000

  // ---------- Integers ----------

  /** The k low bytes of x, most significant first. */
  function Bytes(k: nat, x: int): (s: seq<byte>)
    ensures |s| == k
  {
    if k == 0 then [] else Bytes(k - 1, x / 256) + [x % 256]
  }

  function BigEndian(s: seq<byte>): nat {
    if s == [] then 0 else 256 * BigEndian(s[..|s| - 1]) + s[|s| - 1]
  }

  function Pow256(k: nat): (r: nat)
    ensures r > 0
  {
    if k == 0 then 1 else 256 * Pow256(k - 1)
  }

  lemma {:induction false} BytesRoundTrip(k: nat, x: int)
    requires 0 <= x < Pow256(k)
    ensures BigEndian(Bytes(k, x)) == x
  {
    if k > 0 {
      BytesRoundTrip(k - 1, x / 256);
      assert Bytes(k, x)[..k - 1] == Bytes(k - 1, x / 256);
    }
  }

  lemma ModuloStep(x: nat, m: nat)
    requires m > 0
    ensures 256 * (x / 256 % m) + x % 256 == x % (256 * m)
  {
    var q, r := x / 256 / m, x / 256 % m;
    assert x / 256 == m * q + r;
    assert x == 256 * (m * q + r) + x % 256;
    assert 256 * (m * q) == 256 * m * q;
    QuotientIs(x, 256 * m, q, 256 * r + x % 256);
  }

  /** A number that is too large loses its high bytes. */
  lemma {:induction false} BytesModulo(k: nat, x: nat)
    ensures BigEndian(Bytes(k, x)) == x % Pow256(k)
  {
    if k > 0 {
      BytesModulo(k - 1, x / 256);
      assert Bytes(k, x)[..k - 1] == Bytes(k - 1, x / 256);
      ModuloStep(x, Pow256(k - 1));
    }
  }

  lemma LongModulo(x: nat)
    ensures BigEndian(Long(x)) == x % TWO32
  {
    SmallPowers();
    BytesModulo(4, x);
  }

  lemma {:induction false} BigEndianBound(s: seq<byte>)
    ensures BigEndian(s) < Pow256(|s|)
  {
    if s != [] {
      BigEndianBound(s[..|s| - 1]);
    }
  }

  lemma SmallPowers()
    ensures Pow256(2) == 0x1_0000 && Pow256(4) == TWO32
  {
    assert Pow256(0) == 1 && Pow256(1) == 256 && Pow256(2) == 65536 && Pow256(3) == 16777216;
  }

  function Long(x: int): (s: seq<byte>)
    ensures |s| == 4
  {
    Bytes(4, if x < 0 then x + TWO32 else x)
  }

  /** chr() rejects a first byte over 255, so a short must have 16 bits. */
  function Short(x: int): (s: seq<byte>)
    requires 0 <= x < 0x1_0000
    ensures |s| == 2
  {
    [x / 256, x % 256]
  }

  function SignedLong(x: nat): int {
    if x >= TWO31 then x - TWO32 else x
  }

  function SignedShort(x: nat): int {
    if x >= 0x8000 then x - 0x1_0000 else x
  }

  lemma LongRoundTrip(x: int)
    requires -TWO31 <= x < TWO31
    ensures SignedLong(BigEndian(Long(x))) == x
  {
    SmallPowers();
    BytesRoundTrip(4, if x < 0 then x + TWO32 else x);
  }

  lemma UnsignedLongRoundTrip(x: int)
    requires 0 <= x < TWO32
    ensures BigEndian(Long(x)) == x
  {
    SmallPowers();
    BytesRoundTrip(4, x);
  }

  lemma ShortRoundTrip(x: int)
    requires 0 <= x < 0x1_0000
    ensures BigEndian(Short(x)) == x
  {
    assert Short(x)[..1] == [x / 256] && [x / 256][..0] == [];
    assert BigEndian(Short(x)[..1]) == x / 256;
  }

  /** `_write_long`, up to the write itself. */
  method EncodeLong(x0: int) returns (data: seq<byte>)
    ensures data == Long(x0)
  {
    var x := x0;
    if x < 0 {
      x := x + TWO32;
    }
    data := [];
    for i := 0 to 4
      invariant Long(x0) == Bytes(4 - i, x) + data
    {
      var d, m := x / 256, x % 256;
      assert Bytes(4 - i, x) + data == Bytes(3 - i, d) + ([m] + data);
      data := [m] + data;
      x := d;
    }
  }

  // ---------- Strings ----------

  /** A counted string, padded so that the whole has an even length. */
  function Pascal(s: seq<byte>): (r: seq<byte>)
    requires |s| < 256
    ensures |r| % 2 == 0 && |r| == 1 + |s| + (if |s| % 2 == 0 then 1 else 0)
  {
    [|s|] + s + if |s| % 2 == 0 then [0] else []
  }

  // ---------- Floats ----------

  /** A floating point number: a sign, and mant times 2 to the power exp. */
  datatype Float = Float(negative: bool, mant: nat, exp: int)

  datatype FloatResult = Finite(f: Float) | Huge(negative: bool)

  function Pow2(k: nat): (r: nat)
    ensures r >= 1
  {
    if k == 0 then 1 else 2 * Pow2(k - 1)
  }

  /** The number of significant bits. */
  function Bits(m: nat): nat {
    if m == 0 then 0 else 1 + Bits(m / 2)
  }

  lemma {:induction false} BitsBound(m: nat)
    ensures m < Pow2(Bits(m))
    ensures m > 0 ==> Bits(m) > 0 && Pow2(Bits(m) - 1) <= m
  {
    if m > 0 {
      BitsBound(m / 2);
    }
  }

  lemma {:induction false} Pow2Add(a: nat, b: nat)
    ensures Pow2(a + b) == Pow2(a) * Pow2(b)
  {
    if a > 0 {
      Pow2Add(a - 1, b);
      Double(Pow2(a - 1), Pow2(b));
    }
  }

  lemma {:induction false} Pow2Monotone(a: nat, b: nat)
    requires a <= b
    ensures Pow2(a) <= Pow2(b)
  {
    if a < b {
      Pow2Monotone(a, b - 1);
    }
  }

  lemma Double(a: nat, b: nat)
    ensures (2 * a) * b == 2 * (a * b)
  {
  }

  lemma Pow2Doubled(a: nat, x: nat)
    requires Pow2(a) == x
    ensures Pow2(a + a) == x * x
  {
    Pow2Add(a, a);
  }

  lemma Pow2Constants()
    ensures Pow2(32) == TWO32 && Pow2(64) == TWO32 * TWO32
  {
    assert Pow2(4) == 16;
    hide Pow2;
    Pow2Doubled(4, 16);
    Pow2Doubled(8, 256);
    Pow2Doubled(16, 65536);
    Pow2Doubled(32, TWO32);
  }

  lemma PowZero()
    ensures Pow2(0) == 1
  {
  }

  /** Two floats that are the same number. */
  predicate SameNumber(a: Float, b: Float) {
    var m := if a.exp <= b.exp then a.exp else b.exp;
    a.mant * Pow2(a.exp - m) == b.mant * Pow2(b.exp - m) && (a.mant != 0 ==> a.negative == b.negative)
  }

  /** The binary exponent that math.frexp returns: the number is a fraction in [1/2, 1) times 2
      to this power. */
  function Exponent(x: Float): int {
    Bits(x.mant) + x.exp
  }

  /** The fraction has the denominator 2 to this power: after the shift that makes a number below
      the exponent range denormal, if it is one. */
  function Denominator(x: Float): nat {
    var expon := Exponent(x) + 16382;
    Bits(x.mant) + if expon < 0 then -expon else 0
  }

  /** The two halves of the mantissa, as two successive floors of the fraction shifted by 32. */
  function HighHalf(x: Float): nat {
    x.mant * TWO32 / Pow2(Denominator(x))
  }

  function LowHalf(x: Float): nat {
    x.mant * TWO32 % Pow2(Denominator(x)) * TWO32 / Pow2(Denominator(x))
  }

  function ExponentField(x: Float): int {
    var expon := Exponent(x) + 16382;
    (if expon < 0 then 0 else expon) + if x.negative then 0x8000 else 0
  }

  /** `_write_float`: sign and exponent in 15 + 1 bits, then 64 bits of mantissa. */
  function WriteFloat(x: Float): (s: seq<byte>)
    ensures |s| == 10
  {
    if x.mant == 0 then Short(0) + Long(0) + Long(0)
    else if Exponent(x) > 16384 then Short(if x.negative then 0xFFFF else 0x7FFF) + Long(0) + Long(0)
    else Short(ExponentField(x)) + Long(HighHalf(x)) + Long(LowHalf(x))
  }

  /** `_read_float`, from the three fields as they are read. */
  function ReadFloat(expon0: int, himant: nat, lomant: nat): FloatResult {
    var negative := expon0 < 0;
    var expon := if negative then expon0 + 0x8000 else expon0;
    if expon == 0 && himant == 0 && lomant == 0 then Finite(Float(negative, 0, 0))
    else if expon == 0x7FFF then Huge(negative)
    else Finite(Float(negative, himant * TWO32 + lomant, expon - 16383 - 63))
  }

  lemma SplitFloor(a: nat, k: nat, d: nat)
    requires d > 0
    ensures a / d * k + a % d * k / d == a * k / d
    ensures k > 0 ==> a % d * k / d < k
  {
    var q, r := a / d, a % d;
    assert a == d * q + r;
    var z := r * k / d;
    var rem := r * k % d;
    assert r * k == d * z + rem;
    assert a * k == d * (q * k + z) + rem by {
      assert (d * q + r) * k == d * (q * k) + r * k;
      assert d * (q * k + z) == d * (q * k) + d * z;
    }
    QuotientIs(a * k, d, q * k + z, rem);
    if k > 0 {
      LessTimes(r, d, k);
      if z >= k {
        LeTimes(k, z, d);
      }
    }
  }

  lemma LessTimes(a: int, b: int, k: int)
    requires a < b && k > 0
    ensures a * k < b * k
  {
  }

  lemma LeTimes(a: int, b: int, k: int)
    requires a <= b && k >= 0
    ensures a * k <= b * k
  {
  }

  function Mantissa(x: Float): nat {
    HighHalf(x) * TWO32 + LowHalf(x)
  }

  /** The two floors amount to one, of the fraction shifted by 64. */
  lemma MantissaIsFloor(x: Float)
    requires x.mant > 0
    ensures HighHalf(x) < TWO32 && LowHalf(x) < TWO32
    ensures Mantissa(x) == x.mant * Pow2(64) / Pow2(Denominator(x))
  {
    BelowDenominator(x);
    Pow2Constants();
    hide Pow2, Denominator, Bits;
    TwoFloors(x.mant, Pow2(Denominator(x)));
  }

  lemma BelowDenominator(x: Float)
    requires x.mant > 0
    ensures x.mant < Pow2(Denominator(x))
  {
    var b, d := Bits(x.mant), Denominator(x);
    BitsBound(x.mant);
    Pow2Monotone(b, d);
  }

  lemma TwoFloors(a: nat, d: nat)
    requires a < d
    ensures a * TWO32 / d < TWO32 && a * TWO32 % d * TWO32 / d < TWO32
    ensures a * TWO32 / d * TWO32 + a * TWO32 % d * TWO32 / d == a * (TWO32 * TWO32) / d
  {
    SplitFloor(a * TWO32, TWO32, d);
    Regroup(a, TWO32, TWO32);
    SplitFloor(a, TWO32, d);
    QuotientIs(a, d, 0, a);
  }

  /** No bit is lost: the mantissa holds the number exactly. */
  predicate FitsMantissa(x: Float) {
    x.mant * Pow2(64) % Pow2(Denominator(x)) == 0
  }

  lemma FitsIsExact(x: Float)
    requires x.mant > 0
    ensures FitsMantissa(x) <==> Mantissa(x) * Pow2(Denominator(x)) == x.mant * Pow2(64)
  {
    MantissaIsFloor(x);
    hide Pow2, Denominator, Mantissa;
    NoRest(x.mant * Pow2(64), Pow2(Denominator(x)));
  }

  lemma NoRest(n: nat, d: nat)
    requires d > 0
    ensures n % d == 0 <==> n / d * d == n
  {
    assert n == d * (n / d) + n % d;
  }

  lemma CancelTimes(a: int, b: int, k: int)
    requires k > 0
    ensures a * k == b * k <==> a == b
  {
    if a < b { LessTimes(a, b, k); }
    if b < a { LessTimes(b, a, k); }
  }

  lemma Regroup(a: int, b: int, c: int)
    ensures a * (b * c) == a * b * c
  {
  }

  lemma CancelScaled(m: int, n: int, a: int, b: int)
    requires b > 0
    ensures m * (a * b) == n * b <==> m * a == n
  {
    Regroup(m, a, b);
    CancelTimes(m * a, n, b);
  }

  /** What the reader makes of the stored fields, scaled by the same power of two. */
  lemma StoredNumber(x: Float)
    requires x.mant > 0
    ensures SameNumber(Float(x.negative, Mantissa(x), x.exp + Denominator(x) - 64), x) <==> FitsMantissa(x)
  {
    FitsIsExact(x);
    var d, m := Denominator(x), Mantissa(x);
    PowZero();
    hide Pow2, Denominator, Mantissa, FitsMantissa;
    if d >= 64 {
      Pow2Add(d - 64, 64);
      CancelScaled(m, x.mant, Pow2(d - 64), Pow2(64));
    } else {
      Pow2Add(64 - d, d);
      CancelScaled(x.mant, m, Pow2(64 - d), Pow2(d));
    }
  }

  lemma FieldDecodes(x: Float)
    requires x.mant > 0 && Exponent(x) <= 16384
    ensures 0 <= ExponentField(x) < 0x1_0000
    ensures var e := SignedShort(ExponentField(x));
      && (e < 0 <==> x.negative)
      && var expon := if e < 0 then e + 0x8000 else e;
         0 <= expon < 0x7FFF && expon - 16383 - 63 == x.exp + Denominator(x) - 64
  {
  }

  /** The reader's fields are those that were written, unless all of them are zero. */
  lemma WhatIsRead(x: Float)
    requires x.mant > 0 && Exponent(x) <= 16384
    ensures var r := ReadFloat(SignedShort(ExponentField(x)), HighHalf(x), LowHalf(x));
      r.Finite? &&
      (r.f == Float(x.negative, Mantissa(x), x.exp + Denominator(x) - 64) || (Mantissa(x) == 0 && r.f.mant == 0))
  {
    FieldDecodes(x);
    hide HighHalf, LowHalf, Denominator, ExponentField, Exponent, SignedShort;
  }

  lemma ZeroDoesNotFit(x: Float)
    requires x.mant > 0 && Mantissa(x) == 0
    ensures !FitsMantissa(x)
  {
    FitsIsExact(x);
    hide Mantissa, FitsMantissa, Denominator, Pow2;
    LeTimes(1, x.mant, Pow2(64));
    assert 0 * Pow2(Denominator(x)) == 0;
  }

  lemma ZeroIsDifferent(a: Float, x: Float)
    requires a.mant == 0 && x.mant > 0
    ensures !SameNumber(a, x)
  {
    hide Pow2;
    var m := if a.exp <= x.exp then a.exp else x.exp;
    LeTimes(1, x.mant, Pow2(x.exp - m));
    assert 0 * Pow2(a.exp - m) == 0;
  }

  /** Within the exponent range, down to the denormal numbers, reading what was written gives the
      number back if and only if it fits the mantissa. */
  lemma FloatRoundTrip(x: Float)
    requires x.mant > 0 && Exponent(x) <= 16384
    ensures var r := ReadFloat(SignedShort(ExponentField(x)), HighHalf(x), LowHalf(x));
      r.Finite? && (SameNumber(r.f, x) <==> FitsMantissa(x))
  {
    WhatIsRead(x);
    StoredNumber(x);
    hide Mantissa, FitsMantissa, Denominator, ExponentField, Exponent, SameNumber, ReadFloat;
    hide HighHalf, LowHalf, SignedShort;
    var r := ReadFloat(SignedShort(ExponentField(x)), HighHalf(x), LowHalf(x));
    if Mantissa(x) == 0 {
      ZeroDoesNotFit(x);
      if r.f.mant == 0 {
        ZeroIsDifferent(r.f, x);
      }
    }
  }

  /** What reading gives for a number as written: zero loses its sign, and a number beyond the exponent
      range its value. */
  function Stored(x: Float): FloatResult {
    if x.mant == 0 then Finite(Float(false, 0, 0))
    else if Exponent(x) > 16384 then Huge(x.negative)
    else ReadFloat(SignedShort(ExponentField(x)), HighHalf(x), LowHalf(x))
  }

  /** Every number in the normal range with at most 64 significant bits fits. */
  lemma ShortMantissaFits(x: Float)
    requires x.mant > 0 && -16382 <= Exponent(x) && Bits(x.mant) <= 64
    ensures FitsMantissa(x)
  {
    var d := Bits(x.mant);
    assert Denominator(x) == d;
    Pow2Add(64 - d, d);
    hide Pow2, Denominator, Bits;
    Regroup(x.mant, Pow2(64 - d), Pow2(d));
    MultipleHasNoRest(x.mant * Pow2(64 - d), Pow2(d));
  }

  lemma MultipleHasNoRest(q: int, d: int)
    requires d > 0
    ensures q * d % d == 0 && q * d / d == q
  {
    QuotientIs(q * d, d, q, 0);
  }

  /** int() of a float: towards zero. */
  function Truncate(f: Float): int {
    var n := if f.exp >= 0 then f.mant * Pow2(f.exp) else f.mant / Pow2(-f.exp);
    if f.negative then -n else n
  }

  lemma ManyBits(m: nat, k: nat)
    requires Bits(m) > k
    ensures m >= Pow2(k)
  {
    BitsBound(m);
    Pow2Monotone(k, Bits(m) - 1);
  }

  lemma BitsAtMost(m: nat, k: nat)
    requires m < Pow2(k)
    ensures Bits(m) <= k
  {
    if Bits(m) > k {
      ManyBits(m, k);
    }
  }

  lemma IntegerMantissa(n: nat)
    requires 0 < n < Pow2(64)
    ensures var x := Float(false, n, 0);
      && Bits(n) <= 64 && Exponent(x) == Denominator(x) == Bits(n)
      && Mantissa(x) == n * Pow2(64 - Bits(n))
  {
    var x, d := Float(false, n, 0), Bits(n);
    BitsAtMost(n, 64);
    BitsBound(n);
    assert Exponent(x) == Denominator(x) == d;
    ShortMantissaFits(x);
    hide Pow2, Bits, Denominator, Exponent, FitsMantissa, Mantissa;
    FitsIsExact(x);
    Pow2Add(64 - d, d);
    Regroup(n, Pow2(64 - d), Pow2(d));
    CancelTimes(Mantissa(x), n * Pow2(64 - d), Pow2(d));
  }

  /** A positive integer below 2 to the 64 survives, as the frame rate must. */
  lemma IntegerRoundTrip(n: nat)
    requires 0 < n < Pow2(64)
    ensures var x := Float(false, n, 0);
      Exponent(x) <= 16384 &&
      var r := ReadFloat(SignedShort(ExponentField(x)), HighHalf(x), LowHalf(x));
      r.Finite? && Truncate(r.f) == n
  {
    var x, k := Float(false, n, 0), 64 - Bits(n);
    IntegerMantissa(n);
    PowZero();
    hide Pow2, Bits, Denominator, Exponent, ExponentField, Mantissa, ReadFloat, HighHalf, LowHalf;
    hide SignedShort;
    WhatIsRead(x);
    LeTimes(1, Pow2(k), n);
    Scaled(n, k, Mantissa(x));
  }

  lemma Scaled(n: nat, k: nat, m: nat)
    requires m == n * Pow2(k)
    ensures Truncate(Float(false, m, 0 - k)) == n
  {
    MultipleHasNoRest(n, Pow2(k));
    PowZero();
  }

  lemma LargeInteger(n: nat)
    requires Bits(n) > 64
    ensures var x, d := Float(false, n, 0), Bits(n);
      && Denominator(x) == d && (FitsMantissa(x) <==> Mantissa(x) * Pow2(d - 64) == n)
  {
    var x, d := Float(false, n, 0), Bits(n);
    assert Denominator(x) == d;
    hide Bits, Denominator, Mantissa, FitsMantissa;
    FitsIsExact(x);
    Pow2Add(d - 64, 64);
    hide Pow2;
    CancelScaled(Mantissa(x), n, Pow2(d - 64), Pow2(64));
  }

  lemma ZeroTruncates(f: Float)
    requires f.mant == 0
    ensures Truncate(f) == 0
  {
    if f.exp >= 0 {
      assert 0 * Pow2(f.exp) == 0;
    } else {
      QuotientIs(0, Pow2(-f.exp), 0, 0);
    }
  }

  lemma LargeIntegerReads(n: nat)
    requires 64 < Bits(n) && Bits(n) <= 16384
    ensures var r := Stored(Float(false, n, 0));
      r.Finite? && (Truncate(r.f) == n <==> FitsMantissa(Float(false, n, 0)))
  {
    var x := Float(false, n, 0);
    assert Exponent(x) == Bits(n) && n > 0;
    LargeInteger(n);
    WhatIsRead(x);
    hide Bits, Denominator, Exponent, ExponentField, Mantissa, ReadFloat, HighHalf, LowHalf;
    hide SignedShort, FitsMantissa, Pow2;
    var f := Stored(x).f;
    if f.mant == 0 {
      ZeroTruncates(f);
      ZeroDoesNotFit(x);
    }
  }

  /** A positive integer in the exponent range is read back, without its fraction, if and only if it
      fits the mantissa. */
  lemma IntegerIsRead(n: nat)
    requires 0 < n && Bits(n) <= 16384
    ensures var r := Stored(Float(false, n, 0));
      r.Finite? && (Truncate(r.f) == n <==> FitsMantissa(Float(false, n, 0)))
  {
    hide Stored, Truncate, FitsMantissa;
    if Bits(n) > 64 {
      LargeIntegerReads(n);
    } else {
      SmallIntegerReads(n);
    }
  }

  lemma SmallIntegerReads(n: nat)
    requires 0 < n && Bits(n) <= 64
    ensures var r := Stored(Float(false, n, 0));
      r.Finite? && Truncate(r.f) == n && FitsMantissa(Float(false, n, 0))
  {
    var x := Float(false, n, 0);
    BitsBound(n);
    Pow2Monotone(Bits(n), 64);
    assert Exponent(x) == Bits(n);
    hide Pow2, Bits, Truncate, FitsMantissa, ReadFloat, HighHalf, LowHalf, SignedShort, ExponentField;
    IntegerRoundTrip(n);
    ShortMantissaFits(x);
  }
}
