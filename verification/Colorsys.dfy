/** The colour conversions of Lib/colorsys.py over exact reals. */
module Colorsys {
  import opened Basics

  function Max(a: real, b: real): real {
    if a >= b then a else b
  }

  function Min(a: real, b: real): real {
    if a <= b then a else b
  }

  /** x % 1.0 in Python. */
  function Frac(x: real): real {
    x - x.Floor as real
  }

  predicate Unit(x: real) {
    0.0 <= x <= 1.0
  }

  // ---------- The conversions ----------

  /** Six times the hue before it is reduced to one turn: which component is the largest decides
      where on the hexagon the colour lies. The caller has excluded greys. */
  function Hexagon(r: real, g: real, b: real): real
    requires Max(r, Max(g, b)) != Min(r, Min(g, b))
  {
    var maxc := Max(r, Max(g, b));
    var minc := Min(r, Min(g, b));
    var rc := (maxc - r) / (maxc - minc);
    var gc := (maxc - g) / (maxc - minc);
    var bc := (maxc - b) / (maxc - minc);
    if r == maxc then bc - gc
    else if g == maxc then 2.0 + rc - bc
    else 4.0 + gc - rc
  }

  function RgbToHsv(r: real, g: real, b: real): (real, real, real)
    requires Unit(r) && Unit(g) && Unit(b)
  {
    var maxc := Max(r, Max(g, b));
    var minc := Min(r, Min(g, b));
    var v := maxc;
    if minc == maxc then (0.0, 0.0, v)
    else (Frac(Hexagon(r, g, b) / 6.0), (maxc - minc) / maxc, v)
  }

  /** None where the Python function falls off its end. */
  function HsvToRgb(h: real, s: real, v: real): Option<(real, real, real)>
    requires h >= 0.0
  {
    if s == 0.0 then Some((v, v, v))
    else
      var i := (h * 6.0).Floor;
      Sector(i, h * 6.0 - i as real, s, v)
  }

  function Sector(i: int, f: real, s: real, v: real): Option<(real, real, real)> {
    var p := v * (1.0 - s);
    var q := v * (1.0 - s * f);
    var t := v * (1.0 - s * (1.0 - f));
    if i % 6 == 0 then Some((v, t, p))
    else if i == 1 then Some((q, v, p))
    else if i == 2 then Some((p, v, t))
    else if i == 3 then Some((p, q, v))
    else if i == 4 then Some((t, p, v))
    else if i == 5 then Some((v, p, q))
    else None
  }

  function RgbToHls(r: real, g: real, b: real): (real, real, real)
    requires Unit(r) && Unit(g) && Unit(b)
  {
    var maxc := Max(r, Max(g, b));
    var minc := Min(r, Min(g, b));
    var l := (minc + maxc) / 2.0;
    if minc == maxc then (0.0, l, 0.0)
    else (Frac(Hexagon(r, g, b) / 6.0), l, Saturation(l, maxc, minc))
  }

  function Saturation(l: real, maxc: real, minc: real): real
    requires 0.0 <= minc < maxc <= 1.0
  {
    if l <= 0.5 then (maxc - minc) / (maxc + minc) else (maxc - minc) / (2.0 - maxc - minc)
  }

  function Upper(l: real, s: real): real {
    if l <= 0.5 then l * (1.0 + s) else l + s - l * s
  }

  function HlsToRgb(h: real, l: real, s: real): (real, real, real) {
    if s == 0.0 then (l, l, l)
    else
      var m2 := Upper(l, s);
      var m1 := 2.0 * l - m2;
      Ramps(m1, m2, h)
  }

  function Ramps(m1: real, m2: real, h: real): (real, real, real) {
    (Ramp(m1, m2, h + 1.0 / 3.0), Ramp(m1, m2, h), Ramp(m1, m2, h - 1.0 / 3.0))
  }

  /** `_v`. */
  function Ramp(m1: real, m2: real, hue0: real): real {
    var hue := Frac(hue0);
    if hue < 1.0 / 6.0 then m1 + (m2 - m1) * hue * 6.0
    else if hue < 0.5 then m2
    else if hue < 2.0 / 3.0 then m1 + (m2 - m1) * (2.0 / 3.0 - hue) * 6.0
    else m1
  }

  // ---------- Where a colour lies ----------

  /** The six sides of the hexagon: which components are the largest and the smallest, and how far
      the third is above the smallest or below the largest. */
  ghost predicate Mixed(r: real, g: real, b: real, k: int, w: real, mx: real, mn: real) {
    match k
    case 0 => r == mx && b == mn && g == mn + w
    case 1 => g == mx && b == mn && r == mx - w
    case 2 => g == mx && r == mn && b == mn + w
    case 3 => b == mx && r == mn && g == mx - w
    case 4 => b == mx && g == mn && r == mn + w
    case 5 => r == mx && g == mn && b == mx - w
    case _ => false
  }

  /** On side k, where the hue is (k + x) / 6. */
  ghost predicate OnSide(r: real, g: real, b: real, k: int, x: real, mx: real, mn: real) {
    mn < mx && 0.0 <= x < 1.0 && Mixed(r, g, b, k, Offset(mx - mn, x), mx, mn)
  }

  function Offset(d: real, x: real): real {
    d * x
  }

  lemma Share(a: real, d: real)
    requires d > 0.0
    ensures d * (a / d) == a
    ensures 0.0 <= a <= d ==> 0.0 <= a / d <= 1.0
    ensures 0.0 <= a < d ==> a / d < 1.0
    ensures a == d ==> a / d == 1.0
    ensures -d <= a < 0.0 ==> -1.0 <= a / d < 0.0
    ensures -d < a ==> -1.0 < a / d
  {
    var x := a / d;
    assert d * x == a;
    assert x < 0.0 ==> d * x < 0.0;
    assert x >= 0.0 ==> d * x >= 0.0;
    var y := x - 1.0;
    assert d * y == a - d;
    assert y < 0.0 ==> d * y < 0.0;
    assert y > 0.0 ==> d * y > 0.0;
    var z := x + 1.0;
    assert d * z == a + d;
    assert z < 0.0 ==> d * z < 0.0;
    assert z > 0.0 ==> d * z > 0.0;
  }

  lemma Distribute(a: real, b: real, c: real)
    ensures a * (b + c) == a * b + a * c
  {
  }

  lemma DivideDifference(a: real, b: real, d: real)
    requires d > 0.0
    ensures a / d - b / d == (a - b) / d
  {
    Share(a, d);
    Share(b, d);
    Share(a - b, d);
    Cancel(d, a / d - b / d, (a - b) / d);
  }

  lemma Cancel(d: real, x: real, y: real)
    requires d > 0.0 && d * x == d * y
    ensures x == y
  {
    assert d * (x - y) == 0.0;
  }

  /** The hexagon coordinate in one quotient. */
  lemma HexagonIs(r: real, g: real, b: real, mx: real, mn: real)
    requires mx == Max(r, Max(g, b)) && mn == Min(r, Min(g, b)) && mn < mx
    ensures Hexagon(r, g, b) ==
      if r == mx then (g - b) / (mx - mn)
      else if g == mx then 2.0 + (b - r) / (mx - mn)
      else 4.0 + (r - g) / (mx - mn)
  {
    var d := mx - mn;
    DivideDifference(mx - b, mx - g, d);
    DivideDifference(mx - r, mx - b, d);
    DivideDifference(mx - g, mx - r, d);
    assert mx - b - (mx - g) == g - b && mx - r - (mx - b) == b - r && mx - g - (mx - r) == r - g;
  }

  /** Every colour that is not grey lies on exactly one side, at the place its hue tells. */
  lemma Locate(r: real, g: real, b: real) returns (k: int, x: real)
    requires Max(r, Max(g, b)) != Min(r, Min(g, b))
    ensures OnSide(r, g, b, k, x, Max(r, Max(g, b)), Min(r, Min(g, b)))
    ensures Hexagon(r, g, b) == k as real + x || (k == 5 && Hexagon(r, g, b) == x - 1.0)
  {
    var mx, mn := Max(r, Max(g, b)), Min(r, Min(g, b));
    var d := mx - mn;
    HexagonIs(r, g, b, mx, mn);
    hide Hexagon;
    var a := if r == mx then g - b else if g == mx then b - r else r - g;
    var base := if r == mx then 0 else if g == mx then 2 else 4;
    Share(a, d);
    var y := a / d;
    if a < 0.0 {
      k, x := (if r == mx then 5 else base - 1), y + 1.0;
      Distribute(d, y, 1.0);
    } else if a < d {
      k, x := base, y;
    } else {
      k, x := base + 1, 0.0;
    }
  }

  lemma FracOfTurn(hex: real, k: int, x: real)
    requires 0 <= k <= 5 && 0.0 <= x < 1.0
    requires hex == k as real + x || (k == 5 && hex == x - 1.0)
    ensures Frac(hex / 6.0) * 6.0 == k as real + x
    ensures 0.0 <= Frac(hex / 6.0) < 1.0
  {
    var t := hex / 6.0;
    if hex == k as real + x {
      assert t.Floor == 0;
    } else {
      assert t.Floor == -1;
    }
  }

  // ---------- HSV ----------

  /** The three shades that `hsv_to_rgb` computes, in terms of the extremes. */
  lemma Shades(mx: real, mn: real, f: real)
    requires 0.0 <= mn < mx
    ensures var s := (mx - mn) / mx;
      && 0.0 < s <= 1.0
      && mx * (1.0 - s) == mn
      && mx * (1.0 - s * f) == mx - (mx - mn) * f
      && mx * (1.0 - s * (1.0 - f)) == mn + (mx - mn) * f
  {
    var d := mx - mn;
    Share(d, mx);
    var s := d / mx;
    assert mx * s == d;
    PositiveQuotient(d, mx);
    Spread(mx, s, f);
    Spread(mx, s, 1.0 - f);
    Spread(mx, s, 1.0);
    assert d * (1.0 - f) == d - d * f;
  }

  lemma Spread(mx: real, s: real, f: real)
    ensures mx * (1.0 - s * f) == mx - (mx * s) * f
  {
  }

  lemma SectorValue(k: int, x: real, s: real, v: real, p: real, q: real, t: real)
    requires 0 <= k <= 5
    requires v * (1.0 - s) == p && v * (1.0 - s * x) == q && v * (1.0 - s * (1.0 - x)) == t
    ensures Sector(k, x, s, v) == Some(
      match k
      case 0 => (v, t, p)
      case 1 => (q, v, p)
      case 2 => (p, v, t)
      case 3 => (p, q, v)
      case 4 => (t, p, v)
      case _ => (v, p, q))
  {
  }

  /** On side k the sector formulas give the colour back. */
  lemma SectorOfSide(r: real, g: real, b: real, k: int, x: real, mx: real, mn: real)
    requires OnSide(r, g, b, k, x, mx, mn) && 0.0 <= mn
    ensures Sector(k, x, (mx - mn) / mx, mx) == Some((r, g, b))
    ensures 0.0 < (mx - mn) / mx <= 1.0
  {
    Shades(mx, mn, x);
    assert 0 <= k <= 5;
    var d := (mx - mn) * x;
    assert mx - (mx - mn) * x == mx - d && mn + (mx - mn) * x == mn + d;
    hide Sector;
    SectorValue(k, x, (mx - mn) / mx, mx, mn, mx - d, mn + d);
  }

  /** From RGB to HSV and back: nothing is lost, and all components stay in range. */
  lemma HsvRoundTrip(r: real, g: real, b: real)
    requires Unit(r) && Unit(g) && Unit(b)
    ensures var (h, s, v) := RgbToHsv(r, g, b);
      0.0 <= h < 1.0 && Unit(s) && Unit(v) && HsvToRgb(h, s, v) == Some((r, g, b))
  {
    var mx, mn := Max(r, Max(g, b)), Min(r, Min(g, b));
    if mn != mx {
      var k, x := Locate(r, g, b);
      FracOfTurn(Hexagon(r, g, b), k, x);
      hide Hexagon, Frac;
      SectorOfSide(r, g, b, k, x, mx, mn);
      hide Sector, OnSide;
      var (h, s, v) := RgbToHsv(r, g, b);
      assert s == (mx - mn) / mx && v == mx;
      assert (h * 6.0).Floor == k && h * 6.0 - k as real == x;
    }
  }

  lemma OffsetRange(d: real, x: real)
    requires d > 0.0 && 0.0 <= x < 1.0
    ensures 0.0 <= Offset(d, x) < d
  {
    var y := x - 1.0;
    assert d * y < 0.0;
    assert d * y == d * x - d;
  }

  lemma OffsetInjective(d: real, x: real, x': real)
    requires d > 0.0 && Offset(d, x) == Offset(d, x')
    ensures x == x'
  {
    Cancel(d, x, x');
  }

  lemma MixedIsUnique(r: real, g: real, b: real, k: int, w: real, k': int, w': real, mx: real, mn: real)
    requires 0.0 <= w < mx - mn && 0.0 <= w' < mx - mn
    requires Mixed(r, g, b, k, w, mx, mn) && Mixed(r, g, b, k', w', mx, mn)
    ensures k == k' && w == w'
  {
  }

  /** A colour lies on one side only, and at one place of it. */
  lemma SideIsUnique(r: real, g: real, b: real, k: int, x: real, k': int, x': real, mx: real, mn: real)
    requires OnSide(r, g, b, k, x, mx, mn) && OnSide(r, g, b, k', x', mx, mn)
    ensures k == k' && x == x'
  {
    hide Mixed, Offset;
    OffsetRange(mx - mn, x);
    OffsetRange(mx - mn, x');
    MixedIsUnique(r, g, b, k, Offset(mx - mn, x), k', Offset(mx - mn, x'), mx, mn);
    OffsetInjective(mx - mn, x, x');
  }

  lemma MixedExtremes(r: real, g: real, b: real, k: int, w: real, mx: real, mn: real)
    requires 0.0 <= w < mx - mn && Mixed(r, g, b, k, w, mx, mn)
    ensures Max(r, Max(g, b)) == mx && Min(r, Min(g, b)) == mn
  {
  }

  lemma SideExtremes(r: real, g: real, b: real, k: int, x: real, mx: real, mn: real)
    requires OnSide(r, g, b, k, x, mx, mn)
    ensures Max(r, Max(g, b)) == mx && Min(r, Min(g, b)) == mn
  {
    hide Mixed, Max, Min, Offset;
    OffsetRange(mx - mn, x);
    MixedExtremes(r, g, b, k, Offset(mx - mn, x), mx, mn);
  }

  lemma SideOfSector(h: real, s: real, v: real, k: int, x: real, r: real, g: real, b: real)
    requires 0 <= k <= 5 && 0.0 <= x < 1.0 && 0.0 < s <= 1.0 && 0.0 < v
    requires Sector(k, x, s, v) == Some((r, g, b))
    ensures OnSide(r, g, b, k, x, v, v * (1.0 - s)) && v * (1.0 - s) >= 0.0
    ensures (v - v * (1.0 - s)) / v == s
  {
    var vs, mn := v * s, v * (1.0 - s);
    assert mn == v - vs by { Distribute(v, 1.0, -s); }
    assert 0.0 < vs <= v by { ShareOfUnit(v, s); }
    var w := vs * x;
    assert v * (1.0 - s * x) == v - w by { Spread(v, s, x); }
    assert v * (1.0 - s * (1.0 - x)) == mn + w by {
      Spread(v, s, 1.0 - x);
      Distribute(vs, 1.0, -x);
    }
    SectorValue(k, x, s, v, mn, v - w, mn + w);
    hide Sector;
    assert Mixed(r, g, b, k, w, v, mn);
    assert Offset(v - mn, x) == w;
    hide Mixed;
    QuotientIs(vs, v, s);
  }

  lemma ShareOfUnit(v: real, s: real)
    requires v > 0.0 && 0.0 < s <= 1.0
    ensures 0.0 < v * s <= v
  {
    Distribute(v, 1.0, -s);
  }

  lemma QuotientIs(a: real, d: real, q: real)
    requires d > 0.0 && a == d * q
    ensures a / d == q
  {
    Share(a, d);
    Cancel(d, a / d, q);
  }

  /** From HSV to RGB and back: exact if and only if the colour is neither black nor grey under a
      hue or saturation that black and grey do not have. */
  lemma HsvRoundTripBack(h: real, s: real, v: real)
    requires 0.0 <= h < 1.0 && Unit(s) && Unit(v)
    ensures HsvToRgb(h, s, v).Some?
    ensures var (r, g, b) := HsvToRgb(h, s, v).value;
      Unit(r) && Unit(g) && Unit(b) &&
      (RgbToHsv(r, g, b) == (h, s, v) <==> (if s == 0.0 then h == 0.0 else v > 0.0))
  {
    if s > 0.0 && v > 0.0 {
      var k := (h * 6.0).Floor;
      var x := h * 6.0 - k as real;
      SectorTotal(k, x, s, v);
      var (r, g, b) := HsvToRgb(h, s, v).value;
      SideOfSector(h, s, v, k, x, r, g, b);
      var mn := v * (1.0 - s);
      SideExtremes(r, g, b, k, x, v, mn);
      SideHue(r, g, b, k, x, v, mn);
      hide OnSide, Sector, Hexagon;
      assert Frac(Hexagon(r, g, b) / 6.0) == h;
    }
  }

  lemma SectorTotal(k: int, x: real, s: real, v: real)
    requires 0 <= k <= 5
    ensures Sector(k, x, s, v).Some?
  {
  }

  lemma SideHue(r: real, g: real, b: real, k: int, x: real, mx: real, mn: real)
    requires OnSide(r, g, b, k, x, mx, mn) && mx == Max(r, Max(g, b)) && mn == Min(r, Min(g, b))
    ensures Frac(Hexagon(r, g, b) / 6.0) * 6.0 == k as real + x
  {
    var k', x' := Locate(r, g, b);
    SideIsUnique(r, g, b, k, x, k', x', mx, mn);
    FracOfTurn(Hexagon(r, g, b), k, x);
  }

  // ---------- HLS ----------

  /** The two extremes that `hls_to_rgb` recovers from lightness and saturation. */
  lemma Extremes(mx: real, mn: real)
    requires 0.0 <= mn < mx <= 1.0
    ensures var l := (mn + mx) / 2.0;
      var s := Saturation(l, mx, mn);
      0.0 < s <= 1.0 && Unit(l) && Upper(l, s) == mx
  {
    var d := mx - mn;
    var l := (mn + mx) / 2.0;
    if l <= 0.5 {
      var w := mx + mn;
      Share(d, w);
      Distribute(l, 1.0, d / w);
      assert w * (d / w) == 2.0 * (l * (d / w));
      PositiveQuotient(d, w);
    } else {
      var w := 2.0 - mx - mn;
      Share(d, w);
      assert w * (d / w) == 2.0 * (d / w - l * (d / w)) by {
        assert w == 2.0 * (1.0 - l);
        Distribute(d / w, 1.0, -l);
      }
      PositiveQuotient(d, w);
    }
  }

  lemma PositiveQuotient(a: real, d: real)
    requires a > 0.0 && d > 0.0
    ensures a / d > 0.0
  {
  }

  /** `_v` on the hexagon: the ramp up, the plateau, the ramp down, the floor. */
  function Wave(m1: real, m2: real, y: real): real {
    if y < 1.0 then m1 + (m2 - m1) * y
    else if y < 3.0 then m2
    else if y < 4.0 then m1 + (m2 - m1) * (4.0 - y)
    else m1
  }

  lemma RampIsWave(m1: real, m2: real, hue: real, y: real)
    requires 0.0 <= y < 6.0
    requires 6.0 * hue == y || 6.0 * hue == y + 6.0 || 6.0 * hue == y - 6.0
    ensures Ramp(m1, m2, hue) == Wave(m1, m2, y)
  {
    var f := Frac(hue);
    assert hue.Floor == (if 6.0 * hue == y then 0 else if 6.0 * hue == y + 6.0 then 1 else -1);
    assert f * 6.0 == y;
    Scaled(m2 - m1, f, y);
    Scaled(m2 - m1, 2.0 / 3.0 - f, 4.0 - y);
  }

  lemma Scaled(a: real, f: real, y: real)
    requires f * 6.0 == y
    ensures a * f * 6.0 == a * y
  {
  }

  /** From RGB to HLS and back. */
  lemma HlsRoundTrip(r: real, g: real, b: real)
    requires Unit(r) && Unit(g) && Unit(b)
    ensures var (h, l, s) := RgbToHls(r, g, b);
      0.0 <= h < 1.0 && Unit(l) && Unit(s) && HlsToRgb(h, l, s) == (r, g, b)
  {
    var mx, mn := Max(r, Max(g, b)), Min(r, Min(g, b));
    if mn != mx {
      var k, x := Locate(r, g, b);
      FracOfTurn(Hexagon(r, g, b), k, x);
      hide Hexagon, Frac, OnSide;
      var (h, l, s) := RgbToHls(r, g, b);
      HlsOfSide(r, g, b, k, x, mx, mn, h, l);
    }
  }

  lemma HlsOfSide(r: real, g: real, b: real, k: int, x: real, mx: real, mn: real, h: real, l: real)
    requires OnSide(r, g, b, k, x, mx, mn) && 0.0 <= mn < mx <= 1.0
    requires h * 6.0 == k as real + x && l == (mn + mx) / 2.0
    ensures HlsToRgb(h, l, Saturation(l, mx, mn)) == (r, g, b)
    ensures 0.0 < Saturation(l, mx, mn) <= 1.0 && Unit(l)
  {
    hide OnSide, Saturation, Upper, Ramps;
    Extremes(mx, mn);
    RampsOfSide(r, g, b, k, x, mx, mn, h);
  }

  lemma RampsOfSide(r: real, g: real, b: real, k: int, x: real, mx: real, mn: real, h: real)
    requires OnSide(r, g, b, k, x, mx, mn) && h * 6.0 == k as real + x
    ensures Ramps(mn, mx, h) == (r, g, b)
  {
    var y := k as real + x;
    assert 0 <= k <= 5;
    hide Ramp;
    RampIsWave(mn, mx, h + 1.0 / 3.0, if y < 4.0 then y + 2.0 else y - 4.0);
    RampIsWave(mn, mx, h, y);
    RampIsWave(mn, mx, h - 1.0 / 3.0, if y < 2.0 then y + 4.0 else y - 2.0);
    Waves(r, g, b, k, x, mx, mn);
    hide Wave, OnSide;
  }

  lemma Waves(r: real, g: real, b: real, k: int, x: real, mx: real, mn: real)
    requires OnSide(r, g, b, k, x, mx, mn)
    ensures var y := k as real + x;
      && Wave(mn, mx, if y < 4.0 then y + 2.0 else y - 4.0) == r
      && Wave(mn, mx, y) == g
      && Wave(mn, mx, if y < 2.0 then y + 4.0 else y - 2.0) == b
  {
    var d := mx - mn;
    assert d * (1.0 - x) == d - d * x;
  }

  lemma ShareOffset(u: real, s: real)
    requires u > 0.0 && 0.0 < s <= 1.0
    ensures 0.0 < Offset(u, s) <= u && (2.0 * Offset(u, s)) / (2.0 * u) == s
  {
    ShareOfUnit(u, s);
    assert (2.0 * u) * s == 2.0 * (u * s);
    QuotientIs(2.0 * (u * s), 2.0 * u, s);
  }

  lemma SaturationOf(l: real, mx: real, mn: real, p: real, u: real)
    requires 0.0 <= mn < mx <= 1.0 && mx - mn == 2.0 * p
    requires mx + mn == 2.0 * l && u == (if l <= 0.5 then l else 1.0 - l) && u > 0.0
    ensures Saturation(l, mx, mn) == (2.0 * p) / (2.0 * u)
  {
    assert 2.0 - mx - mn == 2.0 * (1.0 - l);
  }

  lemma UpperIs(l: real, s: real)
    ensures Upper(l, s) == l + Offset(if l <= 0.5 then l else 1.0 - l, s)
  {
    Distribute(l, 1.0, s);
    Distribute(s, 1.0, -l);
  }

  /** The extremes for a lightness and saturation determine them both. */
  lemma ExtremesBack(l: real, s: real)
    requires 0.0 < l < 1.0 && 0.0 < s <= 1.0
    ensures var mx := Upper(l, s);
      var mn := 2.0 * l - mx;
      && 0.0 <= mn < mx <= 1.0 && (mn + mx) / 2.0 == l && Saturation(l, mx, mn) == s
  {
    hide Upper, Saturation, Offset;
    var u := if l <= 0.5 then l else 1.0 - l;
    var p := Offset(u, s);
    ShareOffset(u, s);
    UpperIs(l, s);
    assert 2.0 * l - (l + p) == l - p;
    SaturationOf(l, l + p, l - p, p, u);
  }

  lemma SideColour(k: int, x: real, mx: real, mn: real) returns (r: real, g: real, b: real)
    requires 0 <= k <= 5 && 0.0 <= x < 1.0 && 0.0 <= mn < mx <= 1.0
    ensures OnSide(r, g, b, k, x, mx, mn) && Unit(r) && Unit(g) && Unit(b)
  {
    var w := Offset(mx - mn, x);
    OffsetRange(mx - mn, x);
    hide Offset;
    match k
    case 0 => r, g, b := mx, mn + w, mn;
    case 1 => r, g, b := mx - w, mx, mn;
    case 2 => r, g, b := mn, mx, mn + w;
    case 3 => r, g, b := mn, mx - w, mx;
    case 4 => r, g, b := mn + w, mn, mx;
    case _ => r, g, b := mx, mn, mx - w;
  }

  lemma FlatRamps(m: real, h: real)
    ensures Ramps(m, m, h) == (m, m, m)
  {
  }

  lemma TurnParts(h: real) returns (k: int, x: real)
    requires 0.0 <= h < 1.0
    ensures 0 <= k <= 5 && 0.0 <= x < 1.0 && h * 6.0 == k as real + x
  {
    k := (h * 6.0).Floor;
    x := h * 6.0 - k as real;
  }

  lemma ColouredBack(h: real, l: real, s: real)
    requires 0.0 <= h < 1.0 && 0.0 < l < 1.0 && 0.0 < s <= 1.0
    ensures var (r, g, b) := HlsToRgb(h, l, s);
      Unit(r) && Unit(g) && Unit(b) && RgbToHls(r, g, b) == (h, l, s)
  {
    ExtremesBack(l, s);
    var mx := Upper(l, s);
    var mn := 2.0 * l - mx;
    var k, x := TurnParts(h);
    var r, g, b := SideColour(k, x, mx, mn);
    RampsOfSide(r, g, b, k, x, mx, mn, h);
    SideExtremes(r, g, b, k, x, mx, mn);
    SideHue(r, g, b, k, x, mx, mn);
    hide OnSide, Ramps, Saturation, Hexagon, Frac, Upper, Max, Min;
    assert HlsToRgb(h, l, s) == (r, g, b);
    assert Frac(Hexagon(r, g, b) / 6.0) == h;
  }

  /** From HLS to RGB and back: exact if and only if the colour is neither black nor white nor grey
      under a hue or saturation that these do not have. */
  lemma HlsRoundTripBack(h: real, l: real, s: real)
    requires 0.0 <= h < 1.0 && Unit(l) && Unit(s)
    ensures var (r, g, b) := HlsToRgb(h, l, s);
      Unit(r) && Unit(g) && Unit(b) &&
      (RgbToHls(r, g, b) == (h, l, s) <==> (if s == 0.0 then h == 0.0 else 0.0 < l < 1.0))
  {
    if s > 0.0 && 0.0 < l < 1.0 {
      ColouredBack(h, l, s);
    } else if s > 0.0 {
      assert Upper(l, s) == l && 2.0 * l - l == l;
      FlatRamps(l, h);
      hide Ramps;
    }
  }

  // ---------- Some colours ----------

  lemma LargestAndSmallest(r: real, g: real, b: real)
    ensures var v, w := Max(r, Max(g, b)), Min(r, Min(g, b));
      && r <= v && g <= v && b <= v && (v == r || v == g || v == b)
      && r >= w && g >= w && b >= w && (w == r || w == g || w == b)
  {
  }

  /** The value is the largest component, and the saturation its distance from the smallest in
      proportion to it. */
  lemma ValueIsLargest(r: real, g: real, b: real)
    requires Unit(r) && Unit(g) && Unit(b)
    ensures var (h, s, v) := RgbToHsv(r, g, b);
      && r <= v && g <= v && b <= v && (v == r || v == g || v == b)
      && v * s == v - Min(r, Min(g, b))
  {
    LargestAndSmallest(r, g, b);
    var v, w := Max(r, Max(g, b)), Min(r, Min(g, b));
    if v != w {
      Share(v - w, v);
    }
    hide Max, Min, Hexagon, Frac;
    assert v * 0.0 == 0.0;
  }

  /** The lightness lies midway between the largest and the smallest component, and the hue is that of
      the other model. */
  lemma LightnessIsMidway(r: real, g: real, b: real)
    requires Unit(r) && Unit(g) && Unit(b)
    ensures var (h, l, s) := RgbToHls(r, g, b);
      && h == RgbToHsv(r, g, b).0
      && var v, w := RgbToHsv(r, g, b).2, 2.0 * l - RgbToHsv(r, g, b).2;
         r >= w && g >= w && b >= w && (w == r || w == g || w == b)
  {
    LargestAndSmallest(r, g, b);
    hide Max, Min, Hexagon, Frac, Saturation;
  }

  /** Red, yellow, green, cyan, blue and magenta. */
  function CornerOf(k: nat): (real, real, real)
    requires k < 6
  {
    (if 1 < k < 5 then 0.0 else 1.0, if 0 < k < 4 then 1.0 else 0.0, if 2 < k then 1.0 else 0.0)
  }

  lemma CornerIs(k: nat)
    requires k < 6
    ensures var (r, g, b) := CornerOf(k);
      && Unit(r) && Unit(g) && Unit(b) && Max(r, Max(g, b)) == 1.0 && Min(r, Min(g, b)) == 0.0
      && Frac(Hexagon(r, g, b) / 6.0) == k as real / 6.0
  {
    var (r, g, b) := CornerOf(k);
    assert Hexagon(r, g, b) == if k == 5 then -1.0 else k as real;
    hide Hexagon;
  }

  /** They are the corners of the hexagon, a sixth of a turn apart. */
  lemma Corners(k: nat)
    requires k < 6
    ensures var (r, g, b) := CornerOf(k);
      && Unit(r) && Unit(g) && Unit(b)
      && RgbToHsv(r, g, b) == (k as real / 6.0, 1.0, 1.0) && RgbToHls(r, g, b) == (k as real / 6.0, 0.5, 1.0)
  {
    hide CornerOf, Max, Min, Hexagon, Frac;
    CornerIs(k);
  }

  /** What becomes of the colours that do not come back: greys lose their hue, and so do black and, in
      HLS, white, together with their saturation. */
  lemma GreyStaysGrey(h: real, s: real, v: real)
    requires 0.0 <= h < 1.0 && Unit(s) && Unit(v) && (s == 0.0 || v == 0.0)
    ensures var c := HsvToRgb(h, s, v);
      c == Some((v, v, v)) && RgbToHsv(v, v, v) == (0.0, 0.0, v)
  {
    if s != 0.0 {
      assert 0 <= (h * 6.0).Floor <= 5;
    }
  }

  lemma GreyStaysGreyInHls(h: real, l: real, s: real)
    requires 0.0 <= h < 1.0 && Unit(l) && Unit(s) && (s == 0.0 || l == 0.0 || l == 1.0)
    ensures HlsToRgb(h, l, s) == (l, l, l) && RgbToHls(l, l, l) == (0.0, l, 0.0)
  {
    var m2 := Upper(l, s);
    assert s != 0.0 ==> m2 == l;
    FlatRamp(l, h);
    FlatRamp(l, h + 1.0 / 3.0);
    FlatRamp(l, h - 1.0 / 3.0);
  }

  lemma FlatRamp(m: real, hue: real)
    ensures Ramp(m, m, hue) == m
  {
  }
}
