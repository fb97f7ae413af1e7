// `color-mix()`: weights, hues, and the three spaces it mixes in.
module CssMix {
  import opened Options
  import opened CssColor

  datatype MixError = Negative | BothZero

  // Weights accepted and balanced, and what is left of the alpha.
  datatype Weights = Weights(first: real, second: real, alpha: real)

  // Weights to mix by: percentages of a hundred, to within the threshold.
  ghost predicate Balanced(w1: real, w2: real) {
    w1 >= 0.0 && w2 >= 0.0 && Abs(w1 + w2 - 100.0) <= TINY
  }

  // A percentage left out makes up the hundred, or half of it.
  function Given(p: Option<real>, other: Option<real>): real {
    if p.Some? then p.value else if other.Some? then 100.0 - other.value else 50.0
  }

  // The weights are in the proportion given, sum to a hundred, and the alpha
  // is scaled by what was short of that; one left out makes up the hundred, and
  // both left out are halves of it.
  method ResolveMixWeights(p1: Option<real>, p2: Option<real>) returns (r: Result<Weights, MixError>)
    ensures var g1, g2 := Given(p1, p2), Given(p2, p1);
            && (r == Err(Negative) <==> g1 < 0.0 || g2 < 0.0)
            && (r == Err(BothZero) <==> g1 == 0.0 && g2 == 0.0)
            && (r.Ok? ==>
                  && Balanced(r.value.first, r.value.second)
                  && r.value.first * g2 == r.value.second * g1
                  && (Abs(g1 + g2 - 100.0) > TINY ==> r.value.first + r.value.second == 100.0)
                  && (Abs(g1 + g2 - 100.0) <= TINY ==> r.value.first == g1 && r.value.second == g2)
                  && r.value.alpha * 100.0 == Min(g1 + g2, 100.0) && 0.0 < r.value.alpha <= 1.0)
    ensures r.Ok? && (p1.None? || p2.None?) ==>
              && r.value.first + r.value.second == 100.0 && r.value.alpha == 1.0
              && (p1.Some? ==> r.value.first == p1.value) && (p2.Some? ==> r.value.second == p2.value)
              && (p1 == p2 ==> r.value.first == r.value.second)
  {
    var w1, w2 := Given(p1, p2), Given(p2, p1);
    if w1 < 0.0 || w2 < 0.0 {
      return Err(Negative);
    }
    var sum := w1 + w2;
    if sum <= 0.0 {
      return Err(BothZero);
    }
    var alpha := Min(sum, 100.0) / 100.0;
    if Abs(sum - 100.0) > TINY {
      Rescaled(w1, w2, sum);
      w1 := w1 / sum * 100.0;
      w2 := w2 / sum * 100.0;
    }
    return Ok(Weights(w1, w2, alpha));
  }

  lemma Rescaled(w1: real, w2: real, sum: real)
    requires w1 >= 0.0 && w2 >= 0.0 && sum == w1 + w2 > 0.0
    ensures var v1, v2 := w1 / sum * 100.0, w2 / sum * 100.0;
            v1 >= 0.0 && v2 >= 0.0 && v1 + v2 == 100.0 && v1 * w2 == v2 * w1
  {
    var k1 := PartOf(w1, sum);
    var k2 := PartOf(w2, sum);
    var whole := k1 + k2;
    assert whole * sum == k1 * sum + k2 * sum;
    WholeIsOne(whole, sum);
    CrossWeights(k1, k2, w1, w2, sum);
  }

  lemma WholeIsOne(k: real, sum: real)
    requires sum > 0.0 && k * sum == sum
    ensures k == 1.0
  {
    if k < 1.0 { NotNegative(1.0 - k, sum); }
  }

  lemma CrossWeights(k1: real, k2: real, w1: real, w2: real, sum: real)
    requires w1 == k1 * sum && w2 == k2 * sum
    ensures k1 * 100.0 * w2 == k2 * 100.0 * w1
  {
    var k := k1 * k2;
    assert k1 * w2 == k * sum && k2 * w1 == k * sum;
  }

  function Mixed(a: real, b: real, w1: real, w2: real): real {
    a * w1 / 100.0 + b * w2 / 100.0
  }

  function MixChannel(a: Channel, b: Channel, w1: real, w2: real): Channel {
    ToChannel(Mixed(a as real, b as real, w1, w2))
  }

  // The way round from one hue to the other, the shorter one.
  function Arc(h1: real, h2: real): real {
    var diff := h2 - h1;
    if diff > 180.0 then diff - 360.0 else if diff < -180.0 then diff + 360.0 else diff
  }

  function MixHue(h1: real, h2: real, w2: real): real {
    Rem(h1 + Arc(h1, h2) * (w2 / 100.0), 360.0)
  }

  function MixSrgb(c1: Rgba, c2: Rgba, w1: real, w2: real): Rgba {
    Rgba(MixChannel(c1.r, c2.r, w1, w2), MixChannel(c1.g, c2.g, w1, w2), MixChannel(c1.b, c2.b, w1, w2),
         MixChannel(c1.a, c2.a, w1, w2))
  }

  function ToRgba(t: Triple, a: Channel): Rgba {
    Rgba(FractionToChannel(t.x), FractionToChannel(t.y), FractionToChannel(t.z), a)
  }

  function MixHsl(c1: Rgba, c2: Rgba, w1: real, w2: real): Rgba {
    var (t1, t2) := (RgbToHsl(c1), RgbToHsl(c2));
    ToRgba(HslToRgb(MixHue(t1.x, t2.x, w2), Mixed(t1.y, t2.y, w1, w2), Mixed(t1.z, t2.z, w1, w2)),
           MixChannel(c1.a, c2.a, w1, w2))
  }

  function MixHwb(c1: Rgba, c2: Rgba, w1: real, w2: real): Rgba {
    var (t1, t2) := (RgbToHwb(c1), RgbToHwb(c2));
    ToRgba(HwbToRgb(MixHue(t1.x, t2.x, w2), Mixed(t1.y, t2.y, w1, w2), Mixed(t1.z, t2.z, w1, w2)),
           MixChannel(c1.a, c2.a, w1, w2))
  }

  /** A mixed hue is a hue, reached along an arc of at most 180 degrees that
    * leads from the first hue to the second. */
  lemma MixedHueIsOnShorterArc(h1: real, h2: real, w2: real)
    requires 0.0 <= h1 < 360.0 && 0.0 <= h2 < 360.0
    ensures -180.0 <= Arc(h1, h2) <= 180.0 && Rem(h1 + Arc(h1, h2), 360.0) == h2
    ensures 0.0 <= MixHue(h1, h2, w2) < 360.0
    ensures var along, h := h1 + Arc(h1, h2) * (w2 / 100.0), MixHue(h1, h2, w2);
            exists n: int :: TurnsAway(along, h, 360.0, n)
    ensures MixHue(h1, h2, 0.0) == h1 && MixHue(h1, h2, 100.0) == h2
  {
    hide Rem;
    var diff := h2 - h1;
    RemIs(h1 + Arc(h1, h2), 360.0, if diff > 180.0 then -1 else if diff < -180.0 then 1 else 0);
    RemIs(h1, 360.0, 0);
    RemInRange(h1 + Arc(h1, h2) * (w2 / 100.0));
  }

  // How far from exact the unscaled weights may leave a value in 0..=1.
  const SLIP := 0.00000000001

  ghost predicate Near(v: real, w: real, within: real) {
    -within <= v - w <= within
  }

  // A value mixed with itself.
  lemma MixedWithItself(v: real, w1: real, w2: real) returns (e: real)
    requires Balanced(w1, w2)
    ensures e == (w1 + w2) / 100.0 - 1.0 && -SLIP <= e <= SLIP && Mixed(v, v, w1, w2) == v + v * e
  {
    e := (w1 + w2) / 100.0 - 1.0;
    assert v * w1 / 100.0 + v * w2 / 100.0 == v * ((w1 + w2) / 100.0);
  }

  lemma ChannelMixedWithItself(a: Channel, w1: real, w2: real)
    requires Balanced(w1, w2)
    ensures MixChannel(a, a, w1, w2) == a
  {
    var e := MixedWithItself(a as real, w1, w2);
    SmallPart(a as real, e, 255.0);
  }

  lemma SmallPart(v: real, e: real, most: real)
    requires 0.0 <= v <= most && -SLIP <= e <= SLIP
    ensures Near(v + v * e, v, most * SLIP)
  {
    assert v * e <= v * SLIP <= most * SLIP;
    assert v * e >= v * -SLIP >= most * -SLIP;
  }

  // Close enough rounds to the same byte.
  lemma RoundsBack(c: Channel, v: real)
    requires Near(v, Fraction(c), 0.001)
    ensures FractionToChannel(v) == c
  {
  }

  // A colour's hue has a place on the wheel, and the rest is in range.
  lemma HueHasPlace(c: Rgba) returns (sector: int, f: real)
    ensures 0 <= sector < 6 && 0.0 <= f < 1.0 && RgbToHsl(c).x == 60.0 * (sector as real + f)
    ensures 0.0 <= RgbToHsl(c).y <= 1.0 && 0.0 <= RgbToHsl(c).z <= 1.0
  {
    hide HueOf, Wheel, Lift, Chroma;
    var t := Fractions(c);
    FractionsInCube(c);
    if Highest(t) - Lowest(t) < TINY {
      sector, f := 0, 0.0;
    } else {
      sector, f := HueIsOnWheel(t);
      ChromaIsRange(c);
    }
  }

  lemma HueMixedWithItself(h: real, w2: real)
    requires 0.0 <= h < 360.0
    ensures MixHue(h, h, w2) == h
  {
    hide Rem;
    RemIs(h, 360.0, 0);
  }

  // The chroma moves little when saturation and lightness do.
  lemma ChromaIsSteady(s: real, l: real, s1: real, l1: real)
    requires 0.0 <= s <= 1.0 && 0.0 <= l <= 1.0 && Near(s1, s, SLIP) && Near(l1, l, SLIP)
    ensures Near(Chroma(s1, l1), Chroma(s, l), 4.0 * SLIP)
  {
    var a, a1 := 1.0 - Abs(2.0 * l - 1.0), 1.0 - Abs(2.0 * l1 - 1.0);
    assert 0.0 <= a <= 1.0 && -2.0 * SLIP <= a1 - a <= 2.0 * SLIP && -1.0 <= a1 <= 1.0;
    assert a1 * s1 - a * s == a1 * (s1 - s) + (a1 - a) * s;
    Bounded(a1, s1 - s, SLIP);
    Bounded(s, a1 - a, 2.0 * SLIP);
  }

  lemma NotNegative(a: real, b: real)
    requires a >= 0.0 && b >= 0.0
    ensures a * b >= 0.0
  {
  }

  lemma Bounded(v: real, w: real, most: real)
    requires -1.0 <= v <= 1.0 && -most <= w <= most
    ensures -most <= v * w <= most
  {
    var u := Abs(v);
    NotNegative(most - w, u);
    NotNegative(most + w, u);
    NotNegative(1.0 - u, most);
    if v < 0.0 { assert v * w == -(u * w); }
  }

  lemma WheelInCube(sector: int, f: real)
    requires 0.0 <= f < 1.0
    ensures InCube(Wheel(sector, f))
  {
  }

  ghost predicate AllNear(t: Triple, u: Triple, within: real) {
    Near(t.x, u.x, within) && Near(t.y, u.y, within) && Near(t.z, u.z, within)
  }

  // So does a lifted colour when its scale and its lift do.
  lemma LiftIsSteady(t: Triple, scale: real, lift: real, scale1: real, lift1: real, e: real)
    requires InCube(t) && Near(scale1, scale, e) && Near(lift1, lift, e)
    ensures AllNear(Lift(t, scale1, lift1), Lift(t, scale, lift), 2.0 * e)
  {
    Bounded(t.x, scale1 - scale, e);
    Bounded(t.y, scale1 - scale, e);
    Bounded(t.z, scale1 - scale, e);
  }

  lemma AllRoundBack(c: Rgba, t: Triple)
    requires AllNear(t, Fractions(c), 0.001)
    ensures ToRgba(t, c.a) == c
  {
    hide FractionToChannel;
    RoundsBack(c.r, t.x);
    RoundsBack(c.g, t.y);
    RoundsBack(c.b, t.z);
  }

  lemma HslNear(c: Rgba, w1: real, w2: real)
    requires Balanced(w1, w2)
    ensures var hsl := RgbToHsl(c);
            AllNear(HslToRgb(hsl.x, Mixed(hsl.y, hsl.y, w1, w2), Mixed(hsl.z, hsl.z, w1, w2)), Fractions(c), 8.0 * SLIP)
  {
    hide RgbToHsl, HslToRgb, Wheel, Lift, Chroma, Mixed, Fractions;
    var hsl := RgbToHsl(c);
    var sector, f := HueHasPlace(c);
    var e1 := MixedWithItself(hsl.y, w1, w2);
    var e2 := MixedWithItself(hsl.z, w1, w2);
    SmallPart(hsl.y, e1, 1.0);
    SmallPart(hsl.z, e2, 1.0);
    var s1, l1 := Mixed(hsl.y, hsl.y, w1, w2), Mixed(hsl.z, hsl.z, w1, w2);
    ChromaIsSteady(hsl.y, hsl.z, s1, l1);
    HslIsWheel(hsl.x, hsl.y, hsl.z, sector, f);
    HslIsWheel(hsl.x, s1, l1, sector, f);
    WheelInCube(sector, f);
    LiftIsSteady(Wheel(sector, f), Chroma(hsl.y, hsl.z), hsl.z - Chroma(hsl.y, hsl.z) / 2.0,
                 Chroma(s1, l1), l1 - Chroma(s1, l1) / 2.0, 4.0 * SLIP);
    HslRoundTrip(c);
  }

  // Whiteness and blackness together leave no room for colour in grays only.
  lemma HwbRange(c: Rgba)
    ensures var t, hwb := Fractions(c), RgbToHwb(c);
            && 0.0 <= hwb.y <= 1.0 && 0.0 <= hwb.z <= 1.0 && hwb.y + hwb.z == 1.0 - (Highest(t) - Lowest(t))
            && (Highest(t) - Lowest(t) < TINY ==> c.r == c.g == c.b && hwb.y == t.x && hwb.y + hwb.z == 1.0)
  {
    hide HueOf;
    FractionsInCube(c);
    var t := Fractions(c);
    if Highest(t) - Lowest(t) < TINY { GrayIsGray(c); }
  }

  // Full saturation at half lightness is the wheel itself.
  lemma HwbIsWheel(h: real, w: real, b: real, sector: int, f: real)
    requires 0 <= sector < 6 && 0.0 <= f < 1.0 && h == 60.0 * (sector as real + f) && w + b < 1.0
    ensures HwbToRgb(h, w, b) == Lift(Wheel(sector, f), 1.0 - w - b, w)
  {
    hide HslToRgb, Wheel, Chroma;
    HslIsWheel(h, 1.0, 0.5, sector, f);
    ChromaAtEnds(0.5);
    assert Lift(Wheel(sector, f), 1.0, 0.0) == Wheel(sector, f);
  }

  // Grays stay gray, by the quotient or by almost no colour at all.
  lemma GrayStaysNear(y: real, z: real, e: real, w: real, b: real, h: real, sector: int, f: real)
    requires w == y + y * e && b == z + z * e
    requires y >= 0.0 && z >= 0.0 && y + z == 1.0 && -SLIP <= e <= SLIP
    requires 0 <= sector < 6 && 0.0 <= f < 1.0 && h == 60.0 * (sector as real + f)
    ensures AllNear(HwbToRgb(h, w, b), Triple(y, y, y), 2.0 * SLIP)
  {
    hide HslToRgb, Wheel;
    assert y * e + z * e == (y + z) * e == e;
    SmallPart(y, e, 1.0);
    if w + b >= 1.0 {
      assert w == y * (w + b);
      assert w / (w + b) == y;
    } else {
      HwbIsWheel(h, w, b, sector, f);
      WheelInCube(sector, f);
      LiftIsSteady(Wheel(sector, f), 0.0, y, 1.0 - w - b, w, SLIP);
    }
  }

  lemma ColourStaysNear(t: Triple, d: real, y: real, z: real, e: real, w: real, b: real, h: real, sector: int, f: real)
    requires w == y + y * e && b == z + z * e
    requires 0.0 <= y <= 1.0 && 0.0 <= z <= 1.0 && y + z == 1.0 - d && TINY <= d <= 1.0 && -SLIP <= e <= SLIP
    requires 0 <= sector < 6 && 0.0 <= f < 1.0 && h == 60.0 * (sector as real + f)
    requires t == Lift(Wheel(sector, f), d, y)
    ensures AllNear(HwbToRgb(h, w, b), t, 2.0 * SLIP)
  {
    hide HslToRgb, Wheel, Lift, HwbToRgb;
    assert y * e + z * e == (y + z) * e == (1.0 - d) * e;
    Bounded(1.0 - d, e, SLIP);
    SmallPart(y, e, 1.0);
    HwbIsWheel(h, w, b, sector, f);
    WheelInCube(sector, f);
    LiftIsSteady(Wheel(sector, f), d, y, 1.0 - w - b, w, SLIP);
  }

  lemma HueIsHslHue(c: Rgba)
    requires Highest(Fractions(c)) - Lowest(Fractions(c)) >= TINY
    ensures RgbToHsl(c).x == HueOf(Fractions(c))
  {
    hide HueOf;
  }

  lemma HwbHue(c: Rgba)
    ensures RgbToHwb(c).x == RgbToHsl(c).x
  {
    hide RgbToHsl;
  }

  lemma HwbNear(c: Rgba, w1: real, w2: real)
    requires Balanced(w1, w2)
    ensures var hwb := RgbToHwb(c);
            AllNear(HwbToRgb(hwb.x, Mixed(hwb.y, hwb.y, w1, w2), Mixed(hwb.z, hwb.z, w1, w2)), Fractions(c), 2.0 * SLIP)
  {
    hide HwbToRgb, RgbToHsl, Wheel, Lift, Highest, Lowest, HueOf, Mixed;
    var t, hwb := Fractions(c), RgbToHwb(c);
    var e := MixedWithItself(hwb.y, w1, w2);
    var e2 := MixedWithItself(hwb.z, w1, w2);
    var w, b := Mixed(hwb.y, hwb.y, w1, w2), Mixed(hwb.z, hwb.z, w1, w2);
    var d := Highest(t) - Lowest(t);
    HwbRange(c);
    if d < TINY {
      var sector, f := HueHasPlace(c);
      GrayStaysNear(hwb.y, hwb.z, e, w, b, hwb.x, sector, f);
    } else {
      var sector, f := HueIsOnWheel(t);
      HueIsHslHue(c);
      ColourStaysNear(t, d, hwb.y, hwb.z, e, w, b, hwb.x, sector, f);
    }
  }

  /** Mixed with itself, in any of the three spaces and by any weights that are
    * accepted, a colour is itself. */
  lemma MixedWithItselfIsItself(c: Rgba, w1: real, w2: real)
    requires Balanced(w1, w2)
    ensures MixSrgb(c, c, w1, w2) == c && MixHsl(c, c, w1, w2) == c && MixHwb(c, c, w1, w2) == c
  {
    hide RgbToHsl, RgbToHwb, HslToRgb, HwbToRgb, Mixed, MixHue, ToRgba, MixChannel, Fractions;
    ChannelMixedWithItself(c.r, w1, w2);
    ChannelMixedWithItself(c.g, w1, w2);
    ChannelMixedWithItself(c.b, w1, w2);
    ChannelMixedWithItself(c.a, w1, w2);
    var hsl, hwb := RgbToHsl(c), RgbToHwb(c);
    var sector, f := HueHasPlace(c);
    HwbHue(c);
    HueMixedWithItself(hsl.x, w2);
    HslNear(c, w1, w2);
    AllRoundBack(c, HslToRgb(hsl.x, Mixed(hsl.y, hsl.y, w1, w2), Mixed(hsl.z, hsl.z, w1, w2)));
    HwbNear(c, w1, w2);
    AllRoundBack(c, HwbToRgb(hwb.x, Mixed(hwb.y, hwb.y, w1, w2), Mixed(hwb.z, hwb.z, w1, w2)));
  }
}
