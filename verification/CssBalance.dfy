/** Where between two colours a mix stands. */
module CssBalance {
  import opened CssColor
  import opened CssMix

  /** A mix stands where the two values, hung at their distances, balance. */
  lemma MixedBalances(a: real, b: real, w1: real, w2: real)
    requires w1 + w2 == 100.0
    ensures var m := Mixed(a, b, w1, w2); w1 * (m - a) + w2 * (m - b) == 0.0
    ensures w1 >= 0.0 && w2 >= 0.0 ==> Min(a, b) <= Mixed(a, b, w1, w2) <= Max(a, b)
  {
    var m := Mixed(a, b, w1, w2);
    assert m * 100.0 == a * w1 + b * w2;
    assert w1 * (m - a) + w2 * (m - b) == m * (w1 + w2) - a * w1 - b * w2;
    if w1 >= 0.0 && w2 >= 0.0 {
      MixedWithin(a, b, w1, w2);
    }
  }

  lemma MixedWithin(a: real, b: real, w1: real, w2: real)
    requires w1 >= 0.0 && w2 >= 0.0 && w1 + w2 == 100.0
    ensures Min(a, b) <= Mixed(a, b, w1, w2) <= Max(a, b)
  {
    var low, high := Min(a, b), Max(a, b);
    NotNegative(a - low, w1);
    NotNegative(b - low, w2);
    NotNegative(high - a, w1);
    NotNegative(high - b, w2);
    assert low * w1 + low * w2 == low * 100.0 && high * w1 + high * w2 == high * 100.0;
  }

  /** A channel does too, to within its rounding. */
  lemma ChannelBalances(a: Channel, b: Channel, w1: real, w2: real)
    requires w1 >= 0.0 && w2 >= 0.0 && w1 + w2 == 100.0
    ensures var m := MixChannel(a, b, w1, w2);
            -50.0 <= w1 * (m as real - a as real) + w2 * (m as real - b as real) <= 50.0
  {
    var exact, m := Mixed(a as real, b as real, w1, w2), MixChannel(a, b, w1, w2);
    MixedBalances(a as real, b as real, w1, w2);
    RoundsNear(exact);
    var off := m as real - exact;
    assert w1 * (m as real - a as real) + w2 * (m as real - b as real)
        == w1 * (exact - a as real) + w2 * (exact - b as real) + (w1 + w2) * off;
  }

  lemma RoundsNear(v: real)
    requires 0.0 <= v <= 255.0
    ensures -0.5 <= ToChannel(v) as real - v <= 0.5
  {
  }

  lemma MixedEnds(a: real, b: real)
    ensures Mixed(a, b, 100.0, 0.0) == a && Mixed(a, b, 0.0, 100.0) == b
  {
  }

  lemma ChannelEnds(a: Channel, b: Channel)
    ensures MixChannel(a, b, 100.0, 0.0) == a && MixChannel(a, b, 0.0, 100.0) == b
  {
    MixedEnds(a as real, b as real);
  }

  lemma HueIsHue(c: Rgba)
    ensures 0.0 <= RgbToHsl(c).x < 360.0 && RgbToHwb(c).x == RgbToHsl(c).x
  {
    hide RgbToHsl;
    var sector, f := HueHasPlace(c);
    HwbHue(c);
  }

  lemma ComesBack(c: Rgba)
    ensures ToRgba(Fractions(c), c.a) == c
  {
    hide Fractions, FractionToChannel;
    NearItself(c);
    AllRoundBack(c, Fractions(c));
  }

  lemma NearItself(c: Rgba)
    ensures AllNear(Fractions(c), Fractions(c), 0.001)
  {
  }

  /** All of one and none of the other, in any of the three spaces, is the one. */
  lemma AllOfOne(c1: Rgba, c2: Rgba)
    ensures MixSrgb(c1, c2, 100.0, 0.0) == c1 && MixSrgb(c1, c2, 0.0, 100.0) == c2
    ensures MixHsl(c1, c2, 100.0, 0.0) == c1 && MixHsl(c1, c2, 0.0, 100.0) == c2
    ensures MixHwb(c1, c2, 100.0, 0.0) == c1 && MixHwb(c1, c2, 0.0, 100.0) == c2
  {
    hide RgbToHsl, RgbToHwb, HslToRgb, HwbToRgb, Mixed, MixHue, ToRgba, MixChannel, Fractions;
    ChannelEnds(c1.r, c2.r);
    ChannelEnds(c1.g, c2.g);
    ChannelEnds(c1.b, c2.b);
    ChannelEnds(c1.a, c2.a);
    HslEnds(c1, c2);
    HwbEnds(c1, c2);
    ComesBack(c1);
    ComesBack(c2);
  }

  lemma HslEnds(c1: Rgba, c2: Rgba)
    ensures MixHsl(c1, c2, 100.0, 0.0) == ToRgba(Fractions(c1), MixChannel(c1.a, c2.a, 100.0, 0.0))
    ensures MixHsl(c1, c2, 0.0, 100.0) == ToRgba(Fractions(c2), MixChannel(c1.a, c2.a, 0.0, 100.0))
  {
    hide RgbToHsl, HslToRgb, Mixed, MixHue, ToRgba, MixChannel, Fractions;
    var t1, t2 := RgbToHsl(c1), RgbToHsl(c2);
    HueIsHue(c1);
    HueIsHue(c2);
    MixedHueIsOnShorterArc(t1.x, t2.x, 0.0);
    MixedEnds(t1.y, t2.y);
    MixedEnds(t1.z, t2.z);
    HslRoundTrip(c1);
    HslRoundTrip(c2);
  }

  lemma HwbEnds(c1: Rgba, c2: Rgba)
    ensures MixHwb(c1, c2, 100.0, 0.0) == ToRgba(Fractions(c1), MixChannel(c1.a, c2.a, 100.0, 0.0))
    ensures MixHwb(c1, c2, 0.0, 100.0) == ToRgba(Fractions(c2), MixChannel(c1.a, c2.a, 0.0, 100.0))
  {
    hide RgbToHsl, RgbToHwb, HwbToRgb, Mixed, MixHue, ToRgba, MixChannel, Fractions;
    var t1, t2 := RgbToHwb(c1), RgbToHwb(c2);
    HueIsHue(c1);
    HueIsHue(c2);
    MixedHueIsOnShorterArc(t1.x, t2.x, 0.0);
    MixedEnds(t1.y, t2.y);
    MixedEnds(t1.z, t2.z);
    HwbRoundTrip(c1);
    HwbRoundTrip(c2);
  }

  /** `v` balances between `a` and `b`. */
  ghost predicate Balances(v: real, a: real, b: real, w1: real, w2: real) {
    w1 * (v - a) + w2 * (v - b) == 0.0
  }

  /** `h` stands the second's share of the way along the shorter arc. */
  ghost predicate AlongArc(h: real, h1: real, h2: real, w2: real) {
    var along := h1 + Arc(h1, h2) * (w2 / 100.0);
    0.0 <= h < 360.0 && exists n: int :: TurnsAway(along, h, 360.0, n)
  }

  /** In each space a mix is the colour whose coordinates each balance between the
      two colours', the hue along the shorter arc. */
  lemma MixStandsBetween(c1: Rgba, c2: Rgba, w1: real, w2: real)
    requires w1 >= 0.0 && w2 >= 0.0 && w1 + w2 == 100.0
    ensures MixSrgb(c1, c2, w1, w2).a == MixHsl(c1, c2, w1, w2).a == MixHwb(c1, c2, w1, w2).a == MixChannel(c1.a, c2.a, w1, w2)
    ensures exists h, s, l ::
              && MixHsl(c1, c2, w1, w2) == ToRgba(HslToRgb(h, s, l), MixChannel(c1.a, c2.a, w1, w2))
              && AlongArc(h, RgbToHsl(c1).x, RgbToHsl(c2).x, w2)
              && Balances(s, RgbToHsl(c1).y, RgbToHsl(c2).y, w1, w2) && Balances(l, RgbToHsl(c1).z, RgbToHsl(c2).z, w1, w2)
    ensures exists h, w, b ::
              && MixHwb(c1, c2, w1, w2) == ToRgba(HwbToRgb(h, w, b), MixChannel(c1.a, c2.a, w1, w2))
              && AlongArc(h, RgbToHwb(c1).x, RgbToHwb(c2).x, w2)
              && Balances(w, RgbToHwb(c1).y, RgbToHwb(c2).y, w1, w2) && Balances(b, RgbToHwb(c1).z, RgbToHwb(c2).z, w1, w2)
  {
    hide RgbToHsl, RgbToHwb, HslToRgb, HwbToRgb, Mixed, MixHue, MixChannel, Arc, FractionToChannel, AlongArc, Balances;
    var t1, t2 := RgbToHsl(c1), RgbToHsl(c2);
    HueIsHue(c1);
    HueIsHue(c2);
    HueStandsAlong(t1.x, t2.x, w2);
    BalancesWhereMixed(t1.y, t2.y, w1, w2);
    BalancesWhereMixed(t1.z, t2.z, w1, w2);
    var u1, u2 := RgbToHwb(c1), RgbToHwb(c2);
    BalancesWhereMixed(u1.y, u2.y, w1, w2);
    BalancesWhereMixed(u1.z, u2.z, w1, w2);
  }

  lemma HueStandsAlong(h1: real, h2: real, w2: real)
    requires 0.0 <= h1 < 360.0 && 0.0 <= h2 < 360.0
    ensures AlongArc(MixHue(h1, h2, w2), h1, h2, w2)
  {
    hide MixHue, Arc;
    MixedHueIsOnShorterArc(h1, h2, w2);
  }

  lemma BalancesWhereMixed(a: real, b: real, w1: real, w2: real)
    requires w1 + w2 == 100.0
    ensures Balances(Mixed(a, b, w1, w2), a, b, w1, w2)
  {
    hide Mixed;
    MixedBalances(a, b, w1, w2);
  }

  // `scale_alpha`.
  function ScaleAlpha(c: Rgba, share: real): Rgba {
    c.(a := ToChannel(c.a as real * share))
  }

  /** What a mix is short of makes it so much more transparent, to the nearest step,
      and touches no colour. */
  lemma AlphaIsScaled(c: Rgba, share: real)
    requires 0.0 <= share <= 1.0
    ensures var d := ScaleAlpha(c, share);
            d.r == c.r && d.g == c.g && d.b == c.b && -0.5 <= d.a as real - c.a as real * share <= 0.5
    ensures share == 1.0 ==> ScaleAlpha(c, share) == c
  {
    NotNegative(c.a as real, share);
    NotNegative(c.a as real, 1.0 - share);
    RoundsNear(c.a as real * share);
  }
}
