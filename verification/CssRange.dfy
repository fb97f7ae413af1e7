/** What the coordinates of a colour say of its channels. */
module CssRange {
  import opened CssColor
  import opened CssMix

  lemma WheelIsFull(sector: int, f: real)
    requires 0 <= sector < 6 && 0.0 <= f < 1.0
    ensures Highest(Wheel(sector, f)) == 1.0 && Lowest(Wheel(sector, f)) == 0.0
  {
  }

  lemma ScaledLess(v: real, w: real, scale: real)
    requires v <= w && scale >= 0.0
    ensures v * scale <= w * scale
  {
    NotNegative(w - v, scale);
    assert (w - v) * scale == w * scale - v * scale;
  }

  lemma ScaledPair(v: real, w: real, scale: real, v': real, w': real)
    requires scale >= 0.0 && v' == v * scale && w' == w * scale
    ensures Max(v', w') == Max(v, w) * scale && Min(v', w') == Min(v, w) * scale
  {
    if v <= w { ScaledLess(v, w, scale); } else { ScaledLess(w, v, scale); }
  }

  lemma ScaledRange(t: Triple, scale: real, u: Triple)
    requires scale >= 0.0 && u.x == t.x * scale && u.y == t.y * scale && u.z == t.z * scale
    ensures Highest(u) == Highest(t) * scale && Lowest(u) == Lowest(t) * scale
  {
    ScaledPair(t.x, t.y, scale, u.x, u.y);
    ScaledPair(Max(t.x, t.y), t.z, scale, Max(u.x, u.y), u.z);
    ScaledPair(Min(t.x, t.y), t.z, scale, Min(u.x, u.y), u.z);
  }

  lemma RaisedRange(t: Triple, lift: real, u: Triple)
    requires u.x == t.x + lift && u.y == t.y + lift && u.z == t.z + lift
    ensures Highest(u) == Highest(t) + lift && Lowest(u) == Lowest(t) + lift
  {
  }

  lemma LiftedRange(t: Triple, scale: real, lift: real)
    requires scale >= 0.0
    ensures Highest(Lift(t, scale, lift)) == Highest(t) * scale + lift
    ensures Lowest(Lift(t, scale, lift)) == Lowest(t) * scale + lift
  {
    hide Highest, Lowest;
    var scaled := Triple(t.x * scale, t.y * scale, t.z * scale);
    ScaledRange(t, scale, scaled);
    RaisedRange(scaled, lift, Lift(t, scale, lift));
  }

  /** Every hue is some place on the wheel. */
  lemma HueIsPlace(h: real) returns (sector: int, f: real)
    ensures 0 <= sector < 6 && 0.0 <= f < 1.0 && Rem(h, 360.0) == 60.0 * (sector as real + f)
  {
    RemInRange(h);
    var hp := Rem(h, 360.0) / 60.0;
    sector, f := hp.Floor, hp - hp.Floor as real;
  }

  /** Turning a hue all the way round changes nothing. */
  lemma HueTurns(h: real, s: real, l: real)
    ensures HslToRgb(Rem(h, 360.0), s, l) == HslToRgb(h, s, l)
  {
    hide Rem, Chroma, Ramp, InSector, Lift;
    RemInRange(h);
    var turned := Rem(h, 360.0);
    RemIs(turned, 360.0, 0);
    var hp, c, m := turned / 60.0, Chroma(s, l), l - Chroma(s, l) / 2.0;
    HslUnfolds(turned, s, l, hp.Floor, hp, Ramp(hp), c, c * Ramp(hp), m);
    HslUnfolds(h, s, l, hp.Floor, hp, Ramp(hp), c, c * Ramp(hp), m);
  }

  /** The lightness is halfway between the highest channel and the lowest, and the
      saturation how far apart they are of how far that lets them be. */
  lemma HslStandsFor(h: real, s: real, l: real)
    requires 0.0 <= s <= 1.0 && 0.0 <= l <= 1.0
    ensures var t := HslToRgb(h, s, l);
            && Highest(t) + Lowest(t) == 2.0 * l
            && Highest(t) - Lowest(t) == 2.0 * Min(l, 1.0 - l) * s
  {
    hide HslToRgb, Rem, Wheel, Lift, Highest, Lowest;
    var sector, f := HueIsPlace(h);
    HueTurns(h, s, l);
    HslIsWheel(Rem(h, 360.0), s, l, sector, f);
    NotNegative(1.0 - Abs(2.0 * l - 1.0), s);
    WheelIsFull(sector, f);
    LiftedRange(Wheel(sector, f), Chroma(s, l), l - Chroma(s, l) / 2.0);
  }

  /** The whiteness is the lowest channel and the blackness what the highest is short
      of one; where they leave no room the colour is gray, in their proportion. */
  lemma HwbStandsFor(h: real, w: real, b: real)
    requires 0.0 <= w && 0.0 <= b
    ensures var t := HwbToRgb(h, w, b);
            if w + b < 1.0 then Lowest(t) == w && Highest(t) == 1.0 - b
            else t.x == t.y == t.z && t.x * (w + b) == w
  {
    hide HslToRgb, Rem, Wheel, Lift, Highest, Lowest, Chroma;
    if w + b < 1.0 {
      HslStandsFor(h, 1.0, 0.5);
      LiftedRange(HslToRgb(h, 1.0, 0.5), 1.0 - w - b, w);
    }
  }

  /** Where the six full colours stand on the wheel. */
  lemma FullColoursStand(a: Channel)
    ensures RgbToHsl(Rgba(255, 0, 0, a)) == Triple(0.0, 1.0, 0.5) && RgbToHsl(Rgba(255, 255, 0, a)) == Triple(60.0, 1.0, 0.5)
    ensures RgbToHsl(Rgba(0, 255, 0, a)) == Triple(120.0, 1.0, 0.5) && RgbToHsl(Rgba(0, 255, 255, a)) == Triple(180.0, 1.0, 0.5)
    ensures RgbToHsl(Rgba(0, 0, 255, a)) == Triple(240.0, 1.0, 0.5) && RgbToHsl(Rgba(255, 0, 255, a)) == Triple(300.0, 1.0, 0.5)
  {
    hide RgbToHsl;
    FullColourStands(Rgba(255, 0, 0, a));
    FullColourStands(Rgba(255, 255, 0, a));
    FullColourStands(Rgba(0, 255, 0, a));
    FullColourStands(Rgba(0, 255, 255, a));
    FullColourStands(Rgba(0, 0, 255, a));
    FullColourStands(Rgba(255, 0, 255, a));
  }

  lemma FullColourStands(c: Rgba)
    requires (c.r == 0 || c.r == 255) && (c.g == 0 || c.g == 255) && (c.b == 0 || c.b == 255) && !(c.r == c.g == c.b)
    ensures RgbToHsl(c) == Triple(if c.r == 255 then if c.g == 255 then 60.0 else if c.b == 255 then 300.0 else 0.0
                                  else if c.g == 255 then if c.b == 255 then 180.0 else 120.0 else 240.0, 1.0, 0.5)
  {
    hide HueOf, Highest, Lowest;
    var t := Fractions(c);
    assert t == Triple(c.r as real / 255.0, c.g as real / 255.0, c.b as real / 255.0);
    FullRange(t);
    FullHue(t);
  }

  ghost predicate IsFull(t: Triple) {
    && (t.x == 0.0 || t.x == 1.0) && (t.y == 0.0 || t.y == 1.0) && (t.z == 0.0 || t.z == 1.0) && !(t.x == t.y == t.z)
  }

  lemma FullRange(t: Triple)
    requires IsFull(t)
    ensures Highest(t) == 1.0 && Lowest(t) == 0.0
  {
  }

  lemma FullHue(t: Triple)
    requires IsFull(t) && Highest(t) == 1.0 && Lowest(t) == 0.0
    ensures HueOf(t) == if t.x == 1.0 then if t.y == 1.0 then 60.0 else if t.z == 1.0 then 300.0 else 0.0
                        else if t.y == 1.0 then if t.z == 1.0 then 180.0 else 120.0 else 240.0
  {
    hide Rem, Highest, Lowest;
    RemIs(t.y - t.z, 6.0, if t.y < t.z then -1 else 0);
    RemIs(if t.x == 1.0 then if t.y == 1.0 then 60.0 else if t.z == 1.0 then 300.0 else 0.0
          else if t.y == 1.0 then if t.z == 1.0 then 180.0 else 120.0 else 240.0, 360.0, 0);
  }
}
