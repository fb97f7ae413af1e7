// src/csscolor.rs over exact reals: colour spaces and mixing.
module CssColor {

  type Channel = n: int | 0 <= n < 256
  datatype Rgba = Rgba(r: Channel, g: Channel, b: Channel, a: Channel)

  // Three reals: red, green and blue, or what a space makes of them.
  datatype Triple = Triple(x: real, y: real, z: real)

  function Abs(v: real): real {
    if v < 0.0 then -v else v
  }

  function Max(v: real, w: real): real {
    if v < w then w else v
  }

  function Min(v: real, w: real): real {
    if v < w then v else w
  }

  // `rem_euclid` by a positive modulus.
  function Rem(v: real, m: real): (r: real)
    requires m > 0.0
  {
    v - m * (v / m).Floor as real
  }

  // `clamp_u8` of `round`: nearest, then into a byte.
  function ToChannel(v: real): Channel {
    var n := (v + 0.5).Floor;
    if n < 0 then 0 else if n > 255 then 255 else n
  }

  function FractionToChannel(v: real): Channel {
    ToChannel(v * 255.0)
  }

  function Fraction(c: Channel): real {
    c as real / 255.0
  }

  function Chroma(s: real, l: real): real {
    (1.0 - Abs(2.0 * l - 1.0)) * s
  }

  // Up through one sector and down through the next.
  function Ramp(hp: real): real {
    1.0 - Abs(Rem(hp, 2.0) - 1.0)
  }

  function HslToRgb(h: real, s: real, l: real): Triple {
    var c := Chroma(s, l);
    var hp := Rem(h, 360.0) / 60.0;
    var x := c * Ramp(hp);
    var sector := hp.Floor;
    Lift(InSector(sector, c, x), 1.0, l - c / 2.0)
  }

  function InSector(sector: int, c: real, x: real): Triple {
    if sector == 0 then Triple(c, x, 0.0)
    else if sector == 1 then Triple(x, c, 0.0)
    else if sector == 2 then Triple(0.0, c, x)
    else if sector == 3 then Triple(0.0, x, c)
    else if sector == 4 then Triple(x, 0.0, c)
    else Triple(c, 0.0, x)
  }

  // A colour scaled toward black and lifted toward white.
  function Lift(t: Triple, scale: real, lift: real): Triple {
    Triple(t.x * scale + lift, t.y * scale + lift, t.z * scale + lift)
  }

  function HwbToRgb(h: real, w: real, b: real): Triple {
    if w + b >= 1.0 then
      var gray := w / (w + b);
      Triple(gray, gray, gray)
    else
      Lift(HslToRgb(h, 1.0, 0.5), 1.0 - w - b, w)
  }

  function Fractions(c: Rgba): Triple {
    Triple(Fraction(c.r), Fraction(c.g), Fraction(c.b))
  }

  function Highest(t: Triple): real {
    Max(Max(t.x, t.y), t.z)
  }

  function Lowest(t: Triple): real {
    Min(Min(t.x, t.y), t.z)
  }

  // Below this, a colour is gray.
  const TINY := 0.000000001

  function HueOf(t: Triple): real
    requires Highest(t) - Lowest(t) >= TINY
  {
    var d := Highest(t) - Lowest(t);
    Rem(60.0 * (if Highest(t) == t.x then Rem((t.y - t.z) / d, 6.0)
                else if Highest(t) == t.y then (t.z - t.x) / d + 2.0
                else (t.x - t.y) / d + 4.0), 360.0)
  }

  function RgbToHsl(c: Rgba): Triple {
    var t := Fractions(c);
    var high, low := Highest(t), Lowest(t);
    var l, d := (high + low) / 2.0, high - low;
    if d < TINY then Triple(0.0, 0.0, l)
    else
      LightnessIsInside(t);
      Triple(HueOf(t), if l > 0.5 then d / (2.0 - high - low) else d / (high + low), l)
  }

  function RgbToHwb(c: Rgba): Triple {
    var t := Fractions(c);
    Triple(RgbToHsl(c).x, Lowest(t), 1.0 - Highest(t))
  }

  ghost predicate InCube(t: Triple) {
    0.0 <= t.x <= 1.0 && 0.0 <= t.y <= 1.0 && 0.0 <= t.z <= 1.0
  }

  lemma FractionsInCube(c: Rgba)
    ensures InCube(Fractions(c))
  {
  }

  lemma LightnessIsInside(t: Triple)
    requires Highest(t) - Lowest(t) >= TINY
    ensures InCube(t) ==> 0.0 < Highest(t) + Lowest(t) < 2.0
  {
  }

  // A remainder is a whole number of turns away.
  ghost predicate TurnsAway(v: real, r: real, m: real, turns: int) {
    r == v - m * turns as real
  }

  // The moduli in use: pairs of sectors, sectors, degrees.
  lemma RemIs(v: real, m: real, turns: int)
    requires m == 2.0 || m == 6.0 || m == 360.0
    requires 0.0 <= v - m * turns as real < m
    ensures Rem(v, m) == v - m * turns as real
  {
    if m == 2.0 {
      assert (v / 2.0).Floor == turns;
    } else if m == 6.0 {
      assert (v / 6.0).Floor == turns;
    } else {
      assert (v / 360.0).Floor == turns;
    }
  }

  lemma RemInRange(v: real)
    ensures 0.0 <= Rem(v, 360.0) < 360.0 && exists turns: int :: TurnsAway(v, Rem(v, 360.0), 360.0, turns)
  {
    assert TurnsAway(v, Rem(v, 360.0), 360.0, (v / 360.0).Floor);
  }

  // The fully saturated colour of a hue, by sector and place in the sector.
  function Wheel(sector: int, f: real): Triple {
    InSector(sector, 1.0, if sector == 0 || sector == 2 || sector == 4 then f else 1.0 - f)
  }

  lemma SectorScales(sector: int, c: real, k: real, x: real, m: real)
    requires x == c * k
    ensures Lift(InSector(sector, c, x), 1.0, m) == Lift(InSector(sector, 1.0, k), c, m)
  {
    assert k * c == x;
  }

  /** What the conversion computes: the hue's colour, scaled and lifted. */
  lemma HslIsWheel(h: real, s: real, l: real, sector: int, f: real)
    requires 0 <= sector < 6 && 0.0 <= f < 1.0 && h == 60.0 * (sector as real + f)
    ensures HslToRgb(h, s, l) == Lift(Wheel(sector, f), Chroma(s, l), l - Chroma(s, l) / 2.0)
  {
    hide Rem, Chroma, Ramp, HslToRgb, InSector, Lift;
    RemIs(h, 360.0, 0);
    var hp := sector as real + f;
    assert hp.Floor == sector;
    RampIs(hp, sector, f);
    var c, k := Chroma(s, l), Ramp(hp);
    var x, m := c * k, l - c / 2.0;
    HslUnfolds(h, s, l, sector, hp, k, c, x, m);
    SectorScales(sector, c, k, x, m);
  }

  lemma HslUnfolds(h: real, s: real, l: real, sector: int, hp: real, k: real, c: real, x: real, m: real)
    requires hp == Rem(h, 360.0) / 60.0 && sector == hp.Floor && k == Ramp(hp)
    requires c == Chroma(s, l) && x == c * k && m == l - c / 2.0
    ensures HslToRgb(h, s, l) == Lift(InSector(sector, c, x), 1.0, m)
  {
    hide Rem, Chroma, Ramp;
  }

  lemma RampIs(hp: real, sector: int, f: real)
    requires 0 <= sector < 6 && 0.0 <= f < 1.0 && hp == sector as real + f
    ensures Ramp(hp) == if sector == 0 || sector == 2 || sector == 4 then f else 1.0 - f
  {
    hide Rem;
    RemIs(hp, 2.0, sector / 2);
  }

  // A difference as a part of the whole range.
  lemma PartOf(a: real, d: real) returns (k: real)
    requires d > 0.0 && -d <= a <= d
    ensures k == a / d && k * d == a && -1.0 <= k <= 1.0
    ensures a >= 0.0 <==> k >= 0.0
    ensures (a == d <==> k == 1.0) && (a == -d <==> k == -1.0)
  {
    k := a / d;
    assert k * d == a;
  }

  // In its sector one channel is highest, one lowest and one in between.
  ghost predicate InPlace(t: Triple, sector: int, f: real, d: real, low: real) {
    && (sector == 0 ==> t.x == low + d && t.y == low + f * d && t.z == low)
    && (sector == 1 ==> t.x == low + (1.0 - f) * d && t.y == low + d && t.z == low)
    && (sector == 2 ==> t.x == low && t.y == low + d && t.z == low + f * d)
    && (sector == 3 ==> t.x == low && t.y == low + (1.0 - f) * d && t.z == low + d)
    && (sector == 4 ==> t.x == low + f * d && t.y == low && t.z == low + d)
    && (sector == 5 ==> t.x == low + d && t.y == low && t.z == low + (1.0 - f) * d)
  }

  lemma WheelMeets(t: Triple, sector: int, f: real, d: real, low: real)
    requires 0 <= sector < 6 && InPlace(t, sector, f, d, low)
    ensures Lift(Wheel(sector, f), d, low) == t
  {
  }

  lemma RedIsHighest(t: Triple) returns (sector: int, f: real)
    requires Highest(t) - Lowest(t) >= TINY && Highest(t) == t.x
    ensures 0 <= sector < 6 && 0.0 <= f < 1.0 && HueOf(t) == 60.0 * (sector as real + f)
    ensures InPlace(t, sector, f, Highest(t) - Lowest(t), Lowest(t))
  {
    hide Rem;
    var k := PartOf(t.y - t.z, Highest(t) - Lowest(t));
    if k == 1.0 { sector, f := 1, 0.0; } else if k >= 0.0 { sector, f := 0, k; } else { sector, f := 5, k + 1.0; }
    RemIs(k, 6.0, if k >= 0.0 then 0 else -1);
    RemIs(60.0 * (sector as real + f), 360.0, 0);
  }

  lemma GreenIsHighest(t: Triple) returns (sector: int, f: real)
    requires Highest(t) - Lowest(t) >= TINY && Highest(t) != t.x && Highest(t) == t.y
    ensures 0 <= sector < 6 && 0.0 <= f < 1.0 && HueOf(t) == 60.0 * (sector as real + f)
    ensures InPlace(t, sector, f, Highest(t) - Lowest(t), Lowest(t))
  {
    hide Rem;
    var k := PartOf(t.z - t.x, Highest(t) - Lowest(t));
    if k == 1.0 { sector, f := 3, 0.0; } else if k >= 0.0 { sector, f := 2, k; } else { sector, f := 1, k + 1.0; }
    RemIs(60.0 * (sector as real + f), 360.0, 0);
  }

  lemma BlueIsHighest(t: Triple) returns (sector: int, f: real)
    requires Highest(t) - Lowest(t) >= TINY && Highest(t) != t.x && Highest(t) != t.y
    ensures 0 <= sector < 6 && 0.0 <= f < 1.0 && HueOf(t) == 60.0 * (sector as real + f)
    ensures InPlace(t, sector, f, Highest(t) - Lowest(t), Lowest(t))
  {
    hide Rem;
    var k := PartOf(t.x - t.y, Highest(t) - Lowest(t));
    if k >= 0.0 { sector, f := 4, k; } else { sector, f := 3, k + 1.0; }
    RemIs(60.0 * (sector as real + f), 360.0, 0);
  }

  /** The hue of a colour stands where the wheel, scaled to the colour's range
    * and lifted to its lowest channel, is the colour. */
  lemma HueIsOnWheel(t: Triple) returns (sector: int, f: real)
    requires Highest(t) - Lowest(t) >= TINY
    ensures 0 <= sector < 6 && 0.0 <= f < 1.0 && HueOf(t) == 60.0 * (sector as real + f)
    ensures Lift(Wheel(sector, f), Highest(t) - Lowest(t), Lowest(t)) == t
  {
    hide Rem, Wheel, Lift, InPlace, HueOf;
    if Highest(t) == t.x {
      sector, f := RedIsHighest(t);
    } else if Highest(t) == t.y {
      sector, f := GreenIsHighest(t);
    } else {
      sector, f := BlueIsHighest(t);
    }
    WheelMeets(t, sector, f, Highest(t) - Lowest(t), Lowest(t));
  }

  // The saturation is chosen so that the chroma is the colour's range.
  lemma SaturationFits(sum: real, d: real)
    requires 0.0 < d <= sum <= 2.0 - d
    ensures var s := if sum / 2.0 > 0.5 then d / (2.0 - sum) else d / sum;
            Chroma(s, sum / 2.0) == d && 0.0 <= s <= 1.0
  {
    if sum / 2.0 > 0.5 {
      var k := PartOf(d, 2.0 - sum);
      assert 1.0 - Abs(2.0 * (sum / 2.0) - 1.0) == 2.0 - sum;
      assert (2.0 - sum) * k == d;
    } else {
      var k := PartOf(d, sum);
      assert 1.0 - Abs(2.0 * (sum / 2.0) - 1.0) == sum;
      assert sum * k == d;
    }
  }

  lemma RangeInside(c: Rgba)
    ensures 0.0 <= Lowest(Fractions(c)) <= Highest(Fractions(c)) <= 1.0
  {
    FractionsInCube(c);
  }

  // Gray has no chroma, full saturation at half lightness all of it.
  lemma ChromaAtEnds(l: real)
    ensures Chroma(0.0, l) == 0.0 && Chroma(1.0, 0.5) == 1.0
  {
  }

  lemma ChromaIsRange(c: Rgba)
    requires Highest(Fractions(c)) - Lowest(Fractions(c)) >= TINY
    ensures var t, hsl := Fractions(c), RgbToHsl(c);
            && Chroma(hsl.y, hsl.z) == Highest(t) - Lowest(t)
            && hsl.z - (Highest(t) - Lowest(t)) / 2.0 == Lowest(t)
            && 0.0 <= hsl.y <= 1.0
  {
    hide Chroma, HueOf, Highest, Lowest;
    var t := Fractions(c);
    var high, low := Highest(t), Lowest(t);
    RangeInside(c);
    SaturationFits(high + low, high - low);
  }

  // Eight bits tell grays from all else by more than the threshold.
  lemma GrayIsGray(c: Rgba)
    ensures Highest(Fractions(c)) - Lowest(Fractions(c)) < TINY ==> c.r == c.g == c.b
  {
  }

  /** Red, green and blue through hue, saturation and lightness, unharmed. */
  lemma HslRoundTrip(c: Rgba)
    ensures var hsl := RgbToHsl(c); HslToRgb(hsl.x, hsl.y, hsl.z) == Fractions(c)
  {
    hide Wheel, HueOf, Chroma, HslToRgb, Rem, Fraction;
    var t, hsl := Fractions(c), RgbToHsl(c);
    if Highest(t) - Lowest(t) < TINY {
      GrayIsGray(c);
      HslIsWheel(0.0, 0.0, hsl.z, 0, 0.0);
      ChromaAtEnds(hsl.z);
    } else {
      var sector, f := HueIsOnWheel(t);
      HslIsWheel(hsl.x, hsl.y, hsl.z, sector, f);
      ChromaIsRange(c);
    }
  }

  /** And through hue, whiteness and blackness. */
  lemma HwbRoundTrip(c: Rgba)
    ensures var hwb := RgbToHwb(c); HwbToRgb(hwb.x, hwb.y, hwb.z) == Fractions(c)
  {
    hide Wheel, HueOf, Chroma, HslToRgb, Rem, Fraction;
    var t, hwb := Fractions(c), RgbToHwb(c);
    var high, low := Highest(t), Lowest(t);
    if high - low < TINY {
      GrayIsGray(c);
    } else {
      var sector, f := HueIsOnWheel(t);
      HslIsWheel(hwb.x, 1.0, 0.5, sector, f);
      ChromaAtEnds(0.5);
      assert Lift(Wheel(sector, f), 1.0, 0.0) == Wheel(sector, f);
    }
  }
}
