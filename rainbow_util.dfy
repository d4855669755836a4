/** Model of RainbowUtil: the weather station's mapping from a barometer
    reading (hPa) to the colours of its 7-LED strip.

    The strip shows where the pressure lies within a fixed range: the higher
    the pressure, the more LEDs are lit, starting from the right-hand end
    (index 6) and growing towards index 0. Each lit LED shows its own colour
    of a fixed rainbow palette; an unlit LED is 0 (off).

    Pressure is a `real`: the source's single-precision rounding is not
    modelled. Colours are the source's 32-bit ARGB `int` words. */
module WeatherStation {

  /** Length of the LED strip, and of the palette (`sRainbowColors.length`). */
  const NumLeds: nat := 7

  /** The barometer range, in hPa. */
  const BarometerRangeLow: real := 965.0
  const BarometerRangeHigh: real := 1035.0

  /** Hue, in degrees, of palette entry `i`: the palette sweeps the colour
      wheel in equal steps, starting at red (0 degrees). */
  function Hue(i: nat): (h: real)
    requires i < NumLeds
    ensures 0.0 <= h < 360.0
    ensures i > 0 ==> Hue(i - 1) < h
  {
    i as real * 360.0 / NumLeds as real
  }

  /** `Math.ceil` on exact reals: the least integer not below `x`. */
  function Ceil(x: real): (c: int)
    ensures x <= c as real < x + 1.0
  {
    -((-x).Floor)
  }

  function Min(a: int, b: int): int { if a <= b then a else b }
  function Max(a: int, b: int): int { if a >= b then a else b }

  /** Where the pressure lies in the barometer range: 0 at the low end,
      1 at the high end, outside [0, 1] outside the range. */
  function Normalize(pressure: real): real
  {
    (pressure - BarometerRangeLow) / (BarometerRangeHigh - BarometerRangeLow)
  }

  /** The pressure above which the `k`-th LED counted from the right-hand end
      of the strip lights up: the range is cut into `NumLeds` equal bands. */
  function Threshold(k: nat): real
  {
    BarometerRangeLow + k as real * (BarometerRangeHigh - BarometerRangeLow) / NumLeds as real
  }

  /** The number of lit LEDs for a pressure: the ceiling of `NumLeds * t`,
      clamped into [0, NumLeds]. Equivalently, LED `k` from the right is lit
      exactly when the pressure is above `Threshold(k)`. */
  function LitCount(pressure: real): (n: int)
    ensures 0 <= n <= NumLeds
    ensures pressure <= BarometerRangeLow ==> n == 0
    ensures pressure >= BarometerRangeHigh ==> n == NumLeds
    ensures forall k: nat | k < NumLeds :: k < n <==> pressure > Threshold(k)
  {
    var t := Normalize(pressure);
    Max(0, Min(Ceil(NumLeds as real * t), NumLeds))
  }

  /** A higher pressure never lights fewer LEDs. */
  lemma LitCountMonotone(p1: real, p2: real)
    requires p1 <= p2
    ensures LitCount(p1) <= LitCount(p2)
  {
  }

  /** Reference definition of the lit count, independent of the ceiling:
      how many of the first `k` thresholds (counted from the right-hand end
      of the strip) the pressure has passed, taken one LED at a time. */
  function BandsPassed(pressure: real, k: nat): (m: nat)
    ensures m <= k
  {
    if k == 0 then 0
    else BandsPassed(pressure, k - 1) + (if pressure > Threshold(k - 1) then 1 else 0)
  }

  /** Among the first `k` thresholds, the pressure passes exactly the first
      `min(k, LitCount(pressure))`. */
  lemma {:induction false} BandsPassedPrefix(pressure: real, k: nat)
    requires k <= NumLeds
    ensures BandsPassed(pressure, k) == Min(k, LitCount(pressure))
  {
    if k > 0 {
      BandsPassedPrefix(pressure, k - 1);
    }
  }

  /** The ceiling-and-clamp of the source counts exactly the thresholds the
      pressure lies above. */
  lemma LitCountCountsBands(pressure: real)
    ensures LitCount(pressure) == BandsPassed(pressure, NumLeds)
  {
    BandsPassedPrefix(pressure, NumLeds);
  }

  /** The strip for a pressure, given the palette: off (0) everywhere except
      the last `LitCount(pressure)` positions, which show their palette
      colours. */
  function StripColors(palette: seq<int>, pressure: real): (colors: seq<int>)
    requires |palette| == NumLeds
    ensures |colors| == NumLeds
    ensures forall i | 0 <= i < NumLeds ::
              colors[i] == if i >= NumLeds - LitCount(pressure) then palette[i] else 0
  {
    var n := LitCount(pressure);
    seq(NumLeds - n, _ => 0) + palette[NumLeds - n..]
  }

  /** LED `i` shows its palette colour exactly when the pressure is above the
      threshold of its place counted from the right-hand end, and is off
      otherwise. */
  lemma StripColorsAt(palette: seq<int>, pressure: real, i: nat)
    requires |palette| == NumLeds && i < NumLeds
    ensures StripColors(palette, pressure)[i]
            == if pressure > Threshold(NumLeds - 1 - i) then palette[i] else 0
  {
  }

  /** With a palette of visible colours (every palette entry is fully opaque,
      so nonzero), the lit LEDs are exactly a suffix of the strip ending at
      index `NumLeds - 1`, of length `LitCount(pressure)`. */
  lemma LitLedsFormSuffix(palette: seq<int>, pressure: real)
    requires |palette| == NumLeds
    requires forall i | 0 <= i < NumLeds :: palette[i] != 0
    ensures forall i | 0 <= i < NumLeds ::
              StripColors(palette, pressure)[i] != 0 <==> i >= NumLeds - LitCount(pressure)
  {
  }

  /** Raising the pressure only lights more LEDs: every LED lit at `p1` is
      lit, with the same colour, at any higher `p2`. */
  lemma StripColorsMonotone(palette: seq<int>, p1: real, p2: real)
    requires |palette| == NumLeds && p1 <= p2
    ensures forall i | 0 <= i < NumLeds ::
              StripColors(palette, p1)[i] == 0
              || StripColors(palette, p1)[i] == StripColors(palette, p2)[i]
  {
  }

  /** At or below the low end of the range every LED is off. */
  lemma AllOffAtLowPressure(palette: seq<int>, pressure: real)
    requires |palette| == NumLeds && pressure <= BarometerRangeLow
    ensures StripColors(palette, pressure) == [0, 0, 0, 0, 0, 0, 0]
  {
  }

  /** At or above the high end of the range the strip shows the whole
      palette. */
  lemma AllLitAtHighPressure(palette: seq<int>, pressure: real)
    requires |palette| == NumLeds && pressure >= BarometerRangeHigh
    ensures StripColors(palette, pressure) == palette
  {
  }

  /** Mid-range: 1000 hPa gives t = 0.5 and ceil(3.5) = 4 lit LEDs,
      indices 3 to 6. */
  lemma StripColorsAt1000(palette: seq<int>)
    requires |palette| == NumLeds
    ensures LitCount(1000.0) == 4
    ensures StripColors(palette, 1000.0) == [0, 0, 0] + palette[3..]
  {
  }

  /** The class's static state: the rainbow palette, computed once. */
  class RainbowUtil {
    const rainbowColors: array<int>

    ghost predicate Valid()
    {
      rainbowColors.Length == NumLeds
    }

    /** The static initializer: fills the palette in index order, entry `i`
        being the fully opaque colour of hue `Hue(i)` at full saturation and
        value. `hueToColor` stands for that colour conversion, which belongs
        to the platform's graphics library. */
    constructor (hueToColor: real -> int)
      ensures Valid() && fresh(rainbowColors)
      ensures forall i | 0 <= i < NumLeds :: rainbowColors[i] == hueToColor(Hue(i))
    {
      var colors := new int[NumLeds];
      for i := 0 to colors.Length
        invariant forall j | 0 <= j < i :: colors[j] == hueToColor(Hue(j))
      {
        colors[i] := hueToColor(Hue(i));
      }
      rainbowColors := colors;
    }

    /** The colours to write to the LED strip for a pressure reading: a new
        array, off everywhere except the last `n` LEDs, which take their
        palette colours. The palette is only read. */
    method GetWeatherStripColors(pressure: real) returns (colors: array<int>)
      requires Valid()
      ensures fresh(colors)
      ensures colors[..] == StripColors(rainbowColors[..], pressure)
    {
      var t := Normalize(pressure);
      var n := Ceil(rainbowColors.Length as real * t);
      n := Max(0, Min(n, rainbowColors.Length));

      colors := new int[rainbowColors.Length](_ => 0);
      for i := 0 to n
        invariant forall j | 0 <= j < colors.Length ::
                    colors[j] == if j >= NumLeds - i then rainbowColors[j] else 0
      {
        var ri := rainbowColors.Length - 1 - i;
        colors[ri] := rainbowColors[ri];
      }
      assert n == LitCount(pressure);
    }
  }
}
