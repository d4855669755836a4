# Weather station LED strip colours

A model of `RainbowUtil`, the one piece of computation in the Android Things
weather station sample: it turns a barometer reading (hPa) into the colours
for the 7-LED strip of the Rainbow HAT. The pressure is placed in the range
965–1035 hPa, `n = ceil(7 * t)` LEDs are lit (clamped to 0..7), and the lit
LEDs are the last `n` positions of the strip, each showing its own colour of
a fixed 7-colour rainbow palette computed once when the class is loaded.

The model lives in `rainbow_util.dfy`, module `WeatherStation`:

- the class `RainbowUtil` holds the palette (`rainbowColors`, the source's
  static `sRainbowColors`); its constructor is the static initializer, which
  fills the palette in index order with a loop;
- `GetWeatherStripColors` is the source's method, with its local `t`, its
  reassigned count `n`, its zero-initialised fresh array and its filling
  loop; it is proved equal to the specification function `StripColors` of
  the palette's contents and the pressure, and it only reads the palette;
- `LitCount` is the clamped ceiling, characterised by per-LED thresholds
  (LED `k` from the right is lit exactly when the pressure exceeds
  `965 + 10k` hPa) and checked against a second, counting definition
  (`BandsPassed`).

Pressure is an exact `real`; colours are the source's 32-bit ARGB `int`
words, kept as `int`.

## Model

| member | source | states |
|---|---|---|
| WeatherStation.Hue | weatherstation-start/app/src/main/java/com/example/androidthings/weatherstation/RainbowUtil.java:34 | palette entry `i` has hue `i * 360 / 7` degrees: within [0, 360) and strictly increasing along the strip |
| WeatherStation.Ceil | weatherstation-start/app/src/main/java/com/example/androidthings/weatherstation/RainbowUtil.java:46 | `Math.ceil` is the least integer not below its argument: `x <= c < x + 1` |
| WeatherStation.LitCount | weatherstation-start/app/src/main/java/com/example/androidthings/weatherstation/RainbowUtil.java:45-47 | the lit count lies in [0, 7]; it is 0 at or below 965 hPa and 7 at or above 1035 hPa; LED `k` from the right end is lit iff the pressure is above `Threshold(k)` |
| WeatherStation.LitCountMonotone | weatherstation-start/app/src/main/java/com/example/androidthings/weatherstation/RainbowUtil.java:45-47 | a higher pressure never lights fewer LEDs |
| WeatherStation.BandsPassedPrefix | weatherstation-start/app/src/main/java/com/example/androidthings/weatherstation/RainbowUtil.java:46-47 | counting the thresholds the pressure lies above, among the first `k`, gives `min(k, n)` |
| WeatherStation.LitCountCountsBands | weatherstation-start/app/src/main/java/com/example/androidthings/weatherstation/RainbowUtil.java:45-47 | the clamped ceiling equals the number of the 7 thresholds the pressure lies above |
| WeatherStation.StripColors | weatherstation-start/app/src/main/java/com/example/androidthings/weatherstation/RainbowUtil.java:49-53 | the strip has 7 entries; entry `i` is the palette colour when `i >= 7 - n` and 0 otherwise |
| WeatherStation.StripColorsAt | weatherstation-start/app/src/main/java/com/example/androidthings/weatherstation/RainbowUtil.java:45-53 | entry `i` is the palette colour iff the pressure is above the threshold of place `6 - i`, else 0 |
| WeatherStation.LitLedsFormSuffix | weatherstation-start/app/src/main/java/com/example/androidthings/weatherstation/RainbowUtil.java:49-53 | with nonzero palette colours, the nonzero entries are exactly the suffix of length `n` ending at index 6 |
| WeatherStation.StripColorsMonotone | weatherstation-start/app/src/main/java/com/example/androidthings/weatherstation/RainbowUtil.java:45-53 | every LED lit at a pressure stays lit, with the same colour, at any higher pressure |
| WeatherStation.AllOffAtLowPressure | weatherstation-start/app/src/main/java/com/example/androidthings/weatherstation/RainbowUtil.java:45-53 | at or below 965 hPa all seven entries are 0 |
| WeatherStation.AllLitAtHighPressure | weatherstation-start/app/src/main/java/com/example/androidthings/weatherstation/RainbowUtil.java:45-53 | at or above 1035 hPa the strip equals the palette |
| WeatherStation.StripColorsAt1000 | weatherstation-start/app/src/main/java/com/example/androidthings/weatherstation/RainbowUtil.java:45-53 | at 1000 hPa, `n = 4`: indices 0–2 are 0 and indices 3–6 take their palette colours |
| WeatherStation.RainbowUtil.constructor | weatherstation-start/app/src/main/java/com/example/androidthings/weatherstation/RainbowUtil.java:30-37 | the static initializer allocates a 7-entry palette and sets entry `i` to the opaque colour of hue `Hue(i)` |
| WeatherStation.RainbowUtil.GetWeatherStripColors | weatherstation-start/app/src/main/java/com/example/androidthings/weatherstation/RainbowUtil.java:44-56 | returns a fresh array whose contents are `StripColors(palette, pressure)`; the palette is not modified, so equal pressures give equal strips |

## Left out

- `Color.HSVToColor` is a platform graphics routine: the constructor takes it as a parameter `hueToColor` (hue to ARGB colour at full saturation, value and alpha) and the model says nothing about its hue arithmetic.
- Single-precision floating point: pressure, `t` and the hue are exact reals, so rounding of `t`, NaN input and the saturation of the `(int)` cast of `Math.ceil` are not modelled.
- WeatherStationActivity (both the start and the final version) is not part of this model: it is Android lifecycle code that opens and closes the sensor, display and LED-strip drivers, logs their I/O errors, forwards sensor events, and hands the temperature to the display driver unchanged.
- WeatherStation.LitLedsFormSuffix: assumes every palette entry is nonzero, which holds because the palette colours are fully opaque (alpha 255) but is not derived from the foreign colour conversion.
