# PurpleAir AQI widget: a verified model of its computations

`purpleair-aqi.js` is a Scriptable widget that shows the air quality
reported by a PurpleAir sensor. Between fetching the sensor's JSON and
drawing the widget, it runs a small pipeline, and this project models and
proves that pipeline:

1. Each raw field goes through `parseInt(x, 10)`.
2. `computePM` applies EPA's wood-smoke correction to the two PM2.5
   channels and the humidity.
3. `aqiFromPM` and `calcAQI` map the corrected concentration to an AQI. The
   mapping is Equation 1 of EPA's AQI Technical Assistance Document over the
   pre-2024 PM2.5 breakpoints, and the top band is not clamped.
4. `calculateLevel` coerces the AQI to an integer level. It then looks up
   the severity entry with `getLevelAttributes` and writes the level into
   that shared entry of the `levelAttributes` table.
5. `trendsFromStats` derives the " Improving" / " Worsening" suffix from the
   sensor's statistics and stores it in the global `theTrend`.

Modules:

- `JsBuiltins` (`js_builtins.dfy`): the ECMAScript built-ins the pipeline
  relies on. These are `parseInt` with radix 10 (section 19.2.5 of ECMA-262),
  Number::toString on integers, `Math.round` as `Floor(x + 1/2)`, `x || 0`,
  and relational operators that are false on NaN. A parse result is
  `Option<int>`, with None for NaN; a Number is `NaN | Num(real)`.
- `Aqi` (`aqi.dfy`): `computePM`, `calcAQI` and `aqiFromPM`. The `"-"` that
  `aqiFromPM` returns is the constructor `Unavailable`.
- `Levels` (`levels.dfy`): the `levelAttributes` table as a constant sequence,
  and `getLevelAttributes`. The lookup is modelled as a filter over table
  positions followed by a stable insertion sort with the script's comparator.
  It returns the position of the selected entry.
- `Trends` (`trends.dfy`): the trend suffix over the two parsed statistics.
- `Script` (`script.dfy`): the script's mutable globals, held in the class
  `Globals`, and the end-to-end lemmas.
  - `levelAttributes` is an `array` whose entries change in place.
  - `theTrend` is a field.
  - `calculateLevel` and `trendsFromStats` are methods that change them. They
    are specified by `StoreLevel`, `StoredEntry` and `TrendSuffix`.

Three behaviours of the code are easy to miss, and the model keeps them:

- A concentration of exactly 12.1 gives an AQI of 50, not 51. Every band test
  above the lowest is a strict `>`, so 12.1 falls to the lowest band, whose
  formula gives 50 there.
- A sensor field that does not parse makes `computePM` return NaN, not 0.
  `aqiFromPM` then returns `"-"`, and only `calculateLevel` coerces that to
  level 0.
- `getLevelAttributes` returns a reference to the shared table entry, not a
  copy, so `calculateLevel` writes `level` into the table itself.

## Model

| member | source | states |
|---|---|---|
| JsBuiltins.OrZero | purpleair-aqi.js:138 | the fallback to 0 after `parseInt` leaves a parsed integer as it is and turns NaN into 0 |
| JsBuiltins.Round | purpleair-aqi.js:124 | `Math.round(x)` is the integer r with r - 1/2 <= x < r + 1/2, so a tie goes upward |
| JsBuiltins.RoundMonotone | purpleair-aqi.js:124 | `Math.round` never decreases as its argument grows |
| JsBuiltins.TrimStart | purpleair-aqi.js:87-89 | `parseInt`'s trimming drops exactly the leading white space and leaves a suffix that starts with something else |
| JsBuiltins.ParseTrimmed | purpleair-aqi.js:87-89 | after trimming, `parseInt` is NaN exactly when no digit follows the optional sign, and a negative result needs a leading '-' |
| JsBuiltins.ParseInt | purpleair-aqi.js:87-89 | `parseInt(s, 10)` is NaN exactly when, after white space and one sign, no decimal digit follows; a negative result comes from a leading '-' |
| JsBuiltins.NatToString | purpleair-aqi.js:138 | the decimal text of a natural number is non-empty, all digits, without a leading zero, and denotes that number |
| JsBuiltins.IntToString | purpleair-aqi.js:138 | the text `parseInt` makes of an integral AQI is non-empty and starts with '-' exactly for a negative number |
| JsBuiltins.ParseIntOfIntToString | purpleair-aqi.js:138 | `parseInt` reads back the decimal text of every integer, even when other characters follow it |
| JsBuiltins.ParseIntSkipsWhiteSpace | purpleair-aqi.js:87-89 | leading white space does not change the result of `parseInt` |
| JsBuiltins.ParseIntNoDigits | purpleair-aqi.js:138 | `parseInt("-")`, `parseInt("")` and `parseInt("abc")` are NaN |
| JsBuiltins.ParseIntTruncates | purpleair-aqi.js:87 | `parseInt("50.9")` is 50: a fractional part is cut off |
| JsBuiltins.ParseIntSign | purpleair-aqi.js:149 | `parseInt(" -7x")` is -7 |
| Aqi.AqiText | purpleair-aqi.js:138 | the text of `aqiFromPM`'s result is "-" exactly for an unavailable reading, and `parseInt` with the fallback to 0 reads it back as the AQI, or 0 for "-" |
| Aqi.ComputePM | purpleair-aqi.js:86-96 | the corrected PM2.5 is NaN exactly when one of the three fields does not parse |
| Aqi.ComputePMOfIntegers | purpleair-aqi.js:86-96 | on fields that hold integer text, with anything but a digit after it, the result is 0.52·((a1+a2)/2) − 0.085·h + 5.71 on those integers |
| Aqi.ComputePMExample | purpleair-aqi.js:86-96 | fields "50", "50", "50" give 27.46 |
| Aqi.EpaCorrectionMonotone | purpleair-aqi.js:90-95 | the correction rises with each channel and falls as humidity rises |
| Aqi.CalcAQI | purpleair-aqi.js:120-125 | `calcAQI` is Equation 1, (Ih−Il)/(BPh−BPl)·(Cp−BPl)+Il, rounded to the nearest integer |
| Aqi.CalcAQIAtBreakpoints | purpleair-aqi.js:120-125 | at Cp = BPl a band gives Il, and at Cp = BPh it gives Ih |
| Aqi.CalcAQIMonotone | purpleair-aqi.js:120-125 | within a band with rising breakpoints and indices, the index never decreases as Cp grows |
| Aqi.AqiFromPM | purpleair-aqi.js:99-117 | `aqiFromPM` returns "-" exactly when pm is NaN or negative; otherwise it returns an AQI of at least 0 |
| Aqi.AqiBandRanges | purpleair-aqi.js:99-117 | each range of concentrations lands in its own index range: 0-50, 51-100, 101-150, 151-200, 201-300, 301-400, and 401 and up |
| Aqi.AqiMonotone | purpleair-aqi.js:99-125 | over pm >= 0 the AQI never decreases as pm grows, within a band and across every band boundary |
| Aqi.AqiUnclamped | purpleair-aqi.js:100-101 | every pm above 350.5 uses the 401-500 band's formula, so pm >= 501 gives an AQI above 500 |
| Aqi.AqiExamples | purpleair-aqi.js:99-117 | -0.1 and NaN give "-", 0 gives 0, and 600 gives 566 |
| Aqi.AqiAtBreakpoints | purpleair-aqi.js:99-125 | 12.0 and 12.1 give 50; 35.4, 55.4, 150.4, 250.4, 350.4 and 500 give 100, 150, 200, 300, 400 and 500 |
| Levels.FilterFrom | purpleair-aqi.js:79-80 | the filter keeps exactly the positions whose threshold is strictly below the level, in table order |
| Levels.Insert | purpleair-aqi.js:81 | insertion adds exactly one element and keeps the others |
| Levels.Compare | purpleair-aqi.js:81 | the comparator keeps a before b exactly when a's threshold is at least b's, and is 0 exactly on equal thresholds |
| Levels.Sort | purpleair-aqi.js:81 | the sort returns a permutation of its input |
| Levels.InsertSorted | purpleair-aqi.js:81 | inserting a position from earlier in the table keeps the order descending by threshold and stable |
| Levels.SortSorted | purpleair-aqi.js:81 | sorting positions given in table order gives them in descending threshold order, with equal thresholds in table order |
| Levels.SortedHeadIsHighest | purpleair-aqi.js:79-82 | the first element of the sorted filter is a qualifying position with the greatest threshold; the filter is empty exactly when nothing qualifies |
| Levels.GetLevelAttributes | purpleair-aqi.js:78-83 | the entry returned is one with the greatest threshold strictly below the level, the first such in the table; `undefined` exactly when no threshold is below the level |
| Levels.HighestBelowUnique | purpleair-aqi.js:78-83 | with distinct thresholds, only one entry has the greatest threshold strictly below a level |
| Levels.LookupIsHighestBelow | purpleair-aqi.js:78-83 | with distinct thresholds, that one entry is the lookup's result |
| Levels.InitialLevelAttributes | purpleair-aqi.js:32-75 | the six entries of `levelAttributes`: threshold, label and the three colours, highest threshold first |
| Levels.InitialThresholdsDistinct | purpleair-aqi.js:32-75 | the six thresholds of the table are distinct |
| Levels.LookupFollowsBands | purpleair-aqi.js:32-83 | on the script's table, the lookup gives Hazardous above 300, Very Unhealthy above 200, and so on down to Good above -20, and nothing at -20 or less |
| Levels.LevelLookupDefined | purpleair-aqi.js:32-83 | the lookup is defined exactly for levels above -20, and then exactly one entry qualifies as the highest below |
| Levels.LevelLabels | purpleair-aqi.js:32-83 | the label shown is Good up to 50, Moderate up to 100, Unhealthy (S.G.) up to 150, Unhealthy up to 200, Very Unhealthy up to 300, and Hazardous above |
| Levels.LevelBoundaries | purpleair-aqi.js:32-83 | each threshold belongs to the band below it: -20 gives nothing, -19 and 50 give Good, 51 and 100 give Moderate, 101 gives Unhealthy (S.G.), and so on up to 301 giving Hazardous |
| Levels.LevelNumber | purpleair-aqi.js:138 | the level `calculateLevel` derives from an AQI (`parseInt`, then the fallback to 0) is the AQI itself, and 0 for "-" |
| Levels.UnavailableIsGood | purpleair-aqi.js:138-141 | "-" becomes level 0, which selects the Good entry |
| Trends.TrendSuffix | purpleair-aqi.js:149-160 | the suffix is " Improving" exactly when v2 − v1 > 5, " Worsening" exactly when v2 − v1 < −5, and "" otherwise, including when either value is NaN |
| Trends.TrendSwap | purpleair-aqi.js:149-160 | swapping v1 and v2 swaps Improving and Worsening and keeps "" |
| Trends.TrendExamples | purpleair-aqi.js:149-160 | 10 → 20 is Improving, 20 → 10 is Worsening, a difference of 2 or exactly 5 is "", and NaN is "" |
| Script.LookupReadsThresholds | purpleair-aqi.js:78-83 | the lookup depends only on the tables' thresholds |
| Script.LookupOfValidEntries | purpleair-aqi.js:141 | on every table `calculateLevel` can leave behind, the lookup still follows the bands |
| Script.StoreLevel | purpleair-aqi.js:141-143 | writing the level changes no entry's threshold, label or colours; the entry the lookup selected gets the new level, and every other entry stays as it was |
| Script.StoredEntry | purpleair-aqi.js:141-144 | the entry returned exists exactly when the lookup finds one; it is that entry with its level set |
| Script.StoreLevelOnValid | purpleair-aqi.js:141-144 | writing a level keeps the table's thresholds, labels and colours as they started, and returns the script's entry for the level's band, or nothing at -20 or below |
| Script.StoreLevelIdempotent | purpleair-aqi.js:141-143 | calling `calculateLevel` twice with the same AQI leaves the same table as calling it once |
| Script.Globals.constructor | purpleair-aqi.js:32-75 | the script starts with the six entries of `levelAttributes`, none with a level, and with `theTrend` unset |
| Script.Globals.CalculateLevel | purpleair-aqi.js:129-145 | `calculateLevel` keeps the table's labels, colours and thresholds; it leaves the table as StoreLevel says and returns StoredEntry, which is the selected entry of the new table; it returns an entry exactly when the level is above -20 |
| Script.Globals.TrendsFromStats | purpleair-aqi.js:148-161 | `trendsFromStats` returns the suffix for the parsed v1 and v2, stores it in `theTrend`, and changes nothing else |
| Script.CalculatedLevelOfReading | purpleair-aqi.js:99-141 | for every concentration, the level `calculateLevel` derives is the AQI, or 0 for "-", and the lookup for it is defined |
| Script.UnparsableReadingIsGood | purpleair-aqi.js:86-141 | a reading with a field that does not parse is shown as "-" at level 0, in the Good entry |
| Script.ExampleCorrection | purpleair-aqi.js:86-96 | channels "40" and "42" at humidity "50" give 22.78 |
| Script.ExampleLevel | purpleair-aqi.js:99-141 | 22.78 gives AQI 73, which selects the Moderate entry |
| Script.ExampleTrend | purpleair-aqi.js:148-161 | statistics "8" and "20" give " Improving" |

## Left out

- `getSensorData` (purpleair-aqi.js:15-29) is a network request to the PurpleAir API. The model starts from the fields that request returns.
- `run` (purpleair-aqi.js:163-242) is not modelled: widget construction, colours and fonts, `console.log`, `Script.setWidget` and the try/catch error display are host UI calls.
- `JSON.parse(data.val)` and the `Date(...).toLocaleTimeString` formatting in `run` are left out. They are library calls whose output depends on the host and the locale. `Trends.Stats` holds only the two fields the trend reads.
- The `SENSOR_ID` / `API_URL` configuration and the map URL are left out, because they are string glue around the network call.
- Numbers are exact reals, so IEEE-754 double rounding in the correction and at `Math.round` ties is not modelled.
- Sensor fields are text. `parseInt` first converts a non-string argument to a string, and Number::toString for non-integers and in exponent notation (from 10^21 on) is not modelled.
- `JsBuiltins.ParseInt`: for very long digit strings, JavaScript returns an approximation or Infinity, and for "-0" it returns -0. The model returns the exact integer and 0 in those cases.
- `Script.Globals.CalculateLevel`: the JavaScript returns a reference to the shared entry. The model returns a copy of the entry as written, so a later write through that reference is not modelled.
- `calculateLevel`'s placeholder `res` object (purpleair-aqi.js:130-136) is overwritten before use, so it is never observable and is not modelled.
- `calculateLevel` on a level of -20 or less assigns `level` on `undefined` (line 143) and throws a TypeError. The model returns None instead and leaves the table unchanged.
- `Aqi.CalcAQI`: requires BPh ≠ BPl. With equal breakpoints JavaScript would divide by zero and produce Infinity or NaN. None of `aqiFromPM`'s calls has equal breakpoints.
- `Levels.GetLevelAttributes` is modelled on integer levels only, because that is its only use (purpleair-aqi.js:138-141). Table entries are identified by position, in place of object identity.
- `theTrend` is a field of `Globals`, standing in for the sloppy-mode global that `trendsFromStats` creates by assignment.
