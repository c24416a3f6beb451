# Signal K → NMEA 2000 conversions, modelled in Dafny

This project models the decision-and-conversion logic of three Signal K →
NMEA 2000 conversion modules. Each module reads a snapshot of telemetry
values, decides which NMEA 2000 records (PGNs) to build, and fills in their
fields:

- `conversions/battery.js` is the **stateless battery composer**. Each
  configured battery subscribes to eight keys with a 60 s timeout. Its
  callback turns the current values into Battery Status (PGN 127508) and
  DC Detailed Status (PGN 127506) objects whose property names are the
  NMEA 2000 field titles (`'Battery Instance'`, `'State of Charge'`,
  `'Time Remaining'`, ...). Each record is emitted when any of its inputs
  is present, and an absent input leaves its field out.
- `startupscript/signalk/conversions/battery.js`, the JavaScript from line
  29 on, is the **caching battery composer**. It subscribes to seven keys
  with a 5 s timeout and normalises tagged or bare values (`extractValue`).
  It keeps a last-known-value cache that only present values overwrite.
  Battery Status is emitted when voltage *and* current are known, and
  DC Detailed Status when the state of charge is known. Its objects use
  lower-camel property names (`instance`, `voltage`, `stateOfCharge`,
  `timeRemaining`). State of charge is sent in whole percent, time
  remaining in whole seconds saturating at 65535, and ripple voltage
  clamped at 0.
- `conversions/engineParameters.js` holds the **engine record builders**.
  Engine Parameters Rapid Update (PGN 127488) is built every 250 ms from
  the shaft speed, and Engine Parameters Dynamic (PGN 127489) every 1000 ms
  from ten readings, with NMEA 2000 field titles as property names
  (`'Engine Instance'`, `'Oil pressure'`, ...). It converts Pa→kPa,
  m³/s→L/h, ratios→percent and seconds→ISO 8601 duration. The setup
  refuses a missing, non-array or empty engine list.

Modules:

| file | module | contents |
|---|---|---|
| `values.dfy` | `Values` | `Opt<T>` (present / absent), the `DeviceMapping` entry `{signalkId, instanceId}`, and two small list and string helpers |
| `rounding.dfy` | `Rounding` | `Math.round` as `Floor(x + 1/2)`, `Math.round(x*k)/k` for k = 1, 10, 100, the named helpers `round1`, `round2`, `roundVoltage`, `roundCurrent`, `roundTempK`, and field predicates |
| `decimal.dfy` | `Decimal` | decimal rendering of integers as a template literal prints them, and a parser that accepts exactly those renderings |
| `durations.dfy` | `Durations` | `secondsToDuration`: the floored components (JavaScript's truncating `%` written out) and the `PT{h}H{m}M{s}S` rendering, with a parser that accepts exactly the renderings |
| `battery.dfy` | `Battery` | the stateless battery composer, its keys, timeouts and `conversions` |
| `cached_battery.dfy` | `CachedBattery` | `extractValue`, the cache, the clamps, the caching composer, its keys, timeouts and `conversions` |
| `engine_parameters.dfy` | `EngineParameters` | the 127488 and 127489 builders and the `conversions` guard with the jobs it installs |

The two battery files differ, and each is modelled as written:

- Emission: any input present, in the stateless file. Voltage and current
  both known, or state of charge known, in the caching file.
- Time remaining: an ISO 8601 duration string in the stateless file, whole
  seconds saturating at 65535 in the caching file.
- Ripple voltage: rounded in the stateless file, rounded and clamped at 0
  in the caching file.
- DC type: the string `'Battery'` in the stateless file, the number 0 in
  the caching file.

Every output-record contract states three things:

- when the record is emitted;
- that each field is present exactly when its input is;
- what the field's value means relative to the input:
  - A rounded value is characterised as "the grid point within half a step
    of the input". `Rounding.RoundedToCharacterizes` proves that only one
    value meets this.
  - A duration is characterised as "the string that reads back as the
    floored components". `Durations.ParseOnlyRenderings` proves that only
    one string does.

  So the contracts pin each field down completely.

Points about the code worth knowing:

- Engine speed is `Math.round` of the rpm, with no coarser quantisation.
  `EngineParameters.RapidExample` shows that 209.0 rad/s gives 1996 rpm.
- The caching composer's `extractValue` passes NaN and infinities through
  as numbers, so they overwrite the cache. This model has no non-finite
  reals; see "Left out".
- Neither battery file expires values itself: the host drops stale keys
  through the `timeouts` lists. The code has no rate limiter, no status
  bitmask packing, no "not available" sentinels and no check that instance
  ids are unique.

## Model

| member | source | states |
|---|---|---|
| `Rounding.RoundInt` | conversions/engineParameters.js:14 | `Math.round` gives the integer n with n − ½ ≤ x < n + ½: the nearest integer, with halves rounded up |
| `Rounding.RoundIntUnique` | conversions/engineParameters.js:14 | Only one integer lies in that interval, so it characterises `Math.round` completely |
| `Rounding.RoundIntIdempotent` | conversions/engineParameters.js:14 | Rounding an already rounded number changes nothing |
| `Rounding.RoundTo` | conversions/battery.js:5-15 | `Math.round(x*k)/k` lies within half a step of x: x − 1/(2k) < r ≤ x + 1/(2k) |
| `Rounding.RoundToOnGrid` | conversions/battery.js:5-15 | The result times k is the integer `Math.round(x*k)`, so the result is a multiple of 1/k |
| `Rounding.RoundToIdempotent` | conversions/battery.js:5-15 | Rounding twice to the same scale equals rounding once |
| `Rounding.RoundToNearest` | conversions/battery.js:5-15 | No multiple m/k of the step is closer to x than the result |
| `Rounding.RoundToMonotone` | conversions/battery.js:5-15 | x ≤ y implies round(x) ≤ round(y) |
| `Rounding.RoundedToCharacterizes` | conversions/battery.js:5-15 | A value is a grid point within half a step of x exactly when it equals the rounded x |
| `Rounding.Round1` | conversions/engineParameters.js:12 | `round1` is within 0.05 of its input and a fixed point of rounding to 0.1 |
| `Rounding.Round2` | conversions/engineParameters.js:13 | `round2` is within 0.005 of its input and a fixed point of rounding to 0.01 |
| `Rounding.RoundVoltage` | conversions/battery.js:5-7 | `roundVoltage` is within 0.005 V and on the 0.01 V grid; the caching variant's copy at startupscript/signalk/conversions/battery.js:42-44 is the same function |
| `Rounding.RoundCurrent` | conversions/battery.js:9-11 | `roundCurrent` is within 0.05 A and on the 0.1 A grid; the copy at startupscript/signalk/conversions/battery.js:46-48 is the same |
| `Rounding.RoundTempK` | conversions/battery.js:13-15 | `roundTempK` is within 0.05 K and on the 0.1 K grid; the copy at startupscript/signalk/conversions/battery.js:50-52 is the same |
| `Rounding.NamedRoundingIdempotent` | conversions/battery.js:5-15 | Every named rounding helper is idempotent |
| `Rounding.RoundOpt` | conversions/battery.js:99-112 | `x == null ? undefined : round(x)`: present exactly when the input is, and then the rounded input |
| `Rounding.PercentOpt` | conversions/battery.js:131-135 | `Math.round(x*100)`: present exactly when x is, and then the whole percentage nearest to x·100 |
| `Rounding.WholeOpt` | conversions/battery.js:147-150 | `Math.round(ampHours)`: present exactly when the input is, and then the nearest integer |
| `Decimal.NatToString` | conversions/battery.js:23 | An integral number prints as one or more digits, with no leading zero |
| `Decimal.NatStringRoundTrip` | conversions/battery.js:23 | Reading the printed digits back gives the number |
| `Decimal.IntStringRoundTrip` | conversions/battery.js:23 | An integer, sign included, parses back from its printed form |
| `Decimal.ParseInt` | conversions/battery.js:23 | The parser accepts exactly the printed forms: a string it reads as i is the printing of i, so there are no leading zeros and no `-0` |
| `Decimal.CanonicalIsRendering` | conversions/battery.js:23 | A digit string without a leading zero is the printing of its own value |
| `Durations.DecomposeSplitsWholeSeconds` | conversions/battery.js:18-24 | For sec ≥ 0: h ≥ 0, 0 ≤ m < 60, 0 ≤ s < 60, and h·3600 + m·60 + s = ⌊sec⌋ |
| `Durations.NegativeSecondsGiveNegativeHours` | conversions/battery.js:18-24 | For sec < 0 the hours are negative and the string starts with `PT-`; the source has no guard |
| `Durations.RenderParseRoundTrip` | conversions/battery.js:23 | `PT{h}H{m}M{s}S` parses back to exactly (h, m, s) |
| `Durations.ParseOnlyRenderings` | conversions/battery.js:23 | A string that parses as (h, m, s) is exactly `PT{h}H{m}M{s}S`, so each duration has only one string that reads as it |
| `Durations.SecondsToDuration` | conversions/engineParameters.js:17-23 | The string parses to the floored components, computed with JavaScript's truncating `%`, and no other string does. For sec ≥ 0 those components split ⌊sec⌋ into hours, minutes < 60 and seconds < 60 |
| `Durations.SecondsToDurationExample` | conversions/battery.js:18-24 | 12340 s renders as `PT3H25M40S` |
| `Durations.NegativeSecondsExample` | conversions/battery.js:18-24 | −1 s gives the components (−1, −1, −1) and the string `PT-1H-1M-1S`; the source accepts negative input, and the result does not add up to −1 s |
| `Durations.DurationOpt` | conversions/battery.js:137-140 | The Time Remaining field is present exactly when its input is. It is then the only string that reads as the input's floored components, and for a non-negative input those split the whole seconds |
| `Battery.StatusRecord` | conversions/battery.js:90-113 | PGN 127508 is built iff voltage, current or temperature is present. Each field is omitted iff its input is absent, otherwise it is rounded to 0.01 V, 0.1 A or 0.1 K. The instance is the battery's |
| `Battery.DcStatusRecord` | conversions/battery.js:119-151 | PGN 127506 is built iff any of soc, time remaining, soh, ripple or amp hours is present. DC type is "Battery". Soc and soh are whole percent, time remaining is the duration string of its floored components, ripple is rounded to 0.01 V and amp hours to a whole number; each is omitted iff its input is absent |
| `Battery.Callback` | conversions/battery.js:74-155 | At most two records: 127508 iff its predicate holds, 127506 iff its predicate holds, 127508 always first, and every record carries `battery.instanceId`. Every field agrees with its input |
| `Battery.StatusSpecDetermines` | conversions/battery.js:95-113 | Any Battery Status record that satisfies the field description is exactly the one built |
| `Battery.CallbackExtremes` | conversions/battery.js:90-125 | All inputs absent gives no records; all inputs present gives both |
| `Battery.CallbackExample` | conversions/battery.js:85-154 | 12.5 V, 23.1 A, 290.15 K, soc 0.93, 12340 s, soh 0.6 and 12 V ripple give 12.5, 23.1, 290.2 and 93, 60, `PT3H25M40S`, 12.0 |
| `Battery.Keys` | conversions/battery.js:68-70 | Key i is `electrical.batteries.<signalkId>.` followed by the i-th of the eight suffixes |
| `Battery.Timeouts` | conversions/battery.js:72 | One 60000 ms timeout per key |
| `Battery.KeysDistinct` | conversions/battery.js:30-39 | A battery's eight keys are pairwise distinct |
| `Battery.Conversions` | conversions/battery.js:60-72 | Null iff the battery mapping is missing. Otherwise there is one registration per battery, in order, each with 8 keys and 8 timeouts of 60000 |
| `CachedBattery.ExtractValue` | startupscript/signalk/conversions/battery.js:35-40 | null/undefined gives absent, a number gives itself, an object with a non-null `.value` gives that value, and anything else gives absent |
| `CachedBattery.ExtractValueNormalForm` | startupscript/signalk/conversions/battery.js:35-40 | A bare number and the same number tagged extract alike; re-wrapping an extracted value changes nothing |
| `CachedBattery.Update` | startupscript/signalk/conversions/battery.js:130-137 | A cached quantity is overwritten iff its newly extracted value is present; otherwise it keeps its last value |
| `CachedBattery.UpdateWithNothingNew` | startupscript/signalk/conversions/battery.js:130-137 | A callback whose arguments all extract to absent leaves the cache unchanged |
| `CachedBattery.ReplayKeepsLastPresent` | startupscript/signalk/conversions/battery.js:87-137 | After any sequence of callbacks, each cached quantity is the most recent present value it received, or its starting value |
| `CachedBattery.ReplayKeepsKnown` | startupscript/signalk/conversions/battery.js:131-137 | A present cached quantity never becomes absent again |
| `CachedBattery.ClampTimeRemaining` | startupscript/signalk/conversions/battery.js:178-181 | The result is ≤ 65535. It is the nearest whole second below 65535.5 and exactly 65535 from there on |
| `CachedBattery.TimeRemainingSaturates` | startupscript/signalk/conversions/battery.js:181 | Every input ≥ 65535 encodes as 65535: saturation, not wrap-around |
| `CachedBattery.ClampRipple` | startupscript/signalk/conversions/battery.js:183-186 | The result is ≥ 0. From 0.005 V up it is the ripple rounded to 0.01 V; below that it is 0 |
| `CachedBattery.StatusRecord` | startupscript/signalk/conversions/battery.js:141-158 | PGN 127508 is built iff cached voltage AND current are present. Voltage and current are rounded, and temperature is omitted iff not cached |
| `CachedBattery.DcStatusRecord` | startupscript/signalk/conversions/battery.js:160-191 | PGN 127506 is built iff the cached soc is present. dcType is 0 and soc is whole percent. soh, time remaining and ripple are omitted iff not cached; time remaining is saturated at 65535 and ripple is clamped at 0 |
| `CachedBattery.Compose` | startupscript/signalk/conversions/battery.js:139-193 | At most two records, 127508 before 127506, each carrying the battery's instance and agreeing with the cache |
| `CachedBattery.Callback` | startupscript/signalk/conversions/battery.js:111-194 | A newly present value overwrites its cached one, and an absent one leaves it. 127508 is emitted iff voltage and current are each cached or newly present, and 127506 iff soc is. Records come in order with the battery's instance, and every field agrees with the updated cache |
| `CachedBattery.CallbackExtendsReplay` | startupscript/signalk/conversions/battery.js:111-137 | A callback on the cache left by earlier samples returns the replay of all the samples and composes its records from it, so the replay lemmas describe successive callbacks |
| `CachedBattery.StatusPersists` | startupscript/signalk/conversions/battery.js:131-145 | Once Battery Status is emitted, every later callback emits it, whatever arrives |
| `CachedBattery.DcStatusPersists` | startupscript/signalk/conversions/battery.js:131-164 | Once DC Detailed Status is emitted, every later callback emits it |
| `CachedBattery.Keys` | startupscript/signalk/conversions/battery.js:99-107 | Seven keys `electrical.batteries.<signalkId>` + suffix, in argument order |
| `CachedBattery.Timeouts` | startupscript/signalk/conversions/battery.js:109 | Seven timeouts, all 5000 ms |
| `CachedBattery.KeysDistinct` | startupscript/signalk/conversions/battery.js:99-107 | The seven keys are pairwise distinct |
| `CachedBattery.Conversions` | startupscript/signalk/conversions/battery.js:77-109 | Null iff the battery mapping is missing. Otherwise there is one registration per battery, each with 7 keys, 7 timeouts of 5000 and an empty cache |
| `EngineParameters.RadPerSecToRpm` | conversions/engineParameters.js:26-28 | rpm · 2π = rad · 60, with π the double `Math.PI` |
| `EngineParameters.RapidRecord` | conversions/engineParameters.js:72-86 | PGN 127488 is built iff the revolutions reading is a finite number. It carries `engine.instanceId`, and Speed is the whole rpm nearest the converted value |
| `EngineParameters.RapidSpeedMonotone` | conversions/engineParameters.js:84 | A faster shaft never reports a lower speed |
| `EngineParameters.RapidExample` | conversions/engineParameters.js:84 | 209.44 rad/s gives 2000 rpm and 209.0 rad/s gives 1996 rpm: there is no 10-rpm quantisation |
| `EngineParameters.DynamicRecordOf` | conversions/engineParameters.js:95-156 | Always one record with `engine.instanceId`. Each pressure is omitted iff not finite, otherwise Pa/1000 rounded to 0.1 kPa. Temperatures are rounded to 0.1 K and alternator potential to 0.01 V. Fuel rate is present iff finite and > 0, as rate·3600000 rounded to 0.1. Engine hours are present iff run time is finite and ≥ 0, as a duration with m, s < 60 that splits ⌊runTime⌋. Load and torque are whole percent. Both discrete status lists are empty |
| `EngineParameters.PressureInKilopascal` | conversions/engineParameters.js:109-118 | A present oil pressure of p Pa is sent as `round1(p / 1000)` |
| `EngineParameters.DynamicWithNoReadings` | conversions/engineParameters.js:113-156 | With no usable reading, the record still goes out with only the instance and the empty status lists |
| `EngineParameters.Conversions` | conversions/engineParameters.js:62-93 | Null iff the engines option is missing, not an array, or empty. Otherwise one rapid job (127488, 250 ms) per engine, then one dynamic job (127489, 1000 ms) per engine |
| `EngineParameters.JobsCoverEveryEngine` | conversions/engineParameters.js:71-93 | Every job is a rapid or a dynamic job at its own period, and every engine gets one of each |

## Left out

- Timers and lifecycle (`setInterval`, the `timers` list, `plugin.stop`,
  conversions/engineParameters.js:34-40) are scheduling. The model lists
  the periodic jobs `conversions` installs but does not run them.
- `app.getSelfPath` and `app.emit` are host calls. Readings are parameters
  of the builders and emitted objects are their results.
- The lookup paths (`propulsion.<id>.…`) are not modelled. They are listed
  in the documentation of `EngineParameters.Readings`.
- The plugin configuration-schema objects (`title`, `optionKey`,
  `context`, `properties`) are declarative metadata.
- Lines 1-28 of startupscript/signalk/conversions/battery.js are a shell
  installer and pasted terminal prompts, not conversion logic.
- IEEE-754 behaviour is not modelled: all arithmetic is exact over the
  reals, and JavaScript's float results are assumed to match. `Math.PI` is
  its exact double value, but `rad*60/(2*PI)` is computed exactly.
- Printing very large numbers in exponent notation (`1e+21`) is not
  modelled.
- NaN and ±Infinity are not modelled. The caching composer's
  `extractValue` returns them as numbers, stores them in the cache and
  emits records built from them. Here a number is always a finite real.
- Non-numeric values are not modelled in two places:
  - an object whose `.value` is itself a non-number (a string, say), which
    the caching composer stores as-is;
  - a non-null, non-numeric argument to the stateless callback, which
    JavaScript would coerce. Those inputs are either numbers or absent.
- `Battery.Conversions`, `CachedBattery.Conversions`: a battery mapping
  that is present but not an array is not modelled (`.map` would throw). A
  falsy non-null option (`false`, `0`, `""`) behaves like a missing one and
  is represented as absent.
- `secondsToDuration(null)` returns undefined. Every caller checks for
  null first, so only present inputs are modelled.
- The caching composer's `sid` and `remainingCapacity` fields are always
  undefined, so the records do not carry them. The `pgn` property is the
  record's constructor (`Pgn()`).
- `Durations.DurationOpt`: the hours/minutes/seconds split is promised
  only for a non-negative input. For a negative one, the contract names the
  components, the floors of JavaScript's truncating remainders, and these
  do not split the seconds: −1 s gives `PT-1H-1M-1S`. The source has no
  guard, so nothing stronger holds.
- `CachedBattery.ClampTimeRemaining` has no lower bound, because the
  source clamps only from above. A negative time remaining is sent as a
  negative whole number.
