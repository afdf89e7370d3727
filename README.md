# DustyAtmo firmware: message builders, chart scale and reading colours

This project models in Dafny the self-contained logic of the DustyAtmo
monitoring node firmware (`Firmware/src/main.cpp`). The node samples particulate
matter, CO2 and brightness. Each minute it publishes the readings over MQTT and
redraws a trend chart on its display. Three pieces of that sketch are modelled:

- **Line-protocol message builders.** `createInfluxMessage` and
  `createParticleMessage` write an InfluxDB line-protocol record
  (`<topic>,site=<room>[,size=<size>] value=<value>`) into a caller-supplied
  `char` buffer of length `len`. They do this with a chain of `strncpy` calls
  and a running `uint8_t` cursor `pos`. The model is imperative: `StrNCpy` is
  a loop over an `array<char>` with strncpy's copy-then-NUL-pad semantics, and
  each builder calls it the way the source does, with `pos` and the `size_t`
  length `len - pos` computed in explicit fixed-width arithmetic. Each
  builder's postcondition says that the buffer's first `len` characters equal
  one `strncpy` of the whole record, and that nothing at index `len` or above
  is written. So the result does not depend on what the buffer held before,
  which is why the firmware can reuse its one `messageBuffer[50]`. Lemmas
  about `StrNCopy` then give the rest: the record followed by NUL padding, and
  a NUL-terminated string that reads back as the record exactly when the record
  is shorter than `len`.
- **Chart y-axis.** The summed extremes of the three PM channels, the lower
  and upper bounds rounded to multiples of ten, and the five grid-label values.
  All are computed in unsigned 32-bit arithmetic, and each label is cast to
  `uint16_t` at the end.
- **Reading colours.** The `textColorValue` lambda maps a reading to green,
  yellow or red using the warning threshold 10 and the danger threshold 25.

The source has no bound check in the builders. Once `pos` passes `len`, the
promoted `len - pos` is negative and turns into a `size_t` close to 2^32, so
the next `strncpy` writes far past the buffer. The builders therefore
**require** that every `strncpy` start inside the buffer. For a prefix shorter
than 256 characters, which the firmware's literal topics (at most 9 characters)
and its 40-byte `room` guarantee, that holds exactly when everything but the
final value string fits in `len` characters; the `uint8_t` cursor then never
wraps. The value
string itself may be cut short. In that case the buffer is left unterminated,
and the model says so.

Files, one module each:

- `fixed_width.dfy`, module `FixedWidth`: `uint8_t`, `uint16_t` and `uint32_t`
  as subset types, and the modular conversions C applies when storing into
  them. `size_t` is 32 bits wide on the ESP32.
- `c_strings.dfy`, module `CStrings`: C strings as NUL-free character
  sequences (`CString`), one Dafny `char` per byte of the C `char` array, so
  `|room|` is `strlen(room)` and a UTF-8 room name counts in bytes, not code
  points; `strncpy` as a specification function (`StrNCopy`)
  and as an in-place method (`StrNCpy`), and the terminator scan a reader such
  as `mqtt.publish` performs (`ReadCString`).
- `line_protocol.dfy`, module `LineProtocol`: the two records and the two
  builders.
- `chart_scale.dfy`, module `ChartScale`: the bounds, the label formula and the
  grid-label loop.
- `value_color.dfy`, module `ValueColor`: the thresholds and the colour
  classification.

Inputs the firmware gets from elsewhere are parameters of the model:

- the configured room name (the global `room`, filled in from the Wi-Fi
  portal or the config file);
- the decimal text of each value that Arduino's `String(float)`,
  `String(uint16_t)` and `String(float, 1)` produce;
- the minimum and maximum of each PM history, which come from `ValueHistory`.

## Model

| member | source | states |
|---|---|---|
| CStrings.StrNCpy | Firmware/src/main.cpp:482 | strncpy(dst + at, src, n) rewrites exactly dst[at..at+n): it copies src, truncated to n characters when src is that long, pads the rest with NUL, and leaves every other cell unchanged |
| CStrings.StrNCopyShape | Firmware/src/main.cpp:482-491 | a copy that fits is the source followed by NUL up to n; one that does not fit is the source's first n characters, with no NUL among them |
| CStrings.ReadCString | Firmware/src/main.cpp:245 | what a reader of a NUL-terminated buffer sees: a result is a prefix of the buffer followed by a NUL, and no result means the buffer holds no NUL at all |
| CStrings.ReadStrNCopy | Firmware/src/main.cpp:491 | reading back a strncpy'd buffer gives the source string exactly when it is shorter than n; otherwise the buffer is unterminated |
| CStrings.StrNCopyAppend | Firmware/src/main.cpp:482-491 | continuing a copy at the end of prefix a, with n minus the length of a, gives the same n characters as one strncpy of a + b |
| CStrings.StrNCpyExtends | Firmware/src/main.cpp:483-489 | a strncpy at the cursor, with len - pos, extends the written prefix by a segment that fits and leaves everything from len on untouched |
| CStrings.StrNCpyFinishes | Firmware/src/main.cpp:491 | the last strncpy of a chain leaves the first len characters equal to one strncpy of the whole line, whether or not the last segment fits, and everything from len on untouched |
| CStrings.StrNCopyInBuffer | Firmware/src/main.cpp:243-245 | a buffer whose first len characters are a strncpy of a line holds that line followed by NUL padding when it fits, and reads back as the line exactly when it is shorter than len |
| LineProtocol.InfluxLine | Firmware/src/main.cpp:479-492 | the Influx record is topic, ",site=", room, " value=", value text, and its length is the sum of their lengths |
| LineProtocol.ParticleLine | Firmware/src/main.cpp:494-519 | the particle record adds ",size=" and the size text between room and " value=", and its length is the sum of all seven parts |
| LineProtocol.CreateInfluxMessage | Firmware/src/main.cpp:479-492 | when every strncpy starts inside the buffer, the first len characters become one strncpy of the Influx record whatever they held before, and no cell at index len or above is written |
| LineProtocol.CreateParticleMessage | Firmware/src/main.cpp:494-519 | the same for the particle record under the analogous requirement, with ",size=" and the size text counted in the cursor |
| ChartScale.ChannelSum | Firmware/src/main.cpp:544-545 | the uint32_t sum of three uint16_t extremes never wraps: it equals the exact sum, at most 196605 |
| ChartScale.GraphLowerBound | Firmware/src/main.cpp:546 | the lower bound is a multiple of ten with lower <= minVal < lower + 10 |
| ChartScale.GraphUpperBound | Firmware/src/main.cpp:547 | the upper bound is a multiple of ten with maxVal < upper <= maxVal + 10 for every maxVal below 4294967290; above that the 32-bit product wraps to 4 |
| ChartScale.ParticleScale | Firmware/src/main.cpp:544-550 | if each history's minimum is at most its maximum, the bounds enclose the summed extremes, upper - lower >= 10 (so the scale divisor of the bar-height mapping is never zero) and upper <= 196610 |
| ChartScale.YLabel | Firmware/src/main.cpp:592 | the uint16_t cast of a grid label changes nothing while the 32-bit value fits in 16 bits |
| ChartScale.YLabelInRange | Firmware/src/main.cpp:592 | for a range of at least five no step wraps: the label is lower plus (5 - ly) fifths of the range, lies in (lower, upper], and the top label is upper when the range is a multiple of five |
| ChartScale.YLabelDecreasing | Firmware/src/main.cpp:588-594 | labels of lower grid lines are strictly smaller |
| ChartScale.YAxisLabels | Firmware/src/main.cpp:588-594 | the grid loop draws five labels, label ly being the formula's value; for bounds up to 65535 with a range of at least five, they fall strictly and lie in (lower, upper] |
| ChartScale.ParticleAxisLabels | Firmware/src/main.cpp:544-592 | for the particle chart's own bounds every label value before the uint16_t cast lies in (lower, upper] and the top one is exactly the upper bound (their strict order is YLabelDecreasing's) |
| ValueColor.TextColor | Firmware/src/main.cpp:554-568 | red iff the reading is at least 25, yellow iff it is at least 10 and below 25, green iff it is below 10; exactly one holds |
| ValueColor.TextColorMonotone | Firmware/src/main.cpp:554-568 | a higher reading never gets a milder colour |

## Left out

- LineProtocol.CreateInfluxMessage: when the record's prefix before the value text is longer than `len`, the source writes past the buffer. That is undefined behaviour in C, and the model excludes it with its requires instead of modelling it.
- LineProtocol.CreateParticleMessage: the same overrun, for the prefix up to and including " value=", is excluded by its requires.
- LineProtocol.CreateInfluxMessage: its requires also excludes prefixes of 256 characters or more, where the `uint8_t` cursor wraps modulo 256 and later copies may again start inside the buffer; the firmware's topics and `room` never reach that length, and that wrapped behaviour is not modelled.
- LineProtocol.CreateParticleMessage: likewise excludes prefixes of 256 characters or more, where the cursor wraps; that behaviour is not modelled.
- The firmware's own call sites can reach the excluded overrun (a source defect read from the code, not executed). The portal accepts a room of up to 32 characters (main.cpp:426, 467), and the config file copies one of up to 39 (main.cpp:387). With the 50-byte buffer, `createParticleMessage(..., "particles", ..., 10.0)` (main.cpp:276) starts its last copy past the buffer for rooms of 19 characters or more. `createInfluxMessage(..., "pm100_std", ...)` (main.cpp:253) does so from 29 characters. The model states the requirement instead of modelling the overrun.
- The `ValueHistory` ring-buffer class (recording, extremes, hourly and last-hour arrays) is not part of this model. Its source `ValueHistory.h` is not available: only its call sites in `main.cpp` are. Its extremes enter the model as parameters. That each history's minimum is at most its maximum is a requirement of `ChartScale.ParticleScale`, not something proved here.
- The decimal formatting of Arduino's `String(float)`, `String(uint16_t)` and `String(float, 1)` is library code. Its output is an input string here.
- The numeric RGB565 values of `TFT_RED`, `TFT_YELLOW` and `TFT_GREEN` belong to the display library. `ValueColor.Color` keeps the three colours symbolic.
- Drawing is left out: grid-line positions (`lineY`), the x-axis hour legend, `hourBarWidth`, the circles drawn per history slot, and the text layout of the current readings. All of these depend on the display's size and on calls into the display library.
- The float bar-height mapping `particleCountToBarHeight` is left out, because it is floating point. Only its divisor's span being non-zero is proved, in `ChartScale.ParticleScale`.
- MQTT publishing, connection handling and the topic strings built with Arduino `String` concatenation (main.cpp:234-238) are network I/O. What a publish call reads from the buffer is modelled by `CStrings.ReadCString`.
- Sensor drivers (PMS5003, MH-Z19, MAX44009), serial logging, Wi-Fi and mDNS setup, the configuration portal, the LittleFS/JSON configuration load and save, and OTA callbacks are left out as I/O and foreign library calls. This includes the OTA progress percentage, which divides by zero when `total < 100`.
- Loop timing, button polling and restarts (`millis()`, `delayWhileCheckingButtons`, `ESP.restart`) are left out because they depend on hardware time and side effects.
- `Firmware/src/assets/icons.h` holds only bitmap declarations and two size constants, with no logic.
- Strings that contain a NUL before their end cannot arise from the firmware's C strings. `CString` excludes them instead of modelling strncpy stopping early on them.
