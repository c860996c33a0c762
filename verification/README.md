# Samsung AC infrared adapter for ESPHome — a Dafny model

This project models the two pieces of decision logic in an ESPHome firmware
adapter for Samsung split air-conditioners:

- **The climate component** (`SamsungAcIrClimate`, and the earlier
  single-header `SamsungAcClimate`). It advertises its capabilities
  (`traits()`). It merges a sparse `ClimateCall` into the thermostat state
  (`control()`). It translates that state onto the Samsung codec
  (`send_ir_()`, `apply_swing_()`): power from the mode, a 1:1 mode and fan
  mapping with fallbacks, the target temperature rounded with `lroundf` and
  clamped to 16..30, and swing gated by the capability flags. It then sends
  the frame twice with a 120 ms settle delay.
- **The frame sniffer** (`SamsungAcSniffer`). It resolves the capture
  parameters at `setup()`. It polls in `loop()`, with a uint32 wrap-around
  rate limit and an unconditional `resume()`. It renders a decoded frame in
  `log_result_()`, `format_state_hex_()` and `log_state_array_()`.

Everything is pure functions over immutable datatypes. Each operation returns
the new component value together with a trace of what it did.

- The codec (`IRSamsungAc`) is the record `SamsungCodec.SamsungAc`, with the
  fields power, mode, temp, fan, swingV and swingH.
- A transmission is an event carrying a copy of that record. The blocking
  `delay(120)` is an event too.
- `publish_state()`, the "Send IR" log record and the missing-`setSwingH`
  warning are events of `Translate.Event`.
- The sniffer's log output is a sequence of strings. `resume()` is the event
  `Resumed`.

Modules:

| module | file | models |
|---|---|---|
| `Common` | common.dfy | `optional`, uint8/16/32 ranges, wrapping uint32 subtraction |
| `Climate` | climate.dfy | ESPHome's climate modes, fan modes, swing modes, `ClimateCall`, `ClimateTraits` |
| `SamsungCodec` | samsung_codec.dfy | the codec record and the send-twice transmission |
| `Translate` | translate.dfy | what both climate components share: `lroundf`, clamping, mode and fan mapping, events |
| `SamsungAcIr` | samsung_ac_ir.dfy | `components/samsung_ac_ir/samsung_ac_ir.cpp` |
| `LegacyClimate` | legacy_climate.dfy | `samsung_ac_climate.h` |
| `Text` | text.dfy | `%02X`, `%u`/`std::to_string`, array entries, each with a parser that reads it back |
| `Sniffer` | sniffer.dfy | `components/samsung_ac_sniffer/samsung_ac_sniffer.cpp` |

Parameters standing for things outside the model:

- `codecHasSwingH` stands for the compile-time probe that detects whether
  `IRSamsungAc::setSwingH` exists.
- `LibraryBuild` stands for the receiver library's build constants.
  `kCaptureBufferSize`, `kRawBuf` and `kTimeoutDefault` are each `None` when
  the library does not define them as preprocessor macros; the `#if defined`
  chain then falls through to 1024 and 50. `kStateSizeMax` is a plain number.
- `now` stands for `millis()`.
- `Capture` stands for a decoded frame. The library supplies its protocol
  name, bit count, state array, description and replay source text.

Points where the code's behaviour is easy to misread, as the model has it:

- **Change detection.** `control()` detects change by *presence*, not by
  *value*. Any present field triggers a transmission and a publication, even
  when it equals the current value. So repeating a request transmits again
  (`SamsungAcIr.RepeatedRequestTransmitsAgain`). An empty request never
  transmits.
- **Cool fallback.** The Cool fallback for an unknown mode is reachable at
  `control()`'s interface. ESPHome's `ClimateMode` has `HEAT_COOL`, which this
  component neither advertises nor maps, so it is modelled as `ModeHeatCool`.
  Likewise ESPHome's extra fan modes (ON, OFF, MIDDLE, FOCUS, DIFFUSE, QUIET)
  reach the FanAuto fallback at that interface. Whether the host ever passes
  such a mode in is the host's business and is not modelled.
- **Swing defaults.** The swing flags default to true in the class, but to
  false in the configuration schema. Generated code always calls both
  setters, so an unconfigured device advertises only OFF and never drives the
  louvers (`SamsungAcIr.SchemaDefaultsDisableSwing`).
- **Hex gating.** The hex line is gated on the shown byte count
  `min(ceil(bits/8), kStateSizeMax)` being positive, not on `bits > 0`. The
  cap is `kStateSizeMax`, a parameter here, not a fixed 21.
- **Rounding.** `lroundf` rounds halfway cases away from zero (section
  7.12.9.7 of ISO C99), so 21.5 is sent as 22 and -0.5 as -1 before clamping.

## Model

| member | source | states |
|---|---|---|
| `SamsungAcIr.Setup` | components/samsung_ac_ir/samsung_ac_ir.cpp:17-34 | setup starts from mode OFF, a target of exactly 24.0 (sent as 24), fan HIGH, swing BOTH, power off; it publishes once and transmits nothing |
| `SamsungAcIr.Traits` | components/samsung_ac_ir/samsung_ac_ir.cpp:36-73 | range 16..30, step 1; the six modes and four fan modes; OFF always advertised; VERTICAL iff the vertical flag, HORIZONTAL iff the horizontal flag, BOTH iff both flags |
| `SamsungAcIr.AdvertisedSwingIffAxesSupported` | components/samsung_ac_ir/samsung_ac_ir.cpp:62-70 | a swing mode is advertised exactly when every axis it asks for is enabled, so traits and actuation follow one policy |
| `SamsungAcIr.ApplySwing` | components/samsung_ac_ir/samsung_ac_ir.cpp:101-122 | vertical is set to "VERTICAL or BOTH" only with the vertical flag, else untouched; horizontal is set to "HORIZONTAL or BOTH" only with the horizontal flag and a codec that has setSwingH, else untouched; the warning is raised iff horizontal is enabled, the codec lacks setSwingH and horizontal is asked for; power, mode, temp and fan are untouched |
| `SamsungAcIr.SendIr` | components/samsung_ac_ir/samsung_ac_ir.cpp:124-191 | power is "mode is not OFF"; with mode OFF the codec mode is kept; on-modes read back 1:1, HEAT_COOL becomes Cool; temp is the rounded, clamped target, always in 16..30; fan mapped with Auto default; swing gated; the trace is [warning?] + log record (same temp as sent) + Transmit(f), Pause(120), Transmit(f); exactly the final frame, twice |
| `SamsungAcIr.Merge` | components/samsung_ac_ir/samsung_ac_ir.cpp:76-93 | each present request field replaces its state field; each absent one keeps it |
| `SamsungAcIr.Control` | components/samsung_ac_ir/samsung_ac_ir.cpp:75-99 | an empty request changes nothing and emits nothing; any present field yields the merged state and a trace that is exactly the send of it ([warning?], log record, Transmit(f), Pause(120), Transmit(f)) followed by one publication |
| `SamsungAcIr.AbsentFieldsUnchanged` | components/samsung_ac_ir/samsung_ac_ir.cpp:78-93 | control never changes a state field its request leaves out |
| `SamsungAcIr.RepeatedRequestTransmitsAgain` | components/samsung_ac_ir/samsung_ac_ir.cpp:75-99 | repeating a non-empty request leaves the component as the first call did, and still transmits the same frame twice |
| `SamsungAcIr.SendIrIdempotent` | components/samsung_ac_ir/samsung_ac_ir.cpp:124-178 | sending the same state twice leaves the codec and component where the first send left them |
| `SamsungAcIr.FullCapabilitySwingRoundTrip` | components/samsung_ac_ir/samsung_ac_ir.cpp:101-115 | with both flags and a codec with setSwingH, the codec's two swing flags decode back to the requested swing mode |
| `SamsungAcIr.HorizontalDisabledActuatesVerticalOnly` | components/samsung_ac_ir/samsung_ac_ir.cpp:104-113 | with only vertical swing enabled, BOTH turns vertical swing on, leaves horizontal untouched and warns nothing |
| `SamsungAcIr.MissingSwingHWarns` | components/samsung_ac_ir/samsung_ac_ir.cpp:113-121 | horizontal enabled, asked for, codec without setSwingH: the warning comes first, horizontal is untouched, the frame is still sent twice |
| `SamsungAcIr.SchemaDefaultsDisableSwing` | components/samsung_ac_ir/climate.py:27-28 | with the schema defaults (both flags false) the advertised swing set is exactly {OFF} and neither swing flag of the codec is ever written |
| `SamsungAcIr.FirstCoolAfterSetup` | components/samsung_ac_ir/samsung_ac_ir.cpp:24-28 | after setup, a request for COOL alone sends power on, Cool, 24, fan high and, with a codec that has setSwingH, each enabled swing axis on |
| `Translate.LRound` | components/samsung_ac_ir/samsung_ac_ir.cpp:154 | the result is within one half of the target, with halfway cases going away from zero |
| `Translate.LRoundIsNearest` | components/samsung_ac_ir/samsung_ac_ir.cpp:154 | no integer is closer to the target than the rounded value |
| `Translate.ClampTemperature` | components/samsung_ac_ir/samsung_ac_ir.cpp:155-156 | the result lies in 16..30 and is the point of that range nearest the input |
| `Translate.SentTemperature` | components/samsung_ac_ir/samsung_ac_ir.cpp:154-157 | the sent temperature lies in 16..30 and equals the rounded target whenever that is in range |
| `Translate.SentTemperatureKeepsValidTargets` | components/samsung_ac_ir/samsung_ac_ir.cpp:154-157 | a whole-degree target in 16..30 is sent unchanged |
| `Translate.SentTemperatureMonotone` | components/samsung_ac_ir/samsung_ac_ir.cpp:154-157 | a higher target is never sent as a lower temperature |
| `Translate.SentTemperatureExamples` | components/samsung_ac_ir/samsung_ac_ir.cpp:154-157 | 35 is sent as 30, 10.4 as 16, 21.5 as 22, 23.49 as 23, -0.5 as 16 |
| `Translate.SamsungModeOf` | components/samsung_ac_ir/samsung_ac_ir.cpp:131-150 | COOL, HEAT, DRY, FAN_ONLY and AUTO read back from their Samsung mode unchanged; any other mode maps to Cool |
| `Translate.SamsungModeOfIsOnto` | components/samsung_ac_ir/samsung_ac_ir.cpp:131-146 | every Samsung mode is the image of exactly the on-mode it reads back as |
| `Translate.SamsungFanOf` | components/samsung_ac_ir/samsung_ac_ir.cpp:160-175 | unset counts as AUTO; LOW, MEDIUM and HIGH read back from their Samsung speed unchanged; any other fan mode maps to FanAuto |
| `Translate.SendTwiceFrames` | components/samsung_ac_ir/samsung_ac_ir.cpp:187-190 | the send-twice sequence transmits exactly the given frame twice and nothing else |
| `Climate.SwingOfAxes` | components/samsung_ac_ir/samsung_ac_ir.cpp:104-105 | the swing mode built from two axes asks for exactly those axes, the inverse of the vertical/horizontal decomposition |
| `LegacyClimate.Setup` | samsung_ac_climate.h:17-28 | setup starts from OFF, a target of exactly 24.0 (sent as 24), fan HIGH, swing BOTH, and publishes once |
| `LegacyClimate.SetupMatchesActive` | samsung_ac_climate.h:22-27 | the legacy setup state is the active component's initial state, with swing BOTH held as a present value |
| `LegacyClimate.Traits` | samsung_ac_climate.h:30-63 | range 16..30, step 1; the six modes and four fan modes; all four swing modes advertised unconditionally |
| `LegacyClimate.TraitsMatchActiveWithAllSwing` | samsung_ac_climate.h:55-60 | the legacy descriptor equals the active component's descriptor with both swing flags set |
| `LegacyClimate.SendIr` | samsung_ac_climate.h:92-141 | power is "mode is not OFF"; with mode OFF the codec mode is kept; on-modes read back 1:1, others become Cool; temp rounded and clamped to 16..30; fan with Auto default; vertical swing is "VERTICAL or BOTH" with unset meaning OFF; horizontal never written; trace is log + Transmit(f), Pause(120), Transmit(f) |
| `LegacyClimate.Merge` | samsung_ac_climate.h:66-83 | each present request field replaces its state field; each absent one keeps it |
| `LegacyClimate.Control` | samsung_ac_climate.h:65-89 | an empty request changes nothing; any present field yields the merged state and a trace that is exactly the send of it (log record, Transmit(f), Pause(120), Transmit(f)) followed by one publication |
| `LegacyClimate.AbsentFieldsUnchanged` | samsung_ac_climate.h:68-83 | control never changes a state field its request leaves out |
| `LegacyClimate.AgreesWithActiveVerticalOnly` | samsung_ac_climate.h:126-131 | the legacy frame is the active component's frame with vertical-only swing and unset swing read as OFF, whatever the codec offers |
| `Common.Sub32` | components/samsung_ac_sniffer/samsung_ac_sniffer.cpp:49 | uint32 subtraction: the result plus the subtrahend is the minuend modulo 2^32 |
| `Sniffer.Init` | components/samsung_ac_sniffer/samsung_ac_sniffer.h:38-49 | a new sniffer has no receiver and a last report time of 0 |
| `Sniffer.ResolveBufferSize` | components/samsung_ac_sniffer/samsung_ac_sniffer.cpp:11-19 | a positive override is used as the buffer size, otherwise the library's (kCaptureBufferSize, else kRawBuf, else 1024) |
| `Sniffer.ResolveTimeout` | components/samsung_ac_sniffer/samsung_ac_sniffer.cpp:21-29 | a positive override, otherwise the library default (or 50), then clamped so at most 255 reaches the receiver |
| `Sniffer.Setup` | components/samsung_ac_sniffer/samsung_ac_sniffer.cpp:8-39 | the receiver gets the pin, resolved buffer size and timeout, and saves its buffer; tolerance and unknown threshold are applied iff their overrides are positive; input is enabled; one log line names the pin |
| `Sniffer.SchemaTimeoutsPassThrough` | components/samsung_ac_sniffer/sniffer.py:28 | every timeout the schema accepts (1..255) reaches the receiver unchanged |
| `Sniffer.OverridesIgnoreLibrary` | components/samsung_ac_sniffer/samsung_ac_sniffer.cpp:11-35 | with buffer and timeout overridden, setup does not depend on the library build |
| `Sniffer.DefaultsComeFromLibrary` | components/samsung_ac_sniffer/samsung_ac_sniffer.cpp:11-35 | without overrides the receiver gets the library's buffer size and timeout (clamped) and no tolerance or threshold call |
| `Sniffer.ByteCount` | components/samsung_ac_sniffer/samsung_ac_sniffer.cpp:61-64 | the shown byte count is at most kStateSizeMax, covers all bits unless capped, and has no spare byte: min(ceil(bits/8), kStateSizeMax) |
| `Sniffer.ByteCountExamples` | components/samsung_ac_sniffer/samsung_ac_sniffer.cpp:61-64 | with a 21-byte array: 128 bits show 16 bytes, 169 bits are cut to 21, 0 bits show none, 1 bit shows one |
| `Sniffer.FormatStateHex` | components/samsung_ac_sniffer/samsung_ac_sniffer.cpp:92-104 | empty for n = 0 or n above kStateSizeMax; otherwise 2n characters, only 0-9A-F, and it decodes back to the first n state bytes |
| `Sniffer.StateArrayLine` | components/samsung_ac_sniffer/samsung_ac_sniffer.cpp:106-125 | no line for n = 0 or n above kStateSizeMax; otherwise "uint8_t state[" count "] = {" entries "};" where the count reads back as n and the entries read back as exactly the first n state bytes |
| `Sniffer.LogResult` | components/samsung_ac_sniffer/samsung_ac_sniffer.cpp:57-90 | the protocol line always comes first; code and array lines appear iff bytes are shown (the array also needs dump_state); the code line carries the untruncated bit count; description and replay lines appear iff enabled and non-empty; the line count follows |
| `Sniffer.Loop` | components/samsung_ac_sniffer/samsung_ac_sniffer.cpp:41-55 | no receiver or no decode: nothing changes, nothing is emitted; otherwise exactly one resume, last; a report and last-report := now iff (now - last) mod 2^32 reaches the rate limit, else last-report is unchanged and only the resume happens |
| `Sniffer.EveryCaptureReleased` | components/samsung_ac_sniffer/samsung_ac_sniffer.cpp:45-54 | over any run of polls after setup, the number of resumes equals the number of decoded frames |
| `Sniffer.NothingBeforeSetup` | components/samsung_ac_sniffer/samsung_ac_sniffer.cpp:42-43 | before setup, any run of polls emits nothing and changes nothing |
| `Sniffer.EarlyCaptureSuppressed` | components/samsung_ac_sniffer/samsung_ac_sniffer.cpp:48-52 | since the last report time starts at 0, a frame at a time below the rate limit is only resumed, not reported |
| `Sniffer.RateLimitScenario` | components/samsung_ac_sniffer/samsung_ac_sniffer.cpp:48-52 | with a 500 ms limit: reported at t0, suppressed at t0+10, reported again at t0+600 |
| `Sniffer.RateLimitAcrossClockWrap` | components/samsung_ac_sniffer/samsung_ac_sniffer.cpp:48-49 | elapsed time is measured across a wrap of the 32-bit millisecond clock |
| `Sniffer.ReportViewsAgree` | components/samsung_ac_sniffer/samsung_ac_sniffer.cpp:66-74 | the hex code decodes to the first n state bytes, and the array line's count reads back as n and its entries read back as exactly the bytes the hex decodes to |
| `Text.HexString` | components/samsung_ac_sniffer/samsung_ac_sniffer.cpp:96-103 | two characters per byte, all from 0-9A-F |
| `Text.HexStringRoundTrip` | components/samsung_ac_sniffer/samsung_ac_sniffer.cpp:98-102 | the uppercase hex rendering of any bytes decodes back to them |
| `Text.Hex2RoundTrip` | components/samsung_ac_sniffer/samsung_ac_sniffer.cpp:100 | a `%02X` byte reads back as that byte |
| `Text.NatToString` | components/samsung_ac_sniffer/samsung_ac_sniffer.cpp:112 | a non-empty string of decimal digits with no leading zero |
| `Text.NatToStringRoundTrip` | components/samsung_ac_sniffer/samsung_ac_sniffer.cpp:112 | the decimal rendering reads back as the number |
| `Text.ArrayEntries` | components/samsung_ac_sniffer/samsung_ac_sniffer.cpp:115-121 | empty for no bytes, otherwise 6n-2 characters: n four-character entries with n-1 separators |
| `Text.ArrayEntriesRoundTrip` | components/samsung_ac_sniffer/samsung_ac_sniffer.cpp:115-121 | the ", "-separated `0x%02X` entries read back as exactly the bytes, one entry per byte |

## Left out

- The IRremoteESP8266 library: `IRSamsungAc`'s bit protocol, its own range checks in `setTemp`, pulse timing, `IRsend`, and `IRrecv::decode`. The codec is a record, and a decoded frame is an input.
- Every codec setter (`setPower`, `setMode`, `setTemp`, `setFan`, `setSwing`, `setSwingH`) is taken as a plain write to its own independent field of that record. So what `SamsungAcIr.SendIr` and `LegacyClimate.SendIr` state about mode, fan and swing are facts about the codec's command record, not about the bits of the transmitted frame.
- ESPHome's own `ClimateCall` validation, which runs in the host before `control()` and may drop modes the traits do not advertise, is not modelled. `control()` is modelled for every request it can be handed.
- `typeToString`, `IRAcUtils::resultAcToString` and `resultToSourceCode` are library text generators. Their output is an input string; an empty string is what the sniffer skips.
- The numeric values of the Samsung mode and fan constants are not in the component's code, so they are enumerations here.
- `target_temperature` is a C `float`; here it is a `real`. Float rounding, NaN and `lroundf` results outside `int` are not modelled.
- GPIO, `IRsend::begin`/`IRSamsungAc::begin`, `delay()` and `millis()` are hardware and time. The delay is an event and the clock reading is an input.
- The text of the climate "Send IR" log line is not modelled. It is a structured record of the values it prints, including the temperature actually sent.
- The compile-time `setSwingH` probe is not modelled; it is the boolean `codecHasSwingH`.
- Heap allocation of the receiver is not modelled. A second `setup()` replaces the receiver, while the firmware leaks the old one.
- The Python configuration schemas are glue. Only their defaults and ranges are used, and a value that does not fit the setter's integer width is not modelled.
- `LibraryBuild` types `kCaptureBufferSize`, `kRawBuf` and `kTimeoutDefault` as `uint16`. This leaves out the implicit narrowing in `uint16_t bufsize = kCaptureBufferSize;` and `uint16_t timeout = kTimeoutDefault;` that a wider library constant would undergo.
- ESP log levels and tags are not part of the modelled log lines, and the climate component's "Initialized on GPIO" setup line is not modelled (it only reports the pin).
