# ohm-led in Dafny

A model of the ohm-led firmware: an ESP8266 drives an addressable LED
strip and is controlled over HTTP and by one push button. The model
covers:

- the animation state and its JSON update protocol: partial patches,
  name validation and an optimistic-concurrency revision check;
- the button-driven mode cycle;
- the triangle wave `easeTime` folds time into;
- the per-frame work of the animation loop: the frame-rate throttle, the
  mode dispatch, the knight-rider and balls pixel writes, and the fire
  heat simulation on its persistent byte array;
- the reset button's state machine;
- the configuration kept in EEPROM behind a magic number;
- the two HTTP handlers that change the device: the configuration form
  and `PUT /v1/state/`.

Each module follows one part of the firmware:

| file | module | models |
|---|---|---|
| `types.dfy` | `Types` | fixed-width integers, C's truncating division, modular helper lemmas |
| `names.dfy` | `Names` | the mode and easing enums and their name tables (`state.cpp`, `state.h`) |
| `state.dfy` | `StateMachine` | `State`, `fromJsonDocument`, `toJsonDocument`, `cycle` |
| `ease.dfy` | `Ease` | `easeTime`: the 32-bit wrap, the fold, the normalisation |
| `config.dfy` | `ConfigStore` | `Config`, `Load`, `Save`, `Clear`, `hasName`, `hasSSID` |
| `pixels.dfy` | `Pixels` | colours and the knight-rider and balls frames |
| `heat.dfy` | `Heat` | the fire simulation, one step on a sequence of cells |
| `render.dfy` | `Render` | `leds[]`, `heat[]`, `ballsInfo`, the animations and `stateLoop` |
| `reset.dfy` | `Reset` | `blinkWithPeriod` and `resetLoop` |
| `web.dfy` | `Web` | `handleSetConfiguration`, `handleSetState` and the replies they send |

State that the firmware updates in place is a class, and its methods are
proved against functions on values:

- `State`, `Config` and the EEPROM are classes;
- the LED buffer and the heat cells are arrays of the renderer;
- the static `pressedTime` belongs to `ResetMonitor`.

Inputs the firmware reads from outside enter as parameters:

- the clock and the random draws are `FrameInputs`, and `now` for the
  button;
- the easing curves are a `Shape`;
- the LED library's colour operations are a `Palette`;
- `atoi` and the JSON parser are function parameters.

Pin writes come back as results. So does the decision to restart.

The mode enum follows the order of the name table: Off, On, Pulse,
Colorloop, Rainbow, Balls, KnightRider, Fire, then Count. The header
declares no `StateMode_Colorloop`, yet `state.cpp` uses it.

## Model

| member | source | states |
|---|---|---|
| `Names.Ordinal` | ohm-led/state.h:9-19 | mode values run 0..7 and `Count` is 8, one past the last; the cast back yields the same mode |
| `Names.EasingOrdinal` | ohm-led/state.cpp:25-45 | the nineteen easings have consecutive positions and `EaseCount` is the one past the last |
| `Names.ModeTableShape` | ohm-led/state.cpp:14-23 | the mode table lists the eight modes in enum order, with no name repeated |
| `Names.EasingTableShape` | ohm-led/state.cpp:25-45 | the easing table lists every real easing at its position, with no name repeated |
| `Names.EasingNamesDistinct` | ohm-led/state.cpp:25-45 | no two easing entries share a name |
| `Names.KeyOfAt` | ohm-led/state.cpp:47-58 | a scan by name finds an entry whose name no earlier entry carries |
| `Names.NameOfAt` | ohm-led/state.cpp:60-71 | a lookup by key finds an entry whose key no earlier entry carries |
| `Names.NameOfMissing` | ohm-led/state.cpp:60-71 | a lookup by a key that no entry carries yields the fallback |
| `Names.KeyOfFound` | ohm-led/state.cpp:47-58 | a scan yields the sentinel exactly when no entry has the name; otherwise it yields the key of an entry with that name |
| `Names.ModeToStringAt` | ohm-led/state.cpp:60-71 | `modeToString` of a real mode is its table name |
| `Names.ModeNameRoundTrip` | ohm-led/state.cpp:47-71 | `modeFromString(modeToString(m)) == m` for every real mode |
| `Names.ModeFromStringSpec` | ohm-led/state.cpp:47-58 | `modeFromString` returns `Count` exactly when no entry has that name; a mode it finds is written back as the same string |
| `Names.ModeToStringIsName` | ohm-led/state.cpp:60-71 | what `modeToString` returns, "off" for the sentinel included, reads back as a real mode |
| `Names.EasingToStringAt` | ohm-led/state.cpp:86-97 | `easingToString` of a real easing is its table name |
| `Names.EasingNameRoundTrip` | ohm-led/state.cpp:73-97 | `easingFromString(easingToString(e)) == e` for every real easing |
| `Names.EasingFromStringSpec` | ohm-led/state.cpp:73-84 | `easingFromString` returns `EaseCount` exactly when no entry has that name; an easing it finds is written back as the same string |
| `Names.EasingToStringIsName` | ohm-led/state.cpp:86-97 | what `easingToString` returns, "linear" for the sentinel included, reads back as a real easing |
| `Types.Inc64` | ohm-led/state.cpp:132 | `revision++` on a `uint64_t` adds one and wraps to 0 at 2^64 |
| `Types.CDiv` | ohm-led/reset.cpp:16 | C integer division truncates toward zero |
| `Types.ModSucc` | ohm-led/state.cpp:155-167 | the successor modulo `d` is the next residue, or 0 when that residue reaches `d` |
| `StateMachine.ClampBalls` | ohm-led/state.cpp:128 | the result lies in [1, 10]; a count inside the range is kept; one below or above goes to the nearer bound |
| `StateMachine.RequestedMode` | ohm-led/state.cpp:101 | the requested mode is `Count` exactly when the document names an unknown mode; an absent key keeps the current mode; a known name is the mode written as that name |
| `StateMachine.RequestedEasing` | ohm-led/state.cpp:102 | the same for the easing, with `EaseCount` |
| `StateMachine.Update` | ohm-led/state.cpp:99-137 | InvalidInput exactly when a name is unknown, which is checked before the revision. Otherwise OutdatedInput exactly when a revision is given and differs. Every rejection leaves the state unchanged. Success leaves a well-formed state |
| `StateMachine.UpdateOnSuccess` | ohm-led/state.cpp:121-132 | on success every key present is taken, with `num_balls` clamped to [1, 10]; every absent key keeps its value; the revision goes up by one |
| `StateMachine.UpdateSucceedsIff` | ohm-led/state.cpp:105-119 | an update succeeds exactly when both names are known and the revision is absent or current |
| `StateMachine.ToJsonRoundTrip` | ohm-led/state.cpp:139-153 | feeding `toJsonDocument`'s output back to `fromJsonDocument` succeeds and changes only the revision, by +1 |
| `StateMachine.NextMode` | ohm-led/state.cpp:157-162 | the next mode is `mode + 1`, or `Off` once that reaches `Count`; it is never `Count` |
| `StateMachine.CycledTimesMode` | ohm-led/state.cpp:155-167 | after `n` cycles from a real mode, the mode is `n` further along, modulo the 8 modes |
| `StateMachine.CycledTimesRevision` | ohm-led/state.cpp:164 | after `n` cycles the revision is `n` further along, modulo 2^64; no field but the mode and the revision changes |
| `StateMachine.CycleCountRestores` | ohm-led/state.cpp:155-167 | eight cycles restore the mode and advance the revision by eight |
| `StateMachine.StaleRepeatRejected` | ohm-led/state.cpp:99-137 | from the initial state, `{"mode":"on","revision":0}` succeeds, giving mode On at revision 1; the identical request sent again is OutdatedInput |
| `StateMachine.State.constructor` | ohm-led/state.h:37-46 | a fresh state: revision 0, mode Off, hue 0, saturation 0, value 255, easing InOutQuad, period 5000, 1 ball, cooling 40, sparking 80 |
| `StateMachine.State.FromJsonDocument` | ohm-led/state.cpp:99-137 | the in-place update gives the result `Update` gives and leaves the state `Update` gives; on rejection no field changes |
| `StateMachine.State.ToJsonDocument` | ohm-led/state.cpp:139-153 | every field under its key with enums by name; a well-formed state's document is accepted as an update |
| `StateMachine.State.Cycle` | ohm-led/state.cpp:155-167 | the mode advances with wrap-around, the revision goes up by one, and well-formedness is kept |
| `Ease.WrappedTime` | ohm-led/state.cpp:197-202 | the folded time lies in [0, period] |
| `Ease.DoubledPeriod` | ohm-led/state.cpp:192-197 | the 32-bit `period * 2` is 0 exactly for period 0 and for 0x80000000, which passes the `period <= 0` guard; it is `2 * period` up to 0x7FFFFFFF |
| `Ease.WrappedTimeWide` | ohm-led/state.cpp:197-202 | with `period * 2` computed without wrapping, the folded time lies in [0, period] for every positive period |
| `Ease.WrappedTimeWideAgrees` | ohm-led/state.cpp:197-202 | up to 0x7FFFFFFF the firmware's 32-bit fold equals the unwrapped one |
| `Ease.WrappedTimeWidePeriodic` | ohm-led/state.cpp:197-202 | the unwrapped fold repeats every two periods for every positive period, 0x80000000 and longer periods included |
| `Ease.WrappedTimeWideMirror` | ohm-led/state.cpp:197-202 | the unwrapped fold at `2 * period - t` equals the fold at `t`, for every positive period |
| `Ease.WrappedTimeLongPeriod` | ohm-led/state.cpp:197 | above 0x7FFFFFFF the 32-bit `period * 2` wraps, so time is taken modulo `2 * period - 2^32` and never folds back |
| `Ease.WrappedTimeRising` | ohm-led/state.cpp:197-202 | during the first period the folded time is the time itself |
| `Ease.WrappedTimePeriodic` | ohm-led/state.cpp:197-202 | the folded time repeats every two periods |
| `Ease.WrappedTimeMirror` | ohm-led/state.cpp:197-202 | the folded time at `2 * period - t` equals the folded time at `t` |
| `Ease.EaseTimePeriodic` | ohm-led/state.cpp:190-202 | `easeTime` repeats every two periods, for any curve, a zero period included |
| `Ease.EaseTimeMirror` | ohm-led/state.cpp:190-202 | `easeTime` is a palindrome over each double period |
| `Ease.EaseTimeWithin` | ohm-led/state.cpp:190-202 | `easeTime` stays inside any bounds that hold 0, the value for a zero period, and every value the curve takes on [0, period] |
| `Ease.Round` | ohm-led/state.cpp:207 | `round` is within half a unit of its argument |
| `Ease.RoundNonNegative` | ohm-led/state.cpp:207 | rounding a non-negative number gives a non-negative integer |
| `Ease.RoundWithin` | ohm-led/state.cpp:207 | a fraction in [0, 1] scaled by `mult` and rounded lies in [0, mult] |
| `Ease.NormalizedAsWrittenOvershoots` | ohm-led/state.cpp:199-204 | the fold reaches `ts == period`, and there `ts / (period - 1)` exceeds 1 |
| `Ease.Normalized` | ohm-led/state.cpp:204 | the corrected `ts / period` lies in [0, 1], with 0 at the start and 1 at the peak |
| `Ease.CurveWithin` | ohm-led/state.cpp:204-207 | with the corrected normalisation, a curve that maps [0, 1] into [0, 1] gives values in [0, mult] |
| `Ease.CurveAsWrittenOvershoots` | ohm-led/state.cpp:204-207 | as written, the linear curve with period 2 and multiplier 15 gives 30 at the peak; corrected, it gives 15 |
| `ConfigStore.StrnLen` | ohm-led/config.h:48-56 | `strnlen` looks at no more than `n` characters, finds no NUL before its result, and stops at a NUL when it stops early |
| `ConfigStore.CString` | ohm-led/web.cpp:73-75 | the text of a buffer is a NUL-free prefix, followed by a NUL when shorter than the buffer |
| `ConfigStore.StrnLenTerminated` | ohm-led/web.cpp:73-75 | a NUL after NUL-free text ends the string there |
| `ConfigStore.CStringTerminated` | ohm-led/web.cpp:73-75 | text written with its NUL reads back as itself, whatever follows |
| `ConfigStore.Padded` | ohm-led/config.h:41-43 | a buffer initialiser: the text, then NULs up to the buffer size |
| `ConfigStore.Record.HasName` | ohm-led/config.h:48-51 | `hasName` holds exactly when the name buffer does not start with NUL |
| `ConfigStore.Record.HasSsid` | ohm-led/config.h:53-56 | `hasSSID` holds exactly when the SSID buffer does not start with NUL |
| `ConfigStore.Repaired` | ohm-led/config.cpp:25-38 | zero `num_leds` and `http_port` and a non-positive `fps` are replaced by the defaults 16, 80 and 120; every other field is kept |
| `ConfigStore.DefaultsShape` | ohm-led/config.h:19-22 | the defaults have buffers of 32, 64 and 64, the name "ohm-led", no SSID, magic 0 so not valid, and are usable |
| `ConfigStore.LoadedSpec` | ohm-led/config.cpp:10-41 | after `Load` the image is usable; a valid stored image is kept, apart from the zero repairs; an invalid one is replaced by the defaults |
| `ConfigStore.SaveThenLoad` | ohm-led/config.cpp:43-54 | a saved usable configuration loads back valid and unchanged |
| `ConfigStore.ClearThenLoad` | ohm-led/config.cpp:56-71 | after `Clear` the image is invalid, `Load` yields the defaults, and there is no SSID |
| `ConfigStore.Config.constructor` | ohm-led/config.h:24 | a fresh configuration holds the defaults and is not valid |
| `ConfigStore.Config.Load` | ohm-led/config.cpp:10-41 | returns whether the stored image is valid and leaves the repaired image, which is usable |
| `ConfigStore.Config.Save` | ohm-led/config.cpp:43-54 | stamps the magic number, writes the whole image, changes nothing else and returns true |
| `ConfigStore.Config.Clear` | ohm-led/config.cpp:56-71 | zeroes the stored image, clears the magic in RAM, keeps the other fields and returns true |
| `Pixels.Byte` | ohm-led/state.cpp:215 | an `int` passed as an 8-bit value is taken modulo 256 |
| `Pixels.Solid` | ohm-led/state.cpp:260 | `fill_solid` and `showColor`: every LED shows the colour |
| `Pixels.KnightRiderOneLit` | ohm-led/state.cpp:283-293 | at most one LED is lit; one is lit exactly when the position is on the strip, and it shows the state's colour |
| `Pixels.BallsFrameDark` | ohm-led/state.cpp:260-274 | an LED that no ball sits on stays black |
| `Pixels.BallsFrameDistinct` | ohm-led/state.cpp:262-274 | when no two balls share an LED, each ball's LED shows that ball's colour |
| `Heat.QSub8` | ohm-led/state.cpp:306 | saturating subtraction: never above `a`, and 0 when `b > a` |
| `Heat.QAdd8` | ohm-led/state.cpp:319 | saturating addition: at least either operand, and 255 on overflow |
| `Heat.Cooled` | ohm-led/state.cpp:303-307 | no cell of the strip heats up; a cell whose draw is at least its heat goes to 0; cells past the strip are unchanged |
| `Heat.Drift` | ohm-led/state.cpp:312 | `(h[k-1] + 2*h[k-2]) / 3` lies between the two cells it reads |
| `Heat.Diffused` | ohm-led/state.cpp:309-313 | cells 2 up to the strip end take values between their two lower cells, from pre-step values; cells 0, 1 and those past the strip are untouched |
| `Heat.Sparked` | ohm-led/state.cpp:315-320 | without a spark nothing changes; with one, only the chosen cell changes, rising with saturation at 255 |
| `Heat.FireStepKeepsTail` | ohm-led/state.cpp:298-320 | a step never changes a cell past both the strip and the spark cells |
| `Heat.FireStepNoSparkBounded` | ohm-led/state.cpp:303-313 | without a spark no cell ends hotter than the hottest cell was |
| `Heat.FireStepColdStaysCold` | ohm-led/state.cpp:298-320 | a cold strip with no spark stays cold |
| `Render.InitialBalls` | ohm-led/state.cpp:240-254 | `initializeBalls` makes ten balls; ball `i` has hue `i * 255 / 10` at the current saturation and value |
| `Render.BallPosition` | ohm-led/state.cpp:264 | the eased position lies on the strip whenever the curve stays on it |
| `Render.CorrectedShapeKeepsBallsOnStrip` | ohm-led/state.cpp:204-207 | with the corrected normalisation, curves that map [0, 1] into [0, 1] keep every ball on the strip |
| `Render.ShapeAsWrittenLeavesStrip` | ohm-led/state.cpp:264-266 | as written, period 2 and the linear curve on 16 LEDs put a ball at LED 30 |
| `Render.DueIff` | ohm-led/state.cpp:341-347 | a frame is due once `1000 / fps` milliseconds have passed: 8 ms at the default 120 fps |
| `Render.Frame` | ohm-led/state.cpp:352-381 | the frame of every mode, an unrecognised one included, has exactly one colour per LED of the strip; only the four modes that call `easeTime` need a period other than 0x80000000 |
| `Render.Renderer.constructor` | ohm-led/state.cpp:182 | a black 128-LED buffer, cold cells, no balls yet, and the frame clock started |
| `Render.Renderer.FillSolid` | ohm-led/state.cpp:260 | the strip's LEDs take the colour; LEDs past the strip are untouched |
| `Render.Renderer.FadeToBlackBy` | ohm-led/state.cpp:215 | each of the strip's LEDs is faded from its previous colour |
| `Render.Renderer.RenderPulse` | ohm-led/state.cpp:210-218 | the strip shows the state's colour faded by the eased level, taken modulo 256 |
| `Render.Renderer.RenderColorloop` | ohm-led/state.cpp:220-225 | the strip shows the eased hue at the state's saturation and value |
| `Render.Renderer.RenderRainbow` | ohm-led/state.cpp:227-232 | the strip shows `fill_rainbow` from hue 0 with step `255 / num_leds` |
| `Render.Renderer.RenderKnightRider` | ohm-led/state.cpp:279-296 | the strip shows the state's colour at the eased position and black elsewhere |
| `Render.Renderer.RenderBalls` | ohm-led/state.cpp:256-277 | the ball table is drawn on first use and kept afterwards; the strip shows the balls frame of the active balls |
| `Render.Renderer.PaintBalls` | ohm-led/state.cpp:262-274 | on a black strip, each active ball in turn paints its LED, or blends into it when it is already lit |
| `Render.Renderer.PaintBall` | ohm-led/state.cpp:266-273 | one ball: a black LED takes the ball's colour, a lit LED is blended with it; nothing else changes |
| `Render.Renderer.CoolCells` | ohm-led/state.cpp:303-307 | the heat array becomes the cooled cells |
| `Render.Renderer.DiffuseCells` | ohm-led/state.cpp:309-313 | the downward loop in place gives exactly the diffusion computed from pre-step values |
| `Render.Renderer.SparkCell` | ohm-led/state.cpp:315-320 | the heat array becomes the sparked cells |
| `Render.Renderer.RenderFire` | ohm-led/state.cpp:298-334 | the heat array takes one full simulation step, and the strip shows the heat colours |
| `Render.Renderer.PaintHeat` | ohm-led/state.cpp:322-331 | each LED of the strip shows its cell's heat colour |
| `Render.Renderer.Render` | ohm-led/state.cpp:352-381 | exactly the state's mode renders: the strip shows its frame, only fire changes the heat, and only balls draws the ball table. Off, On, Rainbow, Fire and unrecognised modes render for any period |
| `Render.Renderer.Tick` | ohm-led/state.cpp:336-382 | renders exactly when a frame is due. Otherwise nothing changes, `lastUpdate` included. When due, `lastUpdate` becomes now and the strip shows the mode's frame, black for Off and unrecognised modes. Fire takes one heat step and no other mode changes the heat; balls draws the ball table on its first frame and no other mode changes it |
| `Reset.Blink` | ohm-led/reset.cpp:9-17 | no write outside [min, max); inside it, LOW exactly when `duration / period` is even |
| `Reset.HeldWritesSpec` | ohm-led/reset.cpp:38-42 | the five bands are disjoint: one LED write below 10 s, from the band the duration falls in, and none from 10 s on |
| `Reset.FirstBandBlinks` | ohm-led/reset.cpp:38 | in the first band the LED alternates LOW and HIGH every 500 ms |
| `Reset.ResetMonitor.constructor` | ohm-led/reset.cpp:21 | the reference time starts at the first call's time |
| `Reset.ResetMonitor.Step` | ohm-led/reset.cpp:19-49 | a release resets the reference time and writes LOW. It cycles the state exactly when 50 to 999 ms have passed since the last pass that saw the button released (a short press, or a loop pass that long), and touches nothing else. A hold keeps the reference time and makes the band's write. At 10 s or more a hold clears the configuration and restarts; below that nothing is cleared |
| `Web.Truncated` | ohm-led/web.cpp:38-39 | `snprintf` into a 128-byte buffer keeps a prefix of at most 127 characters, the whole text when it fits |
| `Web.ContentTypeRejection` | ohm-led/web.cpp:36-41 | a wrong content type gets 400 with a message that fits the buffer |
| `Web.GetIndex` | ohm-led/web.cpp:12-16 | a 302 redirect to `/configuration/` |
| `Web.StateReply` | ohm-led/web.cpp:104-114 | the given status with the state's JSON document |
| `Web.NumLeds` | ohm-led/web.cpp:47-71 | the count is accepted exactly when it lies in [1, 128], and accepted unchanged |
| `Web.NumLedsNarrowing` | ohm-led/web.cpp:47-71 | as written, 65537 and -65535 pass the check as 1 LED; the corrected check rejects both and agrees everywhere else in 16 bits |
| `Web.CheckConfigForm` | ohm-led/web.cpp:28-71 | a form is accepted exactly when it has a body, the exact form content type, a name under 32, an SSID and passphrase under 64, and a count in [1, 128]. An accepted form carries those values. Every rejection is a 400. The checks run in the source's order (body, content type, name, SSID, passphrase, count), and each gives its own message when every earlier check has passed. The count check and the copy are the corrected ones (see Findings web.cpp:47 and web.cpp:73-75) |
| `Web.FormatAsWritten` | ohm-led/web.cpp:73-75 | text used as a `printf` format never grows |
| `Web.FormatAsWrittenMangles` | ohm-led/web.cpp:73-75 | as written, a name "100%%" is stored as "100%", and "a%s" is undefined |
| `Web.FormatHalvesPercent` | ohm-led/web.cpp:73 | text `100%%` used as a format prints `100%` |
| `Web.FormatStringConversion` | ohm-led/web.cpp:73 | text `a%s` used as a format asks for an argument that is never passed |
| `Web.CStringOfPlain` | ohm-led/web.cpp:73-75 | NUL-free text is its own C string |
| `Web.StoreCString` | ohm-led/web.cpp:73-75 | the corrected copy keeps the buffer size, reads back as the submitted text, and leaves the bytes after its NUL as they were |
| `Web.Applied` | ohm-led/web.cpp:73-76 | only the name, SSID, passphrase and LED count change; `http_port` and `fps` are kept |
| `Web.NonEmptyCString` | ohm-led/config.h:48-56 | a buffer holds non-empty text exactly when it does not start with NUL |
| `Web.AcceptedFormSurvivesRestart` | ohm-led/web.cpp:73-86 | after an accepted form and the restart, `Load` finds a valid image holding the submitted texts and count; the device has a name and an SSID exactly when non-empty ones were sent |
| `Web.HandleSetConfiguration` | ohm-led/web.cpp:26-87 | a rejected form gets its 400, with nothing changed and no restart. An accepted form writes the four fields and saves them, then redirects and restarts. The count check and the copy are the corrected ones (see Findings web.cpp:47 and web.cpp:73-75) |
| `Web.SetState` | ohm-led/web.cpp:121-169 | the status is 200, 400 or 409, and the state changes only with 200 |
| `Web.SetStateStatus` | ohm-led/web.cpp:121-167 | 200 with the new state exactly when the update succeeds. 409 with the unchanged state's snapshot exactly when the revision is stale; this is Conflict in section 15.5.10 of RFC 9110. A missing body, a wrong content type or a JSON error is 400, before the state is touched |
| `Web.RetryAfterConflict` | ohm-led/web.cpp:161-163 | after a 409, the same document carrying the snapshot's revision succeeds |
| `Web.HandleSetState` | ohm-led/web.cpp:121-169 | the handler on the shared state sends the reply and leaves the state `SetState` gives |

## Left out

- LED driver and colour maths. `CHSV`, `blend`, `fadeToBlackBy`, `fill_rainbow`, `ColorFromPalette(HeatColors_p)` and `scale8` are library code. They enter as the `Palette` parameter. `FastLED.addLeds`, `setBrightness` and the transfer to the strip are hardware; `shown` records what would be sent.
- Easing curves and floating point. The curves live in easing.h, which is not part of this model. The `double` arithmetic of `easeTime` and of the balls multiplier is modelled on reals, so float rounding error is not modelled. `round` is modelled exactly, with halves going away from zero.
- Randomness. `random` and `random8` are draws in `FrameInputs`. `Drawn` states the ranges the generator can produce: ball offsets below the 32-bit `period * 2` (0 when that is 0), jitters below 50, cooling draws below their limit, a spark cell below 7 and a spark heat in [160, 255).
- `Render.Drawn`: a doubled period above 0x7FFFFFFF reaches `random(long)` as a negative number; the Arduino library is not part of this model, so the ball offsets drawn then are unconstrained.
- The clock. `millis()` is a natural number, so its 32-bit wrap-around and the `int` overflow of differences of it are not modelled. Neither is the `int` overflow of `round(millis() * multiplier) + timeOffset`. The source reads `millis()` anew for the throttle (state.cpp:341), for `lastUpdate` (state.cpp:349) and in each animation (state.cpp:212, 222, 264, 281); the model takes one reading, `FrameInputs.now`, for all of them, so it does not capture the ticks that pass between those reads.
- Pins, `delay` and `ESP.restart`. Pin reads are inputs. Pin writes and the decision to restart are results.
- Logging. `Serial.printf` and `printState` are left out.
- EEPROM. It is one stored `Record` image; `begin`, `end` and `commit` are not modelled.
- The HTTP server and JSON library. Routing, header collection, pretty-printing, `deserializeJson` and `atoi` are left out, and a request is a record. A JSON document holds optional values already converted to the field types; a key that is absent or does not convert reads as its default, as ArduinoJson's `|` does.
- Other handlers. `handleGetConfiguration` (an HTML template fill from index.h), `handleGetInfo`, `handleNotFound`, `startWebServer` and `webServerLoop` are left out. They only format output or route.
- Unreachable error replies. `Save` always returns true, so the 500 "Failed to save configuration" reply is never sent. The `default` branch of `handleSetState` is unreachable, because the update has only three results. Neither is modelled.
- `Render.Renderer.Tick`: in Pulse, Colorloop, Balls and KnightRider, the modes that call `easeTime`, requires a period other than 0x80000000. For that period the 32-bit `period * 2` is 0 and `%` divides by zero, which is undefined behaviour in C (see Findings). The renderer keeps the firmware's 32-bit fold; `Ease.WrappedTimeWide` is the corrected fold, and it agrees with the firmware's fold up to 0x7FFFFFFF.
- `Render.Renderer.Tick`: requires in Balls mode that the curve keeps positions on the strip (`BallsOnStrip`). `balls` indexes `leds[position]` unchecked, and as written the index can leave the strip (see Findings).
- `Render.Renderer.constructor`: requires at most 128 LEDs. `Load` does not bound `num_leds` from above; only the configuration form does.
- `Web.CheckConfigForm`: request text and the configuration buffers are sequences of `char`, and each `char` stands for one byte of the text. Every length, `String::length()` and the 32- and 64-byte bounds included, is therefore a byte count; multi-byte UTF-8 characters are not decoded, so a name of 16 two-byte characters is modelled as its 32 bytes.
- `Render.Renderer.RenderBalls`: state.cpp:272 passes the `double` 0.5 as `blend`'s 8-bit fraction, which converts to 0 (`BallBlendAmount`). The model follows the code and blends with amount 0. That this leaves the later ball's colour in place is a property of the LED library's `blend`, which is the `Palette` parameter here and is not established by the model.
- `Ease.EaseTime`: the curve is the parameter `curve`, which the source computes as `round(f(ts / (period - 1)) * mult)`. `Curve` and `CurveAsWritten` build it from an easing function on reals.
- `StateMachine.State.FromJsonDocument`: `period` is `uint32_t` (state.h:43), so the `period <= 0` guard at state.cpp:192 only ever sees zero.

## Findings

| source | as written | input that shows it | evidently intended | confidence | as-written member | corrected member |
|---|---|---|---|---|---|---|
| ohm-led/state.cpp:204 | the folded time `ts` reaches `period`, yet it is normalised by `period - 1`, so the curve is evaluated above 1. For period 1 it divides by zero | period 2, linear easing, 16 LEDs, balls mode at the peak: position 30, and `leds[30]` is written on a 16-LED strip | normalise by `period`, so positions stay in [0, num_leds - 1] | high; not executed | `Render.ShapeAsWrittenLeavesStrip` | `Render.CorrectedShapeKeepsBallsOnStrip` |
| ohm-led/state.cpp:197 | `period * 2` is computed in 32 bits, so period 0x80000000 doubles to 0. That period passes the `period <= 0` guard, and `time % 0` divides by zero. Longer periods wrap to a sawtooth | `PUT /v1/state/` with `{"mode":"pulse","period":2147483648}`: the next frame divides by zero (undefined behaviour) | compute the doubled period without wrapping, so every positive period folds into a triangle wave | high; not executed | `Ease.DoubledPeriod` | `Ease.WrappedTimeWide` |
| ohm-led/web.cpp:47 | `atoi`'s result is narrowed to `uint16_t` before the range check | `num_leds=65537` is accepted and stored as 1 LED | reject counts outside [1, 128] before narrowing | medium; not executed | `Web.NumLedsNarrowing` | `Web.NumLeds` |
| ohm-led/web.cpp:73-75 | the submitted text is passed to `snprintf` as the format string | name `100%%` is stored as `100%`, and name `a%s` reads a missing argument (undefined behaviour) | copy the text verbatim with a `"%s"` format | high; not executed | `Web.FormatAsWrittenMangles` | `Web.StoreCString` |
