# ESP32 remote control: input and GUI core in Dafny

This project models the input-to-UI core of an ESP32 firmware that remote-controls
a radio from a small TFT display. It has five parts:

- **Button debouncer** (`Debounce`). It turns the raw level of a pulled-up push
  button, sampled every loop tick, into a debounced stable level and two sticky
  events:
  - a *short press*, raised on release;
  - a *long press*, raised once while the button is held for 700 ms.
  The same algorithm drives the two navigation buttons (`NavButtons`) and the
  encoder's switch (`RotaryEncoder`).
- **Quadrature decoder** (`RotaryEncoder`). It accepts a change of the CLK phase
  only when at least 800 µs have passed since the last accepted edge, and counts
  ±1 per accepted edge, with the sign taken from DT.
- **GUI state machine** (`GuiModel`, `Gui`). It has:
  - three screens (frequency, modulation list, power list);
  - a footer focus bar FRQ / MOD / PWR / ON;
  - an edit mode with a digit cursor on the frequency;
  - a "Wert gespeichert" toast after a save;
  - two one-shot events (toggle request, save request) for the main loop.
  The frequency is an `int32_t` in Hz, limited to 30.000–511.999 MHz on a 1 kHz
  grid (`Frequency`). It is shown as "DDD.DDD MHz" without floating point.
- **Dirty-zone renderer** (`GuiRender`). The header, value and footer zones are
  each redrawn only when marked dirty. Each zone first clears its own rectangle.
  Drawing is modelled as a trace of abstract display operations.
- **`rgb565` colour packer** (`TftDisplay`). It is modelled on bitvectors.

The C++ integer semantics the code relies on are written out in `CInt`:
- truncating `/` and `%`;
- `uint32_t` clock subtraction modulo 2^32;
- two's-complement wrap for `int32_t` results.

Every `millis()`, `micros()` and `digitalRead()` becomes a parameter.

The shape follows the source:
- **Pure helpers** (`modPos`, `clampI32`, `wrapI32`, `cursorStepHz`, `formatFreq`,
  `rgb565`) are functions.
- **Objects whose fields the firmware updates in place** are classes:
  - the button struct: `Debounce.Button`;
  - the two nav buttons: `NavButtons.NavButtons`;
  - the encoder's static state: `RotaryEncoder.Encoder`;
  - GUI.cpp's static `ui`, values, dirty flags and toast latch: `Gui.Gui`.
- **Each method is tied to a function on a value snapshot of its state.** Its
  contract is `State() == F(old(State()), …)`. The properties are proved as
  lemmas about those functions. `Gui.Gui` keeps the GUI invariant `GuiModel.Inv`
  across every public method.

## Model

| member | source | states |
|---|---|---|
| CInt.Wrap32 | lib/GUI/GUI.cpp:270 | the `int32_t` result of an overflowing sum or product is the unique `int32_t` congruent to it modulo 2^32, and equals it when in range |
| CInt.CDiv | lib/GUI/GUI.cpp:105-106 | C++ `/`: the quotient's magnitude is \|a\|/\|b\|, its sign is negative iff the operand signs differ, and it is Euclidean division for non-negative operands |
| CInt.CRem | lib/GUI/GUI.cpp:44 | C++ `%`: a == b*(a/b) + r, \|r\| < \|b\|, r takes the sign of a, and r is the Euclidean remainder for non-negative operands |
| CInt.CRemAdjusted | lib/GUI/GUI.cpp:44-45 | a truncated remainder shifted up by m when negative is the Euclidean remainder `a % m` |
| CInt.Elapsed | lib/RotaryEncoder/RotaryEncoder.cpp:84 | `now - since` on `uint32_t` is the difference, plus 2^32 when the clock has wrapped |
| CInt.AddU32 | lib/GUI/GUI.cpp:255 | `millis() + toast_ms` on `uint32_t` is the sum, minus 2^32 when it overflows |
| Debounce.Init | lib/NavButtons/NavButtons.cpp:48-61 | after init the stable and raw levels are the sampled level, no event is pending, and no press is recorded |
| Debounce.InitSatisfiesInv | lib/RotaryEncoder/RotaryEncoder.cpp:55-68 | an initialised button satisfies the debouncer invariant |
| Debounce.PollKeepsInv | lib/RotaryEncoder/RotaryEncoder.cpp:76-107 | every poll keeps the invariant: a released button has no press recorded, and the long latch is set only during a recorded press |
| Debounce.RawChangeRestartsWindow | lib/NavButtons/NavButtons.cpp:74-82 | a raw change records the level and the time, and never promotes in the same poll |
| Debounce.StableChangeNeedsQuietWindow | lib/RotaryEncoder/RotaryEncoder.cpp:79-86 | the stable level changes iff the raw level differs from it and has been unchanged for strictly more than 30 ms, and then it becomes that level |
| Debounce.PressRecordsDownTime | lib/RotaryEncoder/RotaryEncoder.cpp:88-90 | a stable press records `downMs = now`, clears the latch and raises no event |
| Debounce.ReleaseRaisesShortIff | lib/RotaryEncoder/RotaryEncoder.cpp:91-97 | a stable release raises the short event iff a press was recorded and no long event fired for it; both press fields are reset |
| Debounce.LongRaisedOncePerPress | lib/RotaryEncoder/RotaryEncoder.cpp:101-106 | the long event is raised exactly by the first poll of a recorded press at least 700 ms old: any such poll sets the latch (and raises the event if the latch was clear), no other poll raises it, and the latch stays set while the button is held |
| Debounce.LongSuppressesShort | lib/NavButtons/NavButtons.cpp:91-92 | once the long event has fired, a poll raises no short event |
| Debounce.EventsAreSticky | lib/NavButtons/NavButtons.cpp:92-104 | polling never clears a raised event |
| Debounce.LongPressNeverShorts | lib/RotaryEncoder/RotaryEncoder.cpp:8 | over any run of polls during a long-fired press, up to and including the release, no short event is raised and the invariant holds |
| Debounce.PressAtTimeZeroIsLost | lib/NavButtons/NavButtons.cpp:86-101 | a press that becomes stable at time 0 is indistinguishable from "no press recorded": no long event while held and no short event on release |
| Debounce.GlitchIsRejected | lib/NavButtons/NavButtons.cpp:74-82 | a bounce shorter than the debounce window changes neither the stable level nor the events |
| Debounce.ShortPressScenario | lib/NavButtons/NavButtons.cpp:70-107 | a press released before 700 ms yields one short event and no long event |
| Debounce.LongPressScenario | lib/NavButtons/NavButtons.cpp:70-107 | a press held past 700 ms yields one long event and no short event |
| Debounce.Button.constructor | lib/NavButtons/NavButtons.cpp:48-61 | initOne: the fields take the values of `Init` |
| Debounce.Button.Update | lib/NavButtons/NavButtons.cpp:70-107 | updateOne, field by field: the new state is `Poll` of the old state |
| Debounce.Button.TakeShort | lib/NavButtons/NavButtons.cpp:112-116 | take: returns the short flag and clears it; nothing else changes |
| Debounce.Button.TakeLong | lib/RotaryEncoder/RotaryEncoder.cpp:112-116 | take: returns the long flag and clears it; nothing else changes |
| Debounce.Button.IsDown | lib/NavButtons/NavButtons.cpp:134 | true iff the stable level is LOW |
| NavButtons.NavButtons.constructor | lib/NavButtons/NavButtons.cpp:118-121 | both buttons are initialised from their own sampled levels, as distinct objects |
| NavButtons.NavButtons.Update | lib/NavButtons/NavButtons.cpp:123-126 | each button's new state is `Poll` of its own old state and its own level; one never changes the other |
| NavButtons.NavButtons.TakeLeftPressed | lib/NavButtons/NavButtons.cpp:128 | returns and clears the left short event |
| NavButtons.NavButtons.TakeRightPressed | lib/NavButtons/NavButtons.cpp:129 | returns and clears the right short event |
| NavButtons.NavButtons.TakeLeftLongPressed | lib/NavButtons/NavButtons.cpp:131 | returns and clears the left long event |
| NavButtons.NavButtons.TakeRightLongPressed | lib/NavButtons/NavButtons.cpp:132 | returns and clears the right long event |
| NavButtons.NavButtons.IsLeftDown | lib/NavButtons/NavButtons.cpp:134 | true iff the left stable level is LOW |
| NavButtons.NavButtons.IsRightDown | lib/NavButtons/NavButtons.cpp:135 | true iff the right stable level is LOW |
| NavButtons.CoalescedPresses | lib/NavButtons/NavButtons.cpp:112-116 | two complete presses before one take coalesce: the first take is true, the second false |
| RotaryEncoder.EdgeStep | lib/RotaryEncoder/RotaryEncoder.cpp:149-153 | an accepted edge contributes +1 iff DT differs from CLK, else −1 |
| RotaryEncoder.BounceIsIgnored | lib/RotaryEncoder/RotaryEncoder.cpp:133-139 | within 800 µs of the last accepted edge, the accumulator and `lastEncUs` are unchanged, but the phase levels are tracked |
| RotaryEncoder.AcceptedEdgeStepsByOne | lib/RotaryEncoder/RotaryEncoder.cpp:143-157 | the accumulator moves iff a CLK change is accepted, by exactly one step, and the acceptance time is recorded |
| RotaryEncoder.StepRateIsBounded | lib/RotaryEncoder/RotaryEncoder.cpp:23 | over samples with non-decreasing times, every counted step costs at least 800 µs |
| RotaryEncoder.Encoder.constructor | lib/RotaryEncoder/RotaryEncoder.cpp:172-183 | initRotaryEncoder: phases sampled, accumulator zero, switch initialised |
| RotaryEncoder.Encoder.UpdateEncoder | lib/RotaryEncoder/RotaryEncoder.cpp:129-158 | updateEncoder, including the early return: the new state is `EncPoll` of the old one |
| RotaryEncoder.Encoder.Update | lib/RotaryEncoder/RotaryEncoder.cpp:189-192 | the decoder, then the switch debouncer, each advanced by one poll |
| RotaryEncoder.Encoder.TakeDelta | lib/RotaryEncoder/RotaryEncoder.cpp:205-209 | getEncoderDelta: returns the accumulated steps and resets them to 0 |
| RotaryEncoder.Encoder.TakeButtonPressed | lib/RotaryEncoder/RotaryEncoder.cpp:214-216 | returns and clears the switch's short event |
| RotaryEncoder.Encoder.TakeButtonLongPressed | lib/RotaryEncoder/RotaryEncoder.cpp:222-224 | returns and clears the switch's long event |
| RotaryEncoder.Encoder.IsButtonDown | lib/RotaryEncoder/RotaryEncoder.cpp:229-231 | true iff the switch's stable level is LOW |
| GuiMath.ModPos | lib/GUI/GUI.cpp:42-46 | 0 when m ≤ 0; otherwise a value in [0, m) congruent to a modulo m |
| GuiMath.ModPosIsEuclidean | lib/GUI/GUI.cpp:42-46 | for m > 0 the result is the Euclidean `a % m`, so it is unique |
| GuiMath.ModPosAdd | lib/GUI/GUI.cpp:273 | reducing after each addition equals reducing once after all of them |
| GuiMath.ModPosStepBackRestores | lib/GUI/GUI.cpp:273-275 | advancing a list index by +1 and then by −1 restores it |
| GuiMath.ClampI32 | lib/GUI/GUI.cpp:48-52 | the result lies in [lo, hi] when lo ≤ hi, equals v inside, lo below and hi above |
| GuiMath.WrapI32 | lib/GUI/GUI.cpp:54-61 | v when lo > hi; otherwise a value in [lo, hi] that is v for in-range v and congruent to v modulo hi−lo+1 when v−lo does not overflow |
| GuiMath.WrapIsCyclic | lib/GUI/GUI.cpp:54-61 | wrap(hi+1) == lo and wrap(lo−1) == hi |
| Frequency.Quantize | lib/GUI/GUI.cpp:64-68 | the result is a multiple of the step, less than one step from f, toward zero; values on the grid are unchanged; no step leaves f unchanged |
| Frequency.LimitFreqAsWritten | lib/GUI/GUI.cpp:63-71 | limitFreq as written: the result is in [min, max]; under clamp with step-aligned bounds it is a multiple of the step |
| Frequency.WrapAsWrittenLeavesGrid | lib/GUI/GUI.cpp:56-69 | under wrap, one 1 kHz step above 511.999 MHz gives 30 000 999 Hz, which is off the step grid |
| Frequency.LimitFreq | lib/GUI/GUI.cpp:63-71 | corrected limitFreq: the clamp result is in [min, max]; the wrap result is in [min, max+step−1] |
| Frequency.LimitFreqOnGrid | lib/GUI/GUI.cpp:63-71 | with step-aligned bounds, the corrected limitFreq yields a multiple of the step in [min, max], under clamp and under wrap |
| Frequency.LimitFreqMatchesSourceUnderClamp | lib/GUI/GUI.cpp:70 | under the clamp policy the corrected limitFreq equals limitFreq as written |
| Frequency.WrapOnGridIsCyclic | lib/GUI/GUI.cpp:69 | under the corrected wrap, one step above max is min and one step below min is max |
| Frequency.CursorStepHz | lib/GUI/GUI.cpp:97-101 | digit c adds 1000·10^(5−c) Hz (100 MHz … 1 kHz); any c > 5 counts as 5 |
| Frequency.FormatFreq | lib/GUI/GUI.cpp:104-117 | 8 characters with '.' at index 3 and NUL at index 7; for f ≥ 0 the other six are decimal digits |
| Frequency.FormatFreqDigits | lib/GUI/GUI.cpp:104-117 | for f ≥ 0 the truncating divisions agree with Euclidean ones: the first three characters are the digits of the whole MHz, the last three those of the kHz fraction |
| Frequency.FormatFreqReadsBack | lib/GUI/GUI.cpp:104-117 | for 0 ≤ f < 10^9 the digits read back as f less its sub-kHz remainder, and exactly as f on the 1 kHz grid |
| Frequency.FormatStartFrequency | include/gui_config.h:73 | 104 200 000 Hz formats as "104.200" |
| Frequency.FormatUpperBound | include/gui_config.h:55 | 511 999 000 Hz, the upper bound, formats as "511.999" |
| Frequency.FormatLowerBound | include/gui_config.h:54 | 30 000 000 Hz formats as "030.000" |
| Frequency.CursorColumn | lib/GUI/GUI.cpp:190 | the underlined character of digit c ≤ 5 is one of the six digits, never the '.' at index 3 |
| Frequency.CursorMarksSteppedDigit | lib/GUI/GUI.cpp:97-117 | the character under cursor c is the decimal digit of f at the place value that one encoder step at c changes |
| GuiConfig.GuiLimitsFitGrid | include/gui_config.h:52-68 | the shipped bounds are multiples of the 1 kHz step and leave room for the grid wrap |
| GuiModel.FooterIndex | lib/GUI/GUI.cpp:319-327 | the footer entries are the enumerators 0..3, and the index maps back to the entry |
| GuiModel.FooterNavigationIsCyclic | lib/GUI/GUI.cpp:318-328 | right is +1 and left is −1 modulo 4, left undoes right, and four right presses return to the start |
| GuiModel.ScreenFor | lib/GUI/GUI.cpp:283-285 | the ON entry keeps the current screen |
| GuiModel.Initial | lib/GUI/GUI.cpp:293-306 | guiInit's state satisfies the GUI invariant, starts at 104.2 MHz with list indices 0, and has every zone dirty |
| GuiModel.StepKeepsInv | lib/GUI/GUI.cpp:310-370 | one tick keeps the invariant: indices in range, frequency in range on the 1 kHz grid, cursor < 6 and 0 outside FRQ edit, screen following a non-ON focus, no edit while focused on ON |
| GuiModel.NavStepKeepsInv | lib/GUI/GUI.cpp:316-330 | footer navigation keeps the invariant |
| GuiModel.ShortStepKeepsInv | lib/GUI/GUI.cpp:332-348 | a short press keeps the invariant |
| GuiModel.RotateStepKeepsInv | lib/GUI/GUI.cpp:350-355 | a rotation keeps the invariant, including the frequency grid |
| GuiModel.LeftPressMovesFocus | lib/GUI/GUI.cpp:318-323 | outside edit mode, left moves the focus one entry back cyclically; the screen follows (kept for ON), edit ends with cursor 0, every zone is dirty, and the values are kept |
| GuiModel.RightPressMovesFocus | lib/GUI/GUI.cpp:324-329 | outside edit mode, right moves the focus one entry on cyclically, with the same effects as left |
| GuiModel.BothPressesKeepFocus | lib/GUI/GUI.cpp:317-330 | left and right in one tick restore the focus; from ON the screen ends on PWR, otherwise it is kept |
| GuiModel.NavIgnoredWhileEditing | lib/GUI/GUI.cpp:317 | in edit mode the nav presses change nothing |
| GuiModel.ShortPressOnToggles | lib/GUI/GUI.cpp:335-337 | not editing with focus on ON: only `onToggleRequested` is set |
| GuiModel.ShortPressEntersEdit | lib/GUI/GUI.cpp:338-341 | not editing with focus on FRQ/MOD/PWR: edit starts with cursor 0 and the value zone is dirty |
| GuiModel.ShortPressAdvancesCursor | lib/GUI/GUI.cpp:343-347 | in edit mode the cursor becomes (c+1) mod 6 on FRQ and 0 on a list screen |
| GuiModel.ShortPressesCycleCursor | lib/GUI/GUI.cpp:261-264 | n short presses in FRQ edit move the cursor n digits cyclically, so six presses bring it back |
| GuiModel.RotationOnlyWhileEditing | lib/GUI/GUI.cpp:351-355 | outside edit mode, or with a zero delta, rotation changes nothing |
| GuiModel.ListStepBackRestores | lib/GUI/GUI.cpp:272-275 | on a list screen, +1 then −1 restores the entry |
| GuiModel.ListRotationIsModular | lib/GUI/GUI.cpp:272-275 | on the MOD or PWR screen the selected entry moves by d modulo its list's length, the other list and the frequency are kept, and the value zone is dirty |
| GuiModel.FreqStepIsExact | lib/GUI/GUI.cpp:269-271 | an edit that stays within the bounds moves the frequency by exactly d steps of the cursor digit |
| GuiModel.FreqStepSaturates | lib/GUI/GUI.cpp:269-271 | without `int32_t` overflow, an edit past a bound stops at that bound |
| GuiModel.LargeDeltaOverflowsToMinimum | lib/GUI/GUI.cpp:270 | 22 detents up at the 100 MHz digit overflow `int32_t`, and the clamp then lands on 30 MHz |
| GuiModel.LongPressSaves | lib/GUI/GUI.cpp:251-259 | a long press in edit mode: edit ends with cursor 0, the toast runs until now+2000, the save event names the current screen, header and value are dirty, and the values are kept |
| GuiModel.LongPressWithoutEditIsIgnored | lib/GUI/GUI.cpp:358-364 | outside edit mode a long press changes nothing |
| GuiModel.SaveShowsToast | lib/GUI/GUI.cpp:366-370 | after saveCurrentValue sets `toastUntil` to now+2000 (no clock wrap), the toast is active exactly before now+2000 |
| GuiModel.SaveNearClockWrapShowsNoToast | lib/GUI/GUI.cpp:366-370 | a save within 2000 ms before the 32-bit clock wraps gets a wrapped `toastUntil`, so the non-modular comparison shows no toast |
| GuiModel.ToastExpiryMarksHeaderOnce | lib/GUI/GUI.cpp:366-370 | the toast phase marks the header dirty exactly when the toast turns inactive, and not again on the following tick |
| GuiModel.SelectModulationScenario | lib/GUI/GUI.cpp:310-373 | right, short, one detent, long: "FM" is selected and saved for the MOD screen, with the toast running |
| GuiModel.EditFrequencyScenario | lib/GUI/GUI.cpp:310-373 | short, one detent at digit 0, then next digit and one detent back: 104.200 → 204.200 → 194.200 MHz |
| GuiModel.ToggleRadioScenario | lib/GUI/GUI.cpp:318-337 | from the start focus FRQ one left press reaches ON (the screen stays FRQ), and a short press there requests the toggle without editing |
| GuiRender.ListLabel | lib/GUI/GUI.cpp:227-232 | the indexed entry, or "---" for an empty list |
| GuiRender.Clears | lib/GUI/GUI.cpp:84-86 | the rectangles that a sequence of operations fills, in order |
| GuiRender.ZoneStartsWithItsClear | lib/GUI/GUI.cpp:120-234 | each zone's drawing starts by clearing its own rectangle and clears nothing else |
| GuiRender.ZonesIgnoreDirtyFlags | lib/GUI/GUI.cpp:120-234 | what each zone draws depends only on the UI state and the three values, never on the dirty flags |
| GuiRender.FrameClearsExactlyDirtyZones | lib/GUI/GUI.cpp:236-243 | a frame clears exactly the dirty zones, in the order header, value, footer |
| GuiRender.CleanStateDrawsNothing | lib/GUI/GUI.cpp:372 | with no zone dirty, nothing is drawn |
| GuiRender.ZonesTileRows | include/gui_config.h:67-68 | header, value and footer rows meet without overlap and cover the display height |
| GuiRender.ZonesDrawInsideTheirRows | lib/GUI/GUI.cpp:120-234 | on a display at least 88 rows high, every operation of a zone stays within that zone's rows |
| GuiRender.HeaderShowsToastOrScreenName | lib/GUI/GUI.cpp:123-134 | the header shows "Wert gespeichert" while the toast is active and the screen name otherwise, never left of x = 6 |
| GuiRender.FooterHighlightsFocus | lib/GUI/GUI.cpp:139-164 | exactly the focused footer entry is drawn in the active colour |
| GuiRender.UnderlineMarksCursorCell | lib/GUI/GUI.cpp:189-198 | in FRQ edit the underline starts at the cursor character's cell, ends inside it, and is never under the '.' |
| GuiRender.NoUnderlineOutsideEdit | lib/GUI/GUI.cpp:189-216 | outside edit mode the value zone draws no line |
| Gui.Gui.constructor | lib/GUI/GUI.cpp:293-308 | guiInit: the state is `Initial` after rendering; the trace is a screen clear followed by all three zones |
| Gui.Gui.LimitFreq | lib/GUI/GUI.cpp:63-71 | the frequency becomes its limited value in place, and nothing else changes |
| Gui.Gui.FocusSet | lib/GUI/GUI.cpp:279-290 | focusSet, step by step: the new state is `GuiModel.FocusSet` of the old one |
| Gui.Gui.EnterEdit | lib/GUI/GUI.cpp:246-249 | enterEdit in place |
| Gui.Gui.SaveCurrentValue | lib/GUI/GUI.cpp:251-259 | saveCurrentValue in place |
| Gui.Gui.NextCursorPosition | lib/GUI/GUI.cpp:261-264 | nextCursorPosition in place |
| Gui.Gui.ChangeValueByDelta | lib/GUI/GUI.cpp:266-277 | changeValueByDelta in place, including the early return and the limitFreq call |
| Gui.Gui.RenderHeaderArea | lib/GUI/GUI.cpp:120-137 | appends the header zone's operations; the state is unchanged |
| Gui.Gui.RenderValueArea | lib/GUI/GUI.cpp:218-234 | appends the value zone's operations |
| Gui.Gui.RenderFooterArea | lib/GUI/GUI.cpp:146-165 | appends the footer zone's operations |
| Gui.Gui.RenderDirty | lib/GUI/GUI.cpp:236-243 | appends the operations of exactly the dirty zones and leaves all three flags false |
| Gui.Gui.RenderHeaderIfDirty | lib/GUI/GUI.cpp:240 | a dirty header is drawn as the frame's start state shows it and its flag cleared; a clean one draws nothing |
| Gui.Gui.RenderValueIfDirty | lib/GUI/GUI.cpp:241 | a dirty value zone is drawn as the frame's start state shows it and its flag cleared; a clean one draws nothing |
| Gui.Gui.RenderFooterIfDirty | lib/GUI/GUI.cpp:242 | a dirty footer is drawn as the frame's start state shows it and its flag cleared; a clean one draws nothing |
| Gui.Gui.HandleLeftPress | lib/GUI/GUI.cpp:318-323 | the left-press branch of guiUpdate in place |
| Gui.Gui.HandleRightPress | lib/GUI/GUI.cpp:324-329 | the right-press branch of guiUpdate in place |
| Gui.Gui.HandleShortPress | lib/GUI/GUI.cpp:333-348 | the short-press branch of guiUpdate in place |
| Gui.Gui.HandleRotation | lib/GUI/GUI.cpp:351-355 | the rotation branch of guiUpdate in place |
| Gui.Gui.HandleLongPress | lib/GUI/GUI.cpp:358-364 | the long-press branch of guiUpdate in place |
| Gui.Gui.HandleToast | lib/GUI/GUI.cpp:367-370 | the toast-expiry bookkeeping of guiUpdate in place |
| Gui.Gui.Process | lib/GUI/GUI.cpp:316-372 | the tick's state changes are `Step`; the dirty zones of the result are drawn and left clean; the invariant is kept |
| Gui.Gui.Update | lib/GUI/GUI.cpp:310-373 | guiUpdate: the three debouncers and the decoder each advance one poll; nav presses are taken only outside edit mode, and a press made during editing stays pending; the switch events and the delta are always taken; the GUI advances by `Step` on those events and renders |
| Gui.Gui.ForceRedraw | lib/GUI/GUI.cpp:375-378 | all three zones are drawn and left clean |
| Gui.Gui.SetRadioOn | lib/GUI/GUI.cpp:383-388 | a changed radio status is stored and dirties the footer; the same status changes nothing |
| Gui.Gui.ConsumeOnToggleRequested | lib/GUI/GUI.cpp:391-395 | returns the toggle request and clears it |
| Gui.Gui.ConsumeSaveRequested | lib/GUI/GUI.cpp:397-402 | a pending save is cleared and reported with the saved screen; otherwise the result is false and the caller's screen is returned unchanged |
| TftDisplay.Rgb565 | lib/TFTDisplay/TFTDisplay.cpp:30-34 | bits 15..11 are r>>3, bits 10..5 are g>>2, bits 4..0 are b>>3 |
| TftDisplay.PackUnpack | lib/TFTDisplay/TFTDisplay.cpp:30-34 | every RGB565 word is the packing of the colour it unpacks to |
| TftDisplay.UnpackPack | lib/TFTDisplay/TFTDisplay.cpp:30-34 | unpacking a packed colour gives back the colour with its dropped low bits cleared |
| TftDisplay.LowBitsIgnored | lib/TFTDisplay/TFTDisplay.cpp:30-34 | rgb565(r,g,b) == rgb565(r&0xF8, g&0xFC, b&0xF8) |
| TftDisplay.Extremes | lib/TFTDisplay/TFTDisplay.cpp:103 | black packs to 0, white to 0xFFFF, and each full primary fills exactly its own field |

## Left out

- Pin reads, `millis()` and `micros()` are parameters of the update methods. `pinMode` and the pin numbers are not modelled.
- The Adafruit ST7735 calls are modelled as `GuiRender.DrawOp` values appended to a trace. These calls are `drawText`, `fillRectRGB`, `drawLineRGB` and `clearDisplay`. Colours stay RGB888 in the trace; their conversion is `TftDisplay.Rgb565`.
- `getDisplaySize` is a width and height fixed when the GUI is constructed.
- `initDisplay` and `runBit` are not part of this model.
- Draw coordinates are unbounded integers. The firmware passes them as `int16_t`, but the truncation cannot occur at display sizes.
- GuiRender.ZonesDrawInsideTheirRows: covers only the vertical extent of operations, and only displays at least 88 rows high.
- Gui.Gui.Update: uses one `millis()` reading for the whole tick. The firmware reads the clock again for each toast comparison and for the save time.
- Gui.Gui.Update: takes all of the tick's events before handling the first. The firmware interleaves the takes with the handling. Takes and handling touch disjoint state, so the result is the same.
- The `initialized` flag and guiUpdate's early return before guiInit are not modelled. A `Gui.Gui` object exists only after its constructor, which is guiInit.
- The getters are not modelled as members; their values are the object's fields. The getters are `guiGetScreen`, `guiIsEditing`, `guiGetRadioOn`, `guiGetFrequencyHz`, `guiGetModIndex` and `guiGetPwrIndex`.
- RotaryEncoder.Encoder.TakeDelta: keeps the accumulator as an unbounded integer instead of a wrapping `int32_t`. The GUI converts the value with `Wrap32`, which gives the same `int32_t` value.
- `volatile` on the accumulator is not modelled: nothing runs concurrently.
- Signed `int32_t` overflow is undefined behaviour in C++. The model gives it two's-complement wrap-around (`CInt.Wrap32`), which is what the ESP32 produces in practice.
- GuiMath.WrapI32: requires `hi - lo < INT32_MAX` when `lo <= hi`, so bounds whose span overflows `int32_t` at GUI.cpp:56 are not modelled; `Frequency.LimitFreqAsWritten` inherits this requirement even under clamp. The firmware's only call uses the constant limits, which meet it.
- GuiModel.ListRotationIsModular: stated only when the selected index plus d does not overflow `int32_t`.
- GuiModel.FreqStepSaturates: stated only when neither the product nor the sum overflows. `GuiModel.LargeDeltaOverflowsToMinimum` shows what happens when they do.
- Frequency.LimitFreqOnGrid: under wrap, stated only when the quantised frequency minus the lower bound fits in `int32_t`.
- Frequency.FormatFreqReadsBack: stated for frequencies in [0, 10^9). The GUI invariant keeps the frequency in that range.
- Gui.Gui.LimitFreq: uses the corrected wrap policy described under Findings. Under the shipped clamp policy it is the firmware's limitFreq; `Frequency.LimitFreqMatchesSourceUnderClamp` proves this.
- RadioTCP.cpp, main.cpp and radio_config are not part of this model: they are network I/O and wiring. The theme structs and lists in gui_config are mirrored as constants in `GuiConfig`.
- `readEncoderCLK`, `readEncoderDT` and `readEncoderSW` are declared in RotaryEncoder.h but not defined. They are not part of this model.

## Findings

| source | as written | input that shows it | evidently intended | confidence | as-written member | corrected member |
|---|---|---|---|---|---|---|
| lib/GUI/GUI.cpp:56-69 | with `frq_wrap` on, limitFreq quantises first and then wraps over the integer range `hi - lo + 1` | wrap enabled, 511 999 000 Hz + one 1 kHz step gives 30 000 999 Hz: off the 1 kHz grid, and displayed as "030.000" | the wrap runs over the step grid, so one step past 511.999 MHz is exactly 30.000 MHz | medium; not executed | Frequency.LimitFreqAsWritten (Frequency.WrapAsWrittenLeavesGrid) | Frequency.LimitFreq (Frequency.LimitFreqOnGrid, Frequency.WrapOnGridIsCyclic) |

The debouncers use `downMs == 0` as the "no press recorded" sentinel. A press that becomes stable exactly when the 32-bit millisecond clock reads 0 is therefore lost: it raises neither event (`Debounce.PressAtTimeZeroIsLost`). A save made in the last 2000 ms before that clock wraps shows no toast, because the toast comparison is not modular (`GuiModel.SaveNearClockWrapShowsNoToast`). Both are the firmware's behaviour and are modelled as written.
