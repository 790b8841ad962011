# RPN35 firmware core in Dafny

This project models the core of the RPN35 firmware and proves properties of that model. RPN35 is a pocket RPN calculator built on a Raspberry Pi Pico, computing in IEEE 754 decimal128. The model covers:

- **The RPN engine** (`RPN.c`). A four-level stack with LAST X, six variables A..F, and the number-entry line with its sign, decimal point and exponent. It also covers the push flag, every arithmetic, scientific and trigonometric operation with its angle conversion, the factorial loop, the two constant groups, and the display-mode getters and setters.
- **The number renderer** (`bid128_to_str` in `RPN.c`). It formats a decimal into 16- or 32-character buffers in normal, scientific and engineering mode, with banker's rounding and the pad/trim choice for trailing zeros.
- **The settings store** (`settings.c`). The flash blob, the migration from versions 1..3 to 4, CRC-32 validation, lazy loading, the dirty flag and the setters' clamping.
- **The keyboard** (`key.c`). The mapping from raw row/column codes to keys (shifted and unshifted), the debounce and auto-repeat state machine, the eight-slot event ring that drops the oldest event, and the shift latch.
- **Macros** (`macro.c`). Three slots of up to 1024 key codes each: recording, playback by injecting DOWN events, and the flash image with its round trip.
- **The settings menu** (`menu.c`) and **the constant picker** (`ui_const.c`).

The decimal128 arithmetic itself belongs to the Intel decimal library, which is not part of this model. It is a record of functions (`Decimal.Library`): the engine is proved correct for *any* library, except that the factorial loop's counter is taken as exact (see Left out), and specific facts (the factorial of a natural number, for instance) are proved for the libraries that compute exactly. Values are concrete (`Finite`, `Infinity`, `NaN`), so sign, zero, infinity, NaN and the quiet comparisons are exact.

The modules follow the firmware's files:

| module | file | form |
|---|---|---|
| `Crc` | crc.dfy | functions, and the bit loop as a method |
| `Settings` | settings.dfy | spec functions over `StoreState`, class `Store` |
| `Keys` | keys.dfy | key map and debounce functions, classes `Ring` and `Scanner` |
| `Macro` | macro.dfy | spec functions over `MacroState`, class `Recorder` over arrays |
| `Decimal` | decimal.dfy | decimal values and the library record |
| `Digits` | digits.dfy | digit strings, banker's rounding (in place on an array) |
| `Render`, `RenderExamples` | render.dfy | the renderer's layout as functions, with worked examples |
| `RenderBuffer` | render_buffer.dfy | `bid128_to_str` writing into an output array |
| `Input` | input.dfy | the entry line as a value and as class `InputBuffer` |
| `Catalogue` | catalogue.dfy | the constant tables |
| `Engine` | engine.dfy | the engine's transitions as functions over `EngineState` |
| `Rpn` | rpn.dfy | class `Calculator`: the firmware's globals and functions |
| `Picker` | picker.dfy | the constant picker, class `ConstUi` |
| `Menu` | menu.dfy | the menu's navigation, class `MenuSystem` |

Each imperative C function is a method of a class. Its contract ties the new state to a specification function of the old state (`State() == AfterOp(old(State()))`). The properties the firmware relies on are then proved as lemmas about those functions.

## Model

| member | source | states |
|---|---|---|
| Crc.MaskedStepIsConditional | settings.c:40 | the masked bit step `(crc >> 1) ^ (0xEDB88320 & -(crc & 1))` xors the polynomial in exactly when the bit shifted out is one |
| Crc.Crc32 | settings.c:32-43 | the CRC of no bytes is 0: the initial all-ones register, complemented at the end |
| Crc.UpdateAppend | settings.c:36-41 | feeding bytes is compositional: the register after `a + b` is the register after `a`, then fed `b` |
| Crc.UpdateCons | settings.c:36-41 | feeding a first byte, then the rest, is feeding the whole sequence |
| Crc.Crc32Calc | settings.c:32-43 | the byte loop computes exactly the reflected CRC-32 of its input |
| Crc.FeedByte | settings.c:38-40 | one byte xored into the register and shifted through eight bit steps |
| Crc.CheckValue | macro.c:46-57 | the standard check value: CRC-32 of "123456789" is 0xCBF43926, so the firmware's CRC is the common reflected CRC-32 |
| Crc.Word | settings.c:10-22 | a 32-bit field as its four little-endian bytes in the packed blob |
| Crc.WordRoundTrip | settings.c:10-22 | reading back the four bytes of a field gives the field |
| Crc.WordInjective | settings.c:10-22 | distinct fields have distinct byte images |
| Settings.DataBytes | RPN.h:70-76 | the 16-byte image of `init_state_t` the CRC is taken over |
| Settings.DataBytesInjective | settings.c:62-63 | two mode records have the same CRC input exactly when they are equal |
| Settings.Migrate | settings.c:57-133 | an accepted blob of version 1..4 becomes a version-4 blob with the same modes; v1 gets auto-off 10 min and contrast 40, v2 contrast 40, v1..3 digits ALL, LAST X and resume off; v4 is taken as is |
| Settings.MigrateBlob | settings.c:57-133 | the version dispatch computes `Migrate` |
| Settings.RejectedBlobGivesDefaults | settings.c:135-147 | a blob with a bad magic, version or CRC yields the defaults: NORMAL/DEG/OFF/TRIM, 10 minutes, contrast 40, all digits, LAST X, resume off |
| Settings.VersionOneMigration | settings.c:60-81 | a valid version-1 blob keeps its modes and reads back the version-4 defaults for every later field |
| Settings.MigrateIdempotent | settings.c:57-133 | migrating a migrated blob changes nothing |
| Settings.AutoOffOf | settings.c:204-212 | a stored auto-off word of 4 or more reads as 10 minutes; others read as themselves |
| Settings.AutoOffWord | settings.c:214-227 | an out-of-range mode is stored as 10 minutes |
| Settings.AutoOffMs | settings.c:229-244 | the disabled mode gives a zero timeout |
| Settings.AutoOffMsIsMinutesScaled | settings.c:229-244 | the returned timeout is the minutes of the mode, scaled |
| Settings.ClampContrast | settings.c:247-258 | the contrast read is the low six bits clamped into 25..50 |
| Settings.DigitsWord | settings.c:290-309 | a negative digit count is stored as 0xFF (ALL); more than nine as nine |
| Settings.DigitsOf | settings.c:278-288 | 0xFF reads as -1 (ALL); anything above nine as nine |
| Settings.DigitsRoundTrip | settings.c:278-309 | setting then getting the digits gives the argument clamped into -1..9 |
| Settings.LastKeyOf | settings.c:312-318 | only a stored 1 reads as UNDO |
| Settings.LastKeyRoundTrip | settings.c:312-330 | setting then getting the LAST-key mode gives it back |
| Settings.Boot | settings.c:53-149 | the corrected `settings_init` (see Findings): marks the store loaded and clean on every path, keeping the flash contents |
| Settings.BootAsWritten | settings.c:53-149 | as written, `g_have_loaded` stays false when the flash blob is rejected |
| Settings.Lazy | settings.c:151-158 | the lazy load over the corrected `settings_init`: runs it only when nothing was loaded yet |
| Settings.InitGood | settings.c:53-149 | booting and lazy loading leave a well-formed version-4 RAM copy |
| Settings.DefaultBlob | settings.c:135-147 | the defaults: an accepted version-4 blob, auto-off 10 minutes, contrast 40, ALL digits, LAST X, resume off |
| Settings.WithAutoOff | settings.c:214-227 | after the corrected lazy load, an in-range mode is stored and any other reads back as 10 minutes; the modes are kept |
| Settings.WithContrast | settings.c:260-275 | after the corrected lazy load, the stored contrast is always 25..50, and equals the low six bits of the argument when those are in range |
| Settings.WithDigits | settings.c:290-309 | after the corrected lazy load, the digits read back as -1 for a negative argument, nine above nine, the argument otherwise |
| Settings.WithLastKey | settings.c:320-330 | after the corrected lazy load, the LAST-key mode reads back as the argument |
| Settings.WithResume | settings.c:340-350 | after the corrected lazy load, resume reads back as enabled exactly when the argument is |
| Settings.ValuesChanged | settings.c:160-169 | the new modes replace the stored ones; the loaded flag, the flash and the blob's validity are kept |
| Settings.Put | settings.c:270-274 | a setter stores its value and marks the store dirty only when the value changed |
| Settings.Flush | settings.c:171-181 | saving writes the RAM copy to flash only when dirty, and clears the flag |
| Settings.Reset | settings.c:183-201 | a reset writes the defaults to both RAM and flash, leaving the store loaded and clean |
| Settings.TransitionsKeepGood | settings.c:160-350 | every setter, `settings_on_values_changed`, save and reset keep the RAM copy well-formed |
| Settings.SettersDirtyOnlyOnChange | settings.c:260-309 | the contrast and digits setters set the dirty flag exactly when the stored word changes |
| Settings.ValuesChangedDirtyOnlyOnChange | settings.c:160-169 | new modes mark the store dirty exactly when they differ from the stored ones |
| Settings.SettersIdempotent | settings.c:214-350 | setting the same value twice is setting it once |
| Settings.SetThenGet | settings.c:247-309 | with the corrected lazy load, the contrast and digits getters return what the setters stored, clamped; as written this fails on rejected flash (`LostSettingAsWritten`) |
| Settings.SavedBlobReloads | settings.c:53-181 | after a save, a reboot loads exactly the saved RAM copy |
| Settings.LostSettingAsWritten | settings.c:135-147 | as written: with erased flash, a contrast change made after the first lazy load is discarded by the next lazy load |
| Settings.SettingKeptWhenCorrected | settings.c:135-147 | with `g_have_loaded` set after defaults are taken, the same change survives and stays dirty |
| Settings.Store.constructor | settings.c:26-28 | zeroed RAM copy, not loaded, clean, over the given flash |
| Settings.Store.Init | settings.c:53-149 | makes the corrected `Boot` transition (see Findings) |
| Settings.Store.EnsureLoaded | settings.c:204-207 | the lazy load guard at the head of each accessor, over the corrected `settings_init` |
| Settings.Store.LoadInto | settings.c:151-158 | returns the stored modes after the corrected lazy load |
| Settings.Store.OnValuesChanged | settings.c:160-169 | makes the `ValuesChanged` transition |
| Settings.Store.SaveIfDirty | settings.c:171-181 | makes the `Flush` transition |
| Settings.Store.ResetToDefaults | settings.c:183-201 | makes the `Reset` transition |
| Settings.Store.GetAutoOffMode | settings.c:204-212 | corrected lazy load, then the stored mode with out-of-range words read as 10 minutes |
| Settings.Store.SetAutoOffMode | settings.c:214-227 | makes the `WithAutoOff` transition, which starts from the corrected lazy load |
| Settings.Store.GetAutoOffMs | settings.c:229-244 | corrected lazy load, then the timeout of the stored mode |
| Settings.Store.GetLcdContrast | settings.c:247-258 | corrected lazy load, then the clamped contrast |
| Settings.Store.SetLcdContrast | settings.c:260-275 | makes the `WithContrast` transition, which starts from the corrected lazy load |
| Settings.Store.GetDigits | settings.c:278-288 | corrected lazy load, then -1 for ALL or the stored count capped at nine |
| Settings.Store.SetDigits | settings.c:290-309 | makes the `WithDigits` transition, which starts from the corrected lazy load |
| Settings.Store.GetLastKeyMode | settings.c:312-318 | corrected lazy load, then UNDO exactly for a stored 1 |
| Settings.Store.SetLastKeyMode | settings.c:320-330 | makes the `WithLastKey` transition, which starts from the corrected lazy load |
| Settings.Store.GetResumeEnabled | settings.c:333-338 | corrected lazy load, then whether the stored word is non-zero |
| Settings.Store.SetResumeEnabled | settings.c:340-350 | makes the `WithResume` transition, which starts from the corrected lazy load |
| Keys.KeyAt | key.c:53-182 | every position of the 7×5 matrix maps to a key, shifted or not |
| Keys.ShiftAlternatives | key.c:53-182 | a position gives the same key with and without shift exactly for LOGXY, +/-, −, +, ENTER and SHIFT |
| Keys.LowestColumn | key.c:59-67 | the column loop finds the lowest set column bit, or -1 |
| Keys.LowestColumnIsLowest | key.c:59-67 | -1 exactly when no bit is set; otherwise the found bit is set and no lower one is |
| Keys.KeyOf | key.c:53-182 | a raw code maps to K_NONE exactly when no column bit is set or the row is out of range |
| Keys.MapRawToKey | key.c:53-182 | `map_raw_to_key` computes `KeyOf` |
| Keys.ScanColumns | key.c:59-67 | the column loop computes `LowestColumn` |
| Keys.Enqueued | key.c:28-39 | an event joins the queue's end; when seven are already queued the oldest is dropped |
| Keys.EnqueuedAll | key.c:28-39 | the queue never holds more than seven events |
| Keys.EnqueuedAllKeepsLatest | key.c:28-39 | after any stream of events the queue holds the latest seven of queue and stream together |
| Keys.LatestOfTail | key.c:28-39 | dropping the oldest of eight or more events keeps the same latest seven |
| Keys.Step | key.c:239-297 | one scan records the raw code; a shift toggle emits SHIFT DOWN; an event comes only after the code was already seen and the count reached three; a new stable code is the raw code and emits; the count stays 0..3 |
| Keys.Settle | key.c:254-284 | a settled change makes the raw code stable and emits DOWN for a press, UP for a release; shift toggles only on a SHIFT press |
| Keys.RepeatTick | key.c:285-295 | a held key only advances the repeat counter, kept below the threshold; a fired REPEAT carries the held key and restarts the counter at 200 |
| Keys.Hold | key.c:216-300 | n scans of one raw code emit at most n events and leave it as the last code seen |
| Keys.DebounceLatency | key.c:240-284 | a new raw code is reported on the fourth equal scan: nothing for three scans, then DOWN for a press or UP for a release |
| Keys.HoldQuiet | key.c:285-295 | a held key stays silent while the repeat counter is below the threshold; each scan adds five |
| Keys.RepeatAfter | key.c:285-295 | reaching the threshold emits one REPEAT and restarts the counter at 200 |
| Keys.RepeatFires | key.c:288-294 | a scan that crosses the threshold fires a REPEAT |
| Keys.RepeatCadence | key.c:288-291 | the first REPEAT comes 50 scans after a press, the following ones every 10 scans |
| Keys.HoldSplit | key.c:216-300 | holding for m + n scans is holding for m, then for n |
| Keys.Pushed | key.c:283 | a scan that emits an event enqueues it; a quiet scan leaves the queue |
| Keys.Ring.Count | key.c:19-21 | the number of queued events is (head − tail) mod 8, below 8 |
| Keys.Ring.Slot | key.c:47-48 | the i-th queued event lives at (tail + i) mod 8 |
| Keys.Ring.Contents | key.c:19-21 | the queue holds `Count()` events |
| Keys.Ring.constructor | key.c:304-306 | an empty ring |
| Keys.Ring.Enqueue | key.c:28-39 | `enqueue_event` always succeeds and makes the `Enqueued` transition |
| Keys.Ring.PushedContents | key.c:28-39 | after the head and tail move, the ring holds the enqueued sequence |
| Keys.Ring.PushedIntoRoom | key.c:30-37 | with room left, the event is appended |
| Keys.Ring.PushedOverOldest | key.c:31-35 | with the ring full, the oldest event is overwritten |
| Keys.Ring.Dequeue | key.c:41-50 | an empty ring yields the NONE event; otherwise the oldest event, which is removed |
| Keys.Ring.Clear | key.c:342 | the ring becomes empty |
| Keys.Scanner.constructor | key.c:302-306 | zeroed counters, shift off, empty ring |
| Keys.Scanner.Scan | key.c:239-297 | one scan makes the debounce `Step` and enqueues the event it emits |
| Keys.Scanner.SettleCode | key.c:254-284 | a settled new code updates the counters and enqueues its DOWN or UP event |
| Keys.Scanner.SettleCounters | key.c:254-282 | the counters after a settled change, and the event it emits |
| Keys.Scanner.AdvanceRepeat | key.c:285-295 | a held key advances the repeat counter and may enqueue a REPEAT |
| Keys.Scanner.Poll | key.c:327-333 | `key_poll` dequeues, leaving the counters alone |
| Keys.Scanner.Reset | key.c:335-344 | codes, debounce count and shift cleared, ring emptied |
| Keys.Scanner.SetShift | key.c:368-373 | only the shift latch changes |
| Keys.Scanner.GetShift | key.c:375-378 | returns the shift latch |
| Macro.Signed | macro.c:74 | the stored length read as a signed `int` |
| Macro.Clamp | macro.c:74-78 | negative lengths load as 0, lengths above 1024 as 1024 |
| Macro.Decode | macro.c:72-84 | a stored slot loads as its first `Clamp(len)` codes |
| Macro.Encode | macro.c:99-111 | a slot is stored as its clamped length and its codes, zero-filled to 1024 |
| Macro.EncodeDecode | macro.c:72-111 | loading a stored slot of at most 1024 codes gives it back |
| Macro.Loaded | macro.c:59-91 | three slots of at most 1024 codes; a rejected blob loads as three empty slots |
| Macro.Saved | macro.c:93-112 | a saved image has the magic, the version and a matching CRC |
| Macro.SaveLoadRoundTrip | macro.c:59-112 | saving then loading the three slots gives them back |
| Macro.LoadClamps | macro.c:74-78 | a length word with the top bit set loads as empty; 1025..2^31−1 loads as 1024 codes |
| Macro.AfterInit | macro.c:135-144 | `macro_init` loads the slots from flash, keeps the flash image and clears the dirty flag |
| Macro.AfterStartRecord | macro.c:149-160 | an invalid slot changes nothing; a valid one is emptied, recorded into, and stops playback |
| Macro.AfterStopRecord | macro.c:162-168 | recording stops and the slots are marked for saving |
| Macro.HasCodes | macro.c:170-175 | true exactly for a valid slot holding codes |
| Macro.CanPlay | macro.c:177-182 | playback starts exactly for a valid, non-empty slot |
| Macro.AfterPlay | macro.c:177-191 | starting playback stops recording and points at the slot's first code |
| Macro.AfterCancelPlay | macro.c:193-198 | playback stops; nothing else changes |
| Macro.AfterCapture | macro.c:200-228 | while recording, a recordable DOWN is appended and marks the slots dirty; recording stops when the slot reaches 1024; any other event changes nothing |
| Macro.Injected | macro.c:230-249 | while codes remain, the next code as a DOWN event; otherwise nothing |
| Macro.AfterInject | macro.c:230-249 | an injection advances the index by one; at the end playback stops |
| Macro.AfterSaveIfDirty | macro.c:251-257 | a dirty store writes its slots to flash and becomes clean; a clean one is unchanged |
| Macro.AfterResetAll | macro.c:259-277 | all slots emptied and saved immediately |
| Macro.ResetAllPersists | macro.c:259-277 | after a reset, the flash loads as three empty slots |
| Macro.Recorded | macro.c:200-228 | the codes a stream of events contributes to a recording |
| Macro.RecordedNotExcluded | macro.c:205-210 | a recording never holds the macro keys, MODE or OFF |
| Macro.DownsRecorded | macro.c:205-210 | DOWN events of keys that are not excluded are recorded as exactly those keys |
| Macro.RecordedReplaysAsItself | macro.c:200-249 | recording the DOWN events that playback injects gives back the same recording |
| Macro.CaptureAll | macro.c:200-228 | capturing a stream event by event keeps three slots |
| Macro.CaptureIdle | macro.c:202-203 | when not recording, every stream is ignored |
| Macro.CaptureAllAppends | macro.c:200-228 | a recording slot gains the stream's recordable codes, cut at 1024, at which point recording stops |
| Macro.RecordSession | macro.c:149-228 | start recording then any stream: the slot holds exactly the recordable codes (at most 1024); other slots are untouched |
| Macro.AfterInjecting | macro.c:230-249 | repeated injections keep the state well-formed |
| Macro.InjectInOrder | macro.c:230-249 | n injections hand out the next n codes in order, as DOWN events |
| Macro.InjectAdvances | macro.c:247 | n injections advance the index by n and change nothing else |
| Macro.Playback | macro.c:177-249 | `macro_play` then injecting replays the slot's codes in recorded order, after which playback ends |
| Macro.SaveThenBoot | macro.c:59-144 | saving then booting restores the slots |
| Macro.Recorder.constructor | macro.c:36-45 | zeroed slots, not recording, not playing, clean |
| Macro.Recorder.IsRecording | macro.c:146 | returns the recording flag |
| Macro.Recorder.IsPlaying | macro.c:147 | returns the playing flag |
| Macro.Recorder.StartRecord | macro.c:149-160 | makes the `AfterStartRecord` transition |
| Macro.Recorder.Truncate | macro.c:153 | only the chosen slot is emptied |
| Macro.Recorder.StopRecord | macro.c:162-168 | makes the `AfterStopRecord` transition |
| Macro.Recorder.Has | macro.c:170-175 | returns `HasCodes` |
| Macro.Recorder.Play | macro.c:177-191 | returns `CanPlay` and makes the `AfterPlay` transition |
| Macro.Recorder.CancelPlay | macro.c:193-198 | makes the `AfterCancelPlay` transition |
| Macro.Recorder.CaptureEvent | macro.c:200-228 | makes the `AfterCapture` transition |
| Macro.Recorder.Append | macro.c:221 | only the recording slot gains the code |
| Macro.Recorder.InjectNext | macro.c:230-249 | returns the `Injected` event and makes the `AfterInject` transition |
| Macro.Recorder.SaveIfDirty | macro.c:251-257 | makes the `AfterSaveIfDirty` transition |
| Macro.Recorder.ResetAll | macro.c:259-277 | makes the `AfterResetAll` transition |
| Macro.Recorder.Init | macro.c:135-144 | makes the `AfterInit` transition |
| Macro.Recorder.EmptyAll | macro.c:88 | all slots emptied |
| Macro.Recorder.LoadFromFlash | macro.c:59-91 | the slots become `Loaded(rom)` and the store is clean |
| Macro.Recorder.CopyAll | macro.c:71-84 | an accepted image's slots are decoded into the rows |
| Macro.Recorder.DecodeRow | macro.c:74-83 | one row decoded; the others untouched |
| Macro.Recorder.SaveToFlash | macro.c:93-133 | the flash image becomes `Saved` of the slots |
| Macro.Recorder.EncodeRow | macro.c:101-110 | one row encoded as `Encode` of the slot |
| Decimal.QuietComparisonsWithNaN | RPN.c:1451-1472 | a quiet comparison with NaN is false either way round |
| Decimal.Negated | RPN.c:1165 | negation keeps zero, infinity and NaN, and compares equal to zero exactly when its argument does |
| Decimal.NegatedTwice | RPN.c:1165 | negating twice gives the value back |
| Decimal.NegatedReversesOrder | RPN.c:1165 | negation reverses the quiet order |
| Decimal.FromNat | RPN.c:1440-1443 | integer literals are finite |
| Decimal.QuietLessEqualOfIntegers | RPN.c:1472 | on integers the quiet less-or-equal is the integer order |
| Decimal.ZerosCompareEqual | RPN.c:1456 | zeros of any sign or exponent compare equal |
| Digits.Increment | RPN.c:238-258 | adding one to a digit string keeps its length or, on carry out, grows it by one |
| Digits.RoundBankers | RPN.c:205-262 | `keep` outside 0..len−1 leaves the digits alone; otherwise `keep` digits, or `keep + 1` after a carry |
| Digits.ValueAppend | RPN.c:205-262 | the value of a concatenation is the first part shifted plus the second |
| Digits.ValueBound | RPN.c:205-262 | n digits are worth less than 10^n |
| Digits.ValueZeroIff | RPN.c:211-217 | a digit string is worth zero exactly when it has no non-zero digit |
| Digits.IncrementValue | RPN.c:238-258 | the carry loop adds exactly one to the value |
| Digits.IncrementCarry | RPN.c:250-258 | the string grows exactly when it was all nines, and then becomes 1 followed by zeros |
| Digits.IncrementAt | RPN.c:239-249 | the carry stops at the last digit that is not a nine, which goes up by one, and the nines after it become zeros |
| Digits.TailAgainstHalf | RPN.c:219-233 | the digit after the cut and the non-zero test decide whether the dropped tail is above, at or below half a unit |
| Digits.RoundsUpIsHalfEven | RPN.c:218-233 | the firmware's rounding decision is round-half-even on the values: up above half, and at exactly half only when the kept part is odd |
| Digits.RoundBankersValue | RPN.c:205-262 | the rounded digits are worth the value divided by 10^(len−keep), rounded half to even |
| Digits.RoundBankersCarry | RPN.c:250-258 | the result is one digit longer exactly when the kept digits are all nines and the rounding goes up; it is then 1 followed by zeros |
| Digits.AllNinesValue | RPN.c:250-258 | a string of n nines is worth 10^n − 1 |
| Digits.RoundBankersCarryValue | RPN.c:250-258 | a lengthened result is worth exactly 10^keep |
| Digits.RoundBankersValueAnyKeep | RPN.c:205-262 | the value statement for every `keep`, including those that return the digits unchanged |
| Digits.RoundBankersExamples | RPN.c:205-262 | 25→2, 35→4, 251→3, 5→(empty), 96→10 at one kept digit or none |
| Digits.RoundBankersInPlace | RPN.c:205-262 | `rpn_round_bankers` leaves `RoundBankers` of the digits in the array, NUL-terminated, and returns its length; the bytes after the terminator are untouched |
| Digits.ScanNonZero | RPN.c:211-217 | the loop finds whether any digit after the cut is non-zero |
| Digits.ShiftInOne | RPN.c:253-256 | the carry-out shift writes 1 followed by zeros |
| Digits.CarryInPlace | RPN.c:237-258 | the carry loop leaves `Increment` of the kept digits |
| Digits.PropagateCarry | RPN.c:238-249 | the carry loop either increments the kept digits in place or reports that all were nines and are now zeros |
| Digits.NumDigits | RPN.c:190-200 | every number has at least one digit |
| Digits.NatTextFacts | RPN.c:190-200 | the text has `NumDigits` characters, has the number's value and no leading zero |
| Digits.NumDigitsBounds | RPN.c:190-200 | n < 10^NumDigits(n), and n ≥ 10^(NumDigits(n)−1) when n ≥ 10 |
| Digits.DigitsCountInt | RPN.c:190-200 | the loop counts the decimal digits of the absolute value |
| Render.Take | RPN.c:359-371 | pushing through PUSH_CH keeps the first `maxChars` characters of what is pushed: a prefix of it, as long as it or as the limit |
| Render.TakeAppend | RPN.c:359-371 | once the limit is reached, further pushes change nothing: cutting, appending and cutting again is cutting once |
| Render.ExponentText | RPN.c:461-481 | the exponent is written as 'E', a sign and at least one digit |
| Render.ExponentTextFacts | RPN.c:461-481 | the exponent's sign is '-' exactly for a negative exponent, and its digits are the decimal text of the absolute value |
| Render.TrimZeros | RPN.c:425-428 | TRIM drops exactly the trailing zeros: a prefix that does not end in '0', followed in the input only by zeros |
| Render.TrimmedFraction | RPN.c:425-439 | a trimmed fraction is empty, or a point followed by a prefix of the digits ending in a non-zero digit |
| Render.PaddedFraction | RPN.c:440-458 | PAD writes a point and exactly `want` places: the available digits first, then zeros |
| Render.LeadDigits | RPN.c:555-560 | ENGINEERING always writes `lead` integer digits, padding with zeros past the significand |
| Render.SciBudget | RPN.c:380-392 | the SCIENTIFIC budget keeps at least one digit and no more than the significand has, and rounds to no more than it shows |
| Render.SciPlan | RPN.c:376-420 | SCIENTIFIC shows one digit before the point and a non-empty digit string |
| Render.SciReplan | RPN.c:398-420 | re-budgeting after a carry keeps the exponent and keeps a 1-then-zeros significand in that form |
| Render.IntegerDigits | RPN.c:488-494 | ENGINEERING puts 1..3 digits before the point, so that the exponent is a multiple of three |
| Render.EngBudget | RPN.c:496-512 | the ENGINEERING budget never drops below the integer digits and keeps at least one significant digit |
| Render.EngPlan | RPN.c:486-553 | ENGINEERING shows 1..3 leading digits and an exponent that is a multiple of three |
| Render.EngReplan | RPN.c:517-553 | after a carry the point moves one place right, the exponent stays a multiple of three and a 1-then-zeros significand stays so |
| Render.FractionBudget | RPN.c:653-662 | the number of fraction places that fit after the sign, the integer part and the point is never negative |
| Render.IntegerPart | RPN.c:678-692 | the integer digits: `decPos` digits (zero-padded) when the point is inside or past the significand, otherwise "0" |
| Render.FractionPart | RPN.c:694-718 | the fraction digits: leading zeros for a point left of the significand, then the significand's digits after the point |
| Render.NormalRounded | RPN.c:720-745 | rounding integer and fraction digits together keeps the integer part at least as long and at most one digit longer |
| Render.NormalParts | RPN.c:622-847 | a NORMAL rendering that does not fall back fits its integer part and writes at most the fraction budget of places |
| Render.IntegerFallsBackIffTooWide | RPN.c:630-636 | an integer falls back to SCIENTIFIC exactly when its sign and digits do not fit the width |
| Render.SciBody | RPN.c:376-485 | SCIENTIFIC writes the sign, then a digit, and always an 'E' |
| Render.EngBody | RPN.c:486-621 | ENGINEERING writes the sign, then a digit, and always an 'E' |
| Render.NormalBody | RPN.c:622-847 | NORMAL writes the sign, then a digit |
| Render.Body | RPN.c:373-847 | a rendering is never empty; it starts with '-' exactly for a negative number or −∞; SCIENTIFIC and ENGINEERING always show an 'E' |
| Render.RenderText | RPN.c:264-847 | `bid128_to_str` writes at most `bufsize - 1` characters: a prefix of the rendering of the value in the chosen mode |
| Render.RoundPowerOfTen | RPN.c:205-262 | rounding 1 followed by zeros never carries, and keeps 1 followed by zeros |
| Render.SciNoCarry | RPN.c:394-396 | without a carry, SCIENTIFIC shows the rounded digits and the exponent exp + len − 1 |
| Render.SciRounding | RPN.c:376-420 | SCIENTIFIC rounds half-to-even to its budget; on a carry it shows 1.000… with the exponent one higher |
| Render.EngNoCarry | RPN.c:515-516 | without a carry, ENGINEERING shows the rounded digits with lead + exponent at the input's point position |
| Render.EngRounding | RPN.c:486-553 | ENGINEERING shows 1..3 integer digits and a multiple-of-three exponent; lead + exponent is the point position, one further right after a carry |
| Render.PiecesAfterLead | RPN.c:421-483 | the lead digits are followed by either the point or the 'E' |
| Render.FractionStartsWithPoint | RPN.c:425-458 | a fraction is empty or starts with the point |
| Render.EngIntegerPart | RPN.c:555-599 | ENGINEERING writes exactly `lead` digits, then the point or 'E' |
| Render.SciLeadingDigit | RPN.c:421-461 | SCIENTIFIC writes exactly one digit, then the point or 'E' |
| Render.FractionChars | RPN.c:425-458 | a fraction is made of the point and digits only |
| Render.LayoutFacts | RPN.c:797-845 | a fixed-point layout has no exponent; with PAD its length is exactly sign + integer + point + budget, with TRIM at most that |
| Render.NormalIsFixedPoint | RPN.c:622-847 | NORMAL without a fallback is plain fixed point within the width: no 'E', never cut |
| Render.NormalPadFillsWidth | RPN.c:773-792 | NORMAL with PAD fills the width, or one short of it when the point and one place would not fit |
| Render.TrimLayoutEnds | RPN.c:764-772 | a TRIM layout ends in a digit, and not in a fractional zero when it has a point |
| Render.NormalTrimEnds | RPN.c:797-818 | NORMAL with TRIM ends in a digit, never in a zero after the point |
| Render.RenderTextCut | RPN.c:359-371 | glue: unfolds `RenderText` into the rendering cut to `maxChars`, the form the buffer methods state |
| Render.RenderNumber | RPN.c:373-376 | glue: unfolds `RenderText` for a finite value into the body of the display mode, cut to `bufsize - 1` |
| Render.NormalBodyFixed | RPN.c:622-847 | glue: unfolds `NormalBody` without a fallback into the fixed-point layout of its parts |
| Render.NormalExactBody | RPN.c:797-845 | when every fraction digit fits, NORMAL shows the integer and fraction digits unrounded |
| Render.NormalPartsRounded | RPN.c:720-758 | when the fraction is cut, the parts are the rounded digits split at the new integer length |
| Render.NormalRoundedFallsBack | RPN.c:735-743 | when rounding carries the integer part past the width, the SCIENTIFIC rendering is shown |
| Render.NormalRoundedBody | RPN.c:744-795 | otherwise the rounded digits are shown, with the fraction budget recomputed for the new integer length |
| Render.RoundedLayoutParts | RPN.c:746-758 | the rounded fraction is cut to the recomputed budget |
| RenderExamples.PiOnSixteenColumns | RPN.c:622-847 | π on a 16-character line in NORMAL/TRIM reads "3.14159265358979" |
| RenderExamples.LargeNumberFallsBack | RPN.c:630-636 | 10^20 does not fit 16 columns in fixed point and shows as "1E+20" |
| RenderExamples.ScientificCarry | RPN.c:394-420 | 999 on five columns in SCIENTIFIC rounds to "1E+3" |
| RenderExamples.EngineeringExample | RPN.c:486-621 | 12345 in ENGINEERING reads "12.345E+3" |
| RenderExamples.PadExample | RPN.c:773-792 | 2.5 in NORMAL/PAD reads "2.50000000000000" |
| RenderExamples.SpecialValues | RPN.c:285-316 | −∞ and NaN are copied literally and cut to the buffer: "-Inf", "-I", "" |
| RenderBuffer.Sink.constructor | RPN.c:357 | nothing written yet |
| RenderBuffer.Sink.Push | RPN.c:359-364 | PUSH_CH records the character; the buffer holds the pushed text cut to `max_chars` |
| RenderBuffer.Sink.Terminate | RPN.c:482 | the NUL goes after the cut text |
| RenderBuffer.Sink.PushRange | RPN.c:448-451 | pushing a run of source characters |
| RenderBuffer.Sink.PushZeros | RPN.c:453-456 | pushing `n` zeros |
| RenderBuffer.PushExponent | RPN.c:461-481 | the exponent loop writes `ExponentText` of the exponent |
| RenderBuffer.StoreDigitsReversed | RPN.c:472-478 | the do-while loop stores the exponent's digits least significant first |
| RenderBuffer.TrimEnd | RPN.c:426-428 | the trim loop stops at the end of the fraction without its trailing zeros |
| RenderBuffer.SciFit | RPN.c:380-392 | computes `SciBudget` |
| RenderBuffer.SciRound | RPN.c:376-420 | rounds the significand in a fresh buffer and reaches `SciPlan` |
| RenderBuffer.PushSci | RPN.c:421-483 | writes `SciLayout` of the plan |
| RenderBuffer.RenderSci | RPN.c:376-485 | the SCIENTIFIC branch writes `SciBody` |
| RenderBuffer.TruncRemThree | RPN.c:490-493 | C's truncating `%` corrected by +3 when negative is the floor remainder modulo 3 |
| RenderBuffer.EngLead | RPN.c:488-494 | computes `IntegerDigits` |
| RenderBuffer.EngFit | RPN.c:496-512 | computes `EngBudget` |
| RenderBuffer.EngRound | RPN.c:486-553 | rounds the significand in a fresh buffer and reaches `EngPlan` |
| RenderBuffer.PushEng | RPN.c:555-619 | writes `EngLayout` of the plan |
| RenderBuffer.RenderEng | RPN.c:486-621 | the ENGINEERING branch writes `EngBody` |
| RenderBuffer.IntegerBuffer | RPN.c:678-692 | fills `intbuf` with `IntegerPart` |
| RenderBuffer.FractionBuffer | RPN.c:694-718 | fills `frac_full` with `FractionPart` |
| RenderBuffer.JoinDigits | RPN.c:723-730 | `work` holds the integer digits followed by the fraction digits |
| RenderBuffer.PushNormal | RPN.c:797-845 | writes the fixed-point layout of the integer and fraction digits |
| RenderBuffer.RenderNormal | RPN.c:622-847 | the NORMAL branch writes `NormalBody`, falling back to SCIENTIFIC where the source recurses |
| RenderBuffer.NormalExact | RPN.c:797-845 | the unrounded branch writes `NormalBody` |
| RenderBuffer.NormalRounded | RPN.c:720-796 | the rounded branch writes `NormalBody` |
| RenderBuffer.PushRounded | RPN.c:744-795 | writes the rounded digits with the recomputed fraction budget |
| RenderBuffer.Bid128ToStr | RPN.c:264-847 | an empty buffer is left alone; otherwise the buffer holds `RenderText` of the value, then NUL, and the bytes after the NUL are untouched |
| RenderBuffer.FillBuffer | RPN.c:349-847 | a finite value ends up as `RenderText` followed by NUL |
| RenderBuffer.MantissaBuffer | RPN.c:318-327 | `mant` holds the significand's digits followed by NUL |
| RenderBuffer.RenderMode | RPN.c:373-847 | the mode dispatch writes `Body` of the value |
| RenderBuffer.CopySpecial | RPN.c:285-316 | Inf and NaN are copied as far as `bufsize - 1` allows, then NUL |
| Input.CountAppend | RPN.h:20-30 | the number of points or exponent marks in a concatenation is the sum of the parts' counts |
| Input.Inserted | RPN.c:1119-1126 | inserting a sign at a position shifts the characters after it right by one and keeps those before it |
| Input.CountInserted | RPN.c:1119-1126 | inserting a sign changes neither the number of points nor of exponent marks |
| Input.WithDigit | RPN.c:132-136 | below 39 characters a digit is appended, otherwise the line is unchanged; the point and exponent marks stay, and an appended digit keeps the line well-formed and ending in a digit |
| Input.WithDot | RPN.c:1046-1076 | a second point is refused; on an empty line the text becomes "0."; otherwise '.' is appended and its position recorded; the line stays well-formed |
| Input.WithExp | RPN.c:1078-1099 | a second exponent mark, an empty line or a full line leave the line alone; otherwise 'E' is appended and its position recorded; the line stays well-formed |
| Input.Toggled | RPN.c:1103-1160 | the sign toggle while keying in never moves the point or exponent marks |
| Input.ToggledConsistent | RPN.c:1103-1160 | the sign toggle keeps the line well-formed: the exponent mark stays on its 'E' and the point mark is set exactly when a '.' is present (the recorded point position itself is not tied to the '.') |
| Input.ToggleTwiceRestores | RPN.c:1107-1152 | where a sign is already present, the toggle flips it in place, so toggling twice restores the line |
| Input.Removed | RPN.c:1171-1197 | backspace drops the last character, clearing the point or exponent mark when that character was one; the line stays well-formed |
| Input.InputBuffer.constructor | RPN.c:101 | the zero-initialised `input_state`: empty text, marks at 0 |
| Input.InputBuffer.Clear | RPN.c:111-122 | `clear_input_state` empties the line, marks at -1, signs cleared |
| Input.InputBuffer.AppendDigit | RPN.c:132-136 | makes the `WithDigit` edit in the array |
| Input.InputBuffer.AppendDot | RPN.c:1046-1076 | makes the `WithDot` edit in the array |
| Input.InputBuffer.AppendExp | RPN.c:1078-1099 | makes the `WithExp` edit in the array |
| Input.InputBuffer.ToggleSign | RPN.c:1103-1160 | makes the `Toggled` edit in the array |
| Input.InputBuffer.InsertAt | RPN.c:1121-1125 | the shift loop moves the tail right and writes the sign |
| Input.InputBuffer.RemoveLast | RPN.c:1171-1190 | makes the `Removed` edit in the array |
| Catalogue.PickGroup | RPN.c:942-949 | groups 1 and 2 exist, with ten constants each; any other group is refused |
| Catalogue.Lookup | RPN.c:951-958 | a constant exists exactly for group 1 or 2 and index 0..9 |
| Catalogue.Symbol | RPN.c:976-984 | the symbol of an existing constant, non-empty; nothing otherwise |
| Catalogue.Name | RPN.c:986-994 | the name of an existing constant, non-empty; nothing otherwise |
| Catalogue.GroupSizeOf | RPN.c:996-1000 | every group reports ten entries, the length of the table |
| Catalogue.LiteralsFit | RPN.c:962-964 | every value literal fits the 48-byte copy buffer, so `strncpy` never truncates it |
| Engine.Pushed | RPN.c:59-64 | push lifts Y, Z, T and duplicates X; T is lost |
| Engine.Popped | RPN.c:66-71 | pop drops X; T is duplicated |
| Engine.Swapped | RPN.c:73-78 | swap exchanges X and Y and keeps Z and T |
| Engine.RolledUp | RPN.c:80-87 | roll up moves T to X and lifts the rest |
| Engine.RolledDown | RPN.c:89-96 | roll down moves X to T and drops the rest |
| Engine.RollsAreInverse | RPN.c:80-96 | roll up and roll down undo each other |
| Engine.SwapIsInvolution | RPN.c:73-78 | swapping twice changes nothing |
| Engine.PopUndoesPush | RPN.c:59-71 | a pop after a push restores X, Y and Z |
| Engine.FourRolls | RPN.c:80-96 | four rolls in one direction restore the stack |
| Engine.Initial | RPN.c:46-57 | after initialisation the stack and the variables hold zero, nothing is being keyed and the push flag is clear |
| Engine.Indicator | RPN.c:927-940 | the indicator is blank exactly when no variable operation is pending |
| Engine.IndicatorInjective | RPN.c:927-940 | different pending operations show different indicators |
| Engine.Canonical | RPN.c:148-154 | a zero result of any sign or exponent becomes +0; other values are kept |
| Engine.AfterOp | RPN.c:142-165 | `after_operation`: X canonical, input cleared, push set exactly when X is neither infinite nor NaN, the flags moved to the last-exception set and cleared |
| Engine.Reparse | RPN.c:1003-1019 | X is re-parsed from the line exactly when the line ends in a digit; otherwise nothing changes |
| Engine.Begin | RPN.c:127-132 | a pending push lifts the stack and clears the line before new input |
| Engine.Digit | RPN.c:1026-1044 | a digit after an operation starts a new line holding just that digit; otherwise it is appended; X is the parsed line |
| Engine.HandleDigit | RPN.c:125-139 | `handle_digit`: lift if pending, append the digit, parse the line into X |
| Engine.Dot | RPN.c:1046-1076 | the point edit after any pending lift; the line stays well-formed |
| Engine.Exponent | RPN.c:1078-1099 | the exponent edit after any pending lift |
| Engine.Toggle | RPN.c:1101-1168 | while keying in, the line's sign is toggled; otherwise X is negated with LAST X saved |
| Engine.ToggleSign | RPN.c:1101-1168 | `rpn_input_toggle_sign` keeps the stack above X, LAST X and the push flag while keying in |
| Engine.Backspace | RPN.c:1171-1197 | backspace shortens a non-empty line, never leaves a lone sign, and sets X to zero when the line empties; an empty line is untouched |
| Engine.ClearX | RPN.c:1199-1205 | X becomes zero, the line is cleared and the next number does not lift |
| Engine.Commit | RPN.c:1208-1217 | the line is parsed into X and cleared, without lifting |
| Engine.Enter | RPN.c:1219-1228 | ENTER parses the line, duplicates X into Y, lifts the stack and disables the next lift |
| Engine.Rearranged | RPN.c:1230-1247 | swap and the rolls rearrange the stack, clear the line and enable lift |
| Engine.SetX | RPN.c:872-878 | X is replaced and the old X goes to LAST X |
| Engine.Recall | RPN.c:1658-1669 | a recalled value goes to X, lifting the stack when the push flag is set, and enables lift |
| Engine.Last | RPN.c:1609-1620 | LAST X recalls the saved X |
| Engine.Literal | RPN.c:1658-1680 | π and e are parsed from their literals and recalled, their parse flags accumulated |
| Engine.VarApplied | RPN.c:890-925 | STO copies X into the slot, RCL recalls it, CLR zeroes it; the other slots and LAST X stay; the pending operation is cleared |
| Engine.ConstApplied | RPN.c:951-974 | applying a constant recalls its parsed value into X and enables lift |
| Engine.ToRadians | RPN.c:1348-1362 | DEG multiplies by π/180 and GRAD by π/200; RAD (and any other mode) passes X through without flags |
| Engine.FromRadians | RPN.c:1520-1534 | DEG multiplies by 180/π and GRAD by 200/π; RAD passes the value through |
| Engine.BoundStopsLoop | RPN.c:1469-1474 | past the bound, the loop's `k <= n` test fails, so the product loop ends |
| Engine.Product | RPN.c:1466-1487 | the product loop only adds flags |
| Engine.RisingFac | RPN.c:1466-1487 | (k−1)! times the product k·…·n is n! |
| Engine.ProductOfNaturals | RPN.c:1466-1487 | with an exact library, the loop from k with accumulator m yields m·k·…·n and no flags |
| Engine.Factorial | RPN.c:1428-1504 | a negative value or one that does not round to an integer exactly takes the Γ(x + 1) path; a non-negative value rounding exactly to 0 or 1 gives 1 with no flags |
| Engine.FactorialOfNatural | RPN.c:1428-1504 | with an exact library, `rpn_fact` of a natural number n gives n! and raises nothing |
| Engine.FactorialOfNaN | RPN.c:1438-1490 | NaN fails every quiet comparison, so the loop never runs and the result is 1 |
| Engine.NegativeUsesGamma | RPN.c:1450-1503 | a negative argument takes the gamma path |
| Engine.OperandOrder | RPN.c:1249-1332 | the two-operand keys compute Y op X, while the n-th root is X^(1/Y) |
| Engine.RadiansPassThrough | RPN.c:1348-1394 | in RAD mode the trigonometric keys hand X to the library and its result back untouched |
| Engine.Applied | RPN.c:1249-1607 | every operation key: LAST X takes X, two-operand keys drop the stack, X takes the canonical result, lift is enabled unless it is infinite or NaN, and the flags go to the last-exception set |
| Engine.Result | RPN.c:1249-1607 | the flags of every intermediate library call (1/y for the n-th root, both logarithms, x·x for the cube, the angle conversion, the inverse function) are kept in the result's flags |
| Engine.Operated | RPN.c:1249-1607 | the operation up to `after_operation` keeps the state well-shaped |
| Engine.SpecialResultDoesNotLift | RPN.c:158-163 | after a result that is infinite or NaN, the next digit overwrites X instead of lifting it into Y |
| Rpn.Calculator.constructor | RPN.c:40-44 | the zero-initialised globals: every register and variable holds the all-zero bit pattern, the modes are zero |
| Rpn.Calculator.StackPush | RPN.c:59-64 | the array becomes `Pushed` of the old one |
| Rpn.Calculator.StackPop | RPN.c:66-71 | the array becomes `Popped` of the old one |
| Rpn.Calculator.StackSwap | RPN.c:73-78 | the array becomes `Swapped` of the old one |
| Rpn.Calculator.StackRollUp | RPN.c:80-87 | the array becomes `RolledUp` of the old one |
| Rpn.Calculator.StackRollDown | RPN.c:89-96 | the array becomes `RolledDown` of the old one |
| Rpn.Calculator.StackX | RPN.c:867 | returns X |
| Rpn.Calculator.StackY | RPN.c:868 | returns Y |
| Rpn.Calculator.StackZ | RPN.c:869 | returns Z |
| Rpn.Calculator.StackT | RPN.c:870 | returns T |
| Rpn.Calculator.AfterOperation | RPN.c:142-165 | makes the `AfterOp` transition and releases shift |
| Rpn.Calculator.UpdateXFromInput | RPN.c:1012-1019 | makes the `Reparse` transition |
| Rpn.Calculator.InputClear | RPN.c:1021-1024 | only the line is cleared |
| Rpn.Calculator.AppendDigit | RPN.c:1026-1044 | makes the `Digit` transition |
| Rpn.Calculator.HandleDigit | RPN.c:125-139 | makes the `HandleDigit` transition |
| Rpn.Calculator.InputDot | RPN.c:1046-1076 | makes the `Dot` transition |
| Rpn.Calculator.InputExp | RPN.c:1078-1099 | makes the `Exponent` transition |
| Rpn.Calculator.InputToggleSign | RPN.c:1101-1168 | makes the `ToggleSign` transition; shift is released only when X is negated |
| Rpn.Calculator.InputBackspace | RPN.c:1171-1197 | makes the `Backspace` transition |
| Rpn.Calculator.ClearX | RPN.c:1199-1205 | makes the `ClearX` transition |
| Rpn.Calculator.CommitInputWithoutPush | RPN.c:1208-1217 | makes the `Commit` transition |
| Rpn.Calculator.Enter | RPN.c:1219-1228 | makes the `Enter` transition |
| Rpn.Calculator.Swap | RPN.c:1230-1235 | swaps X and Y through `Rearranged` |
| Rpn.Calculator.RollUp | RPN.c:1236-1241 | rolls up through `Rearranged` |
| Rpn.Calculator.RollDown | RPN.c:1242-1247 | rolls down through `Rearranged` |
| Rpn.Calculator.SetX | RPN.c:872-878 | makes the `SetX` transition |
| Rpn.Calculator.IsInputActive | RPN.c:1689-1692 | true exactly while the line holds text |
| Rpn.Calculator.GetInputString | RPN.c:1694-1705 | returns the line's length; copies as much of it as fits before a NUL and leaves the rest of the buffer alone; a non-positive size copies nothing |
| Rpn.Calculator.VarSetPendingOp | RPN.c:880-883 | only the pending operation changes |
| Rpn.Calculator.VarGetPendingOp | RPN.c:885-888 | returns the pending operation |
| Rpn.Calculator.VarIndicatorChar | RPN.c:927-940 | returns the `Indicator` of the pending operation |
| Rpn.Calculator.VarApplySlot | RPN.c:890-925 | succeeds exactly for a pending operation and a slot 0..5, then makes the `VarApplied` transition; otherwise nothing changes |
| Rpn.Calculator.ConstApply | RPN.c:951-974 | succeeds exactly for group 1 or 2 and index 0..9, then makes the `ConstApplied` transition; otherwise nothing changes |
| Rpn.Calculator.LastX | RPN.c:1609-1620 | makes the `Last` transition |
| Rpn.Calculator.InputPi | RPN.c:1658-1669 | recalls the π literal |
| Rpn.Calculator.InputE | RPN.c:1671-1680 | recalls the e literal |
| Rpn.Calculator.Apply | RPN.c:1249-1607 | every operation key makes the `Applied` transition and releases shift |
| Rpn.Calculator.Operate | RPN.c:1249-1607 | the part before `after_operation` makes the `Operated` transition |
| Rpn.Calculator.Evaluate | RPN.c:1249-1607 | the library calls of each key compute `Result` |
| Rpn.Calculator.ConvertAngleToRad | RPN.c:1348-1362 | computes `ToRadians` in the current angle mode |
| Rpn.Calculator.ConvertAngleFromRad | RPN.c:1520-1534 | computes `FromRadians` in the current angle mode |
| Rpn.Calculator.Factorial | RPN.c:1428-1504 | the loop computes the `Factorial` specification |
| Rpn.Calculator.GetLastExceptions | RPN.c:169-172 | returns the flags of the last operation |
| Rpn.Calculator.GetDispMode | RPN.c:1623 | returns the display mode |
| Rpn.Calculator.GetZeroMode | RPN.c:1624 | returns the zero mode |
| Rpn.Calculator.GetAngleMode | RPN.c:1625 | returns the angle mode |
| Rpn.Calculator.GetHyperbolicMode | RPN.c:1626 | returns the hyperbolic mode |
| Rpn.Calculator.SetDispMode | RPN.c:1629-1638 | sets the display mode and hands the modes to the settings store, which marks itself dirty only on a change |
| Rpn.Calculator.SetZeroMode | RPN.c:1639-1643 | sets the zero mode and notifies the store |
| Rpn.Calculator.SetAngleMode | RPN.c:1644-1648 | sets the angle mode and notifies the store |
| Rpn.Calculator.SetHyperbolicMode | RPN.c:1649-1653 | sets the hyperbolic mode and notifies the store |
| Rpn.Calculator.SettingsMaybeSave | RPN.c:1683-1686 | makes the store's `Flush` transition |
| Rpn.Calculator.Init | RPN.c:852-860 | loads the settings into the modes (through the corrected lazy load), then resets the stack, variables and line to `Initial` |
| Rpn.Calculator.StackInit | RPN.c:46-57 | zeroes the stack, LAST X and the variables and clears the pending operation |
| Rpn.Calculator.LoadSettings | RPN.c:179-183 | the modes become the stored ones after the corrected lazy load; the engine state is unchanged |
| Picker.Opened | ui_const.c:37-43 | opening selects the first entry of the group and activates the picker |
| Picker.DigitChoice | ui_const.c:65-104 | exactly the digit keys choose an entry: 1..9 choose 0..8 and 0 chooses 9 |
| Picker.Numeral | ui_const.c:17 | the numeral shown for an entry is a digit |
| Picker.NumeralMatchesKey | ui_const.c:17 | the numeral shown for an entry is the label of the digit key that chooses it, and that key chooses exactly it |
| Picker.Next | ui_const.c:50-137 | ignored when closed, for releases and for MODE/P1/P2/P3/PR; digits choose; C1 and C2 switch group; ENTER, DEL and OFF close; the selection stays 0..9 |
| Picker.RollsUndoEachOther | ui_const.c:105-112 | ROLL and ROLLUP walk the ten entries in opposite directions, so each undoes the other |
| Picker.RollCycle | ui_const.c:105-108 | n ROLL presses advance the selection by n modulo 10, so ten come back to the start |
| Picker.ConstUi.constructor | ui_const.c:6-8 | the zero-initialised globals: closed, group 0, first entry |
| Picker.ConstUi.Open | ui_const.c:37-43 | makes the `Opened` transition |
| Picker.ConstUi.IsOpen | ui_const.c:45-48 | returns whether the picker is active |
| Picker.ConstUi.HandleKey | ui_const.c:50-137 | makes the `Next` transition and reports exactly the closing keys as handled; ENTER applies the selected constant to the engine; the closing keys release shift; nothing else touches the engine or the keyboard |
| Menu.RootFormed | menu.c:336-400 | the menu tables are well-formed: every submenu has children, enums at least one value |
| Menu.CRem | menu.c:753 | C's `%` for the enum step: the Euclidean remainder for non-negative operands, always strictly inside (−n, n) |
| Menu.Opened | menu.c:408-417 | opening shows the root menu with its first item selected and requests a redraw; the knob values are untouched |
| Menu.Closed | menu.c:420-425 | closing empties the frame stack and keeps the knob values and the redraw flag |
| Menu.Back | menu.c:677-691 | going back pops one level, keeping the parent frames, and requests a redraw; at the root it closes the menu |
| Menu.Adjusted | menu.c:740-768 | + and − step an enum within 0..count−1 and a value within [min, max] |
| Menu.MoveDown | menu.c:701-716 | ROLL changes only the top frame's position, keeping its menu, the parent frames and the knobs; a selection inside the menu and the two-line window stays so |
| Menu.MoveUp | menu.c:717-732 | ROLLUP changes only the top frame's position, keeping its menu, the parent frames and the knobs; a selection inside the menu and the two-line window stays so |
| Menu.SetKnob | menu.c:745-768 | writes the item's knob and requests a redraw; every other knob and the frames are unchanged |
| Menu.Entered | menu.c:776-818 | ENTER keeps the frame stack well-formed, pushes at most one frame, and changes nothing on an item it does not act on |
| Menu.Selecting | menu.c:734-818 | the selected item's key handling keeps the frame stack well-formed and changes nothing for keys it does not consume |
| Menu.Performed | menu.c:330-373 | an action either leaves the menu state as it was or closes the menu |
| Menu.Selected | menu.c:734-737 | an item is selected exactly when the index is inside the current menu |
| Menu.Next | menu.c:663-821 | events the menu does not see (releases, empty events, a closed menu) change nothing, and CLR, DEL and a pressed OFF make the `Back` transition |
| Menu.OpenedGood | menu.c:408-425 | opening and closing leave the frame stack well-formed |
| Menu.NextKeepsGood | menu.c:663-821 | every key keeps the frame stack well-formed: at most six frames, each index inside its menu, the index visible in the two-line window |
| Menu.RollsDoNotWrap | menu.c:701-731 | ROLL and ROLLUP move the selection one item and stop at the ends without wrapping |
| Menu.DownThenUp | menu.c:701-731 | ROLL then ROLLUP returns to the same item |
| Menu.BackPops | menu.c:677-691 | a back key pops exactly one frame, closes at the root, is consumed and releases shift |
| Menu.EnterPushes | menu.c:776-791 | ENTER on a submenu pushes a frame at its first item, unless six frames are open, when nothing happens |
| Menu.EnumStep | menu.c:745-755 | + on an enum goes to the next value, wrapping to 0; − to the previous, wrapping to count−1 |
| Menu.EnumStepsUndo | menu.c:745-755 | + and − on an enum undo each other |
| Menu.EnumCycles | menu.c:747-749 | k presses of + advance an enum by k modulo its count |
| Menu.IgnoredKeys | menu.c:665-668 | with the menu closed, or for releases and empty events, nothing changes, nothing is consumed and shift stays |
| Menu.DigitsRow | menu.c:80-84 | ALL digits is row 0 of the digits enum, n digits row n+1 |
| Menu.RowDigits | menu.c:85-91 | row 0 sets ALL digits, row r sets r−1 digits |
| Menu.DigitsRowsRoundTrip | menu.c:80-91 | each of the eleven rows written through the settings store reads back as the same row |
| Menu.MenuSystem.constructor | menu.c:402-405 | the zero-initialised `g_menu`: closed, no frames |
| Menu.MenuSystem.Open | menu.c:408-417 | makes the `Opened` transition and releases shift |
| Menu.MenuSystem.Close | menu.c:420-425 | makes the `Closed` transition and releases shift |
| Menu.MenuSystem.IsOpen | menu.c:428-431 | returns whether the menu is open |
| Menu.MenuSystem.NeedsRedraw | menu.c:824-827 | returns the redraw flag |
| Menu.MenuSystem.ClearRedraw | menu.c:830-833 | only the redraw flag is cleared |
| Menu.MenuSystem.GoBack | menu.c:677-691 | makes the `Back` transition and releases shift |
| Menu.MenuSystem.ScrollDown | menu.c:701-716 | makes the `MoveDown` transition |
| Menu.MenuSystem.ScrollUp | menu.c:717-732 | makes the `MoveUp` transition |
| Menu.KeysReset | menu.c:137-141 | after the confirmed factory reset, `key_reset` leaves both codes and the debounce count at zero and shift released, keeping the repeat ticks |
| Menu.MenuSystem.Perform | menu.c:793-798 | runs an action, requests a redraw, and releases shift for every action except ABOUT; a confirmed factory reset runs `key_reset`, emptying the event ring; otherwise the ring is left as it was |
| Menu.MenuSystem.Choose | menu.c:776-818 | makes the `Entered` transition for ENTER and reports whether the item reacts to it; the keyboard changes as `Perform` says |
| Menu.MenuSystem.HandleKey | menu.c:663-821 | makes the `Next` transition, reports the consumed keys as handled, releases shift exactly where the source does, and resets the keyboard exactly on a confirmed factory reset |
| Menu.MenuSystem.Select | menu.c:734-821 | the key handling for the selected item makes the `Selecting` transition; the keyboard changes as `Perform` says |

## Left out

- Flash I/O: reading and programming the flash sectors and the padding to a flash page are not modelled. The flash is a parameter (`rom`), and saving yields the bytes or blob that would be written.
- Display: the LCD driver and every screen drawn on it are not part of this model. This covers `render_const_ui`, the menu's rendering, the contrast screen and the about screen of `action_about`.
- Hardware: GPIO scanning of the key matrix, interrupt masking, `key_scan_pause`/`key_scan_resume`, timers, clocks and sleep are not modelled. The raw key code is a parameter of `Keys.Scanner.Scan`, and time is counted in scans: each call stands for one tick of the scan timer.
- Decimal.Library: the Intel decimal library (string parsing, arithmetic, rounding of inexact results, the transcendental functions) is not part of this model. It is an arbitrary record of functions, so every engine property holds for any library, apart from the factorial counter's increment (`Engine.Product` below). The rounding mode and the flags raised by quiet comparisons are not modelled.
- Decimal.Library: the literal parses of "0", "1" and "2" are taken as exact and flag-free.
- Rpn.Calculator.Factorial: the loop carries an extra guard `k <= Bound(n)` so that its termination is visible. Below +Inf it changes nothing. Its counter is an exact natural number, and its increment raises no flags; the source adds 1 through the library (RPN.c:1486).
- Engine.Product: the loop counter is an exact natural number and its increment raises no flags. The source adds 1 through the library (RPN.c:1486); a correctly rounding decimal128 library does so exactly for every counter below 10^34, and the product overflows decimal128 to infinity long before the counter gets that large.
- Engine: `rpn_undo`, `rpn_reset_stack_only`, `rpn_reset_vars_only`, `rpn_reset_memory`, `rpn_get_state` and `rpn_set_state` are declared in `RPN.h` but not defined in `RPN.c`. Their definitions are not part of this model.
- Engine: the zero-initialised globals before `rpn_init` are the all-zero decimal bit pattern, modelled as a positive finite zero.
- Rpn.Calculator.GetInputString: a null output buffer is not modelled, because a Dafny array reference is never null.
- RenderBuffer.Bid128ToStr: requires a buffer of at most 60 characters and a significand of 1..34 digits, so the firmware's fixed scratch buffers never truncate. The input is the decimal's decomposition (sign, digits, exponent); the library's own string output, which the firmware parses to get it, is not modelled.
- Macro: a slot's content is its first `len` key codes. The codes the RAM arrays still hold past that length are never read, and saving writes zeros there. The null check on `out_ev` in `macro_inject_next` has no counterpart, because a Dafny out-parameter always exists.
- Keys: the firmware's single key-scanner state is split into `Ring` (the event queue) and `Scanner` (debounce, auto-repeat and the shift latch).
- Menu: the knob values are an integer map that the menu reads and writes. The calls into the real setters of the engine and the settings store are not modelled.
- Menu.Performed: the stack, variable, memory and factory resets, the contrast adjustment and the about screen act only on the menu's own state here. Their effects on the engine, the settings store, the macro slots (`macro_reset_all`, menu.c:133) and the display are not modelled. The factory reset's `key_reset` (menu.c:139) is made by `Menu.MenuSystem.Perform`.
- Menu.Performed: the factory reset's confirmation dialog is a parameter (`confirm`).
- Menu.MenuSystem.Perform: the dialogs of the factory reset, the contrast adjustment and the about screen take events off the ring with `key_poll` (menu.c:113, 185, 323) until they are answered. Here the answer is the parameter `confirm`, and the ring is left as it was except for the confirmed reset's `key_reset`. `macro_reset_all`, `settings_reset_to_defaults` and `init_rpn` (menu.c:132-136) are not called.
- Menu.MenuSystem.Choose: runs the actions through `Perform`, so the dialogs' `key_poll` and the factory reset's calls into the macro, settings and engine modules are left out as there.
- Menu.MenuSystem.Select: reaches the actions through `Choose`, with the same omissions as `Perform`.
- Menu.MenuSystem.HandleKey: reaches the actions through `Select`, with the same omissions as `Perform`.
- Settings.Boot: models `settings_init` with the correction under Findings: the loaded flag is set on the defaults path too. As written (`Settings.BootAsWritten`), the flag stays false when the flash blob is rejected.
- Settings.Lazy: builds on the corrected `Boot`. As written (`Settings.LazyAsWritten`), on rejected flash every accessor re-runs `settings_init`, which puts the defaults back in RAM and clears the dirty flag.
- Settings.SetThenGet: holds for the corrected lazy load only. As written it fails on rejected flash, as `Settings.LostSettingAsWritten` shows.
- Settings.Store.Init: sets the loaded flag on every path (the corrected `Boot`), which the firmware's defaults path does not.
- Settings.Store.EnsureLoaded: makes the corrected `Lazy` transition; as written it would reload the defaults on every call while the flash blob is rejected.
- Settings.Store.LoadInto: reads after the corrected lazy load; as written, a change made since the last load is lost on rejected flash.
- Settings.Store.GetAutoOffMode: starts from the corrected lazy load; as written, on rejected flash it first puts the defaults back, discarding earlier unsaved changes.
- Settings.Store.SetAutoOffMode: starts from the corrected lazy load; as written, on rejected flash it first puts the defaults back, discarding earlier unsaved changes.
- Settings.Store.GetAutoOffMs: starts from the corrected lazy load; as written, on rejected flash it first puts the defaults back, discarding earlier unsaved changes.
- Settings.Store.GetLcdContrast: starts from the corrected lazy load; as written, on rejected flash it first puts the defaults back, discarding earlier unsaved changes.
- Settings.Store.SetLcdContrast: starts from the corrected lazy load; as written, on rejected flash it first puts the defaults back, discarding earlier unsaved changes.
- Settings.Store.GetDigits: starts from the corrected lazy load; as written, on rejected flash it first puts the defaults back, discarding earlier unsaved changes.
- Settings.Store.SetDigits: starts from the corrected lazy load; as written, on rejected flash it first puts the defaults back, discarding earlier unsaved changes.
- Settings.Store.GetLastKeyMode: starts from the corrected lazy load; as written, on rejected flash it first puts the defaults back, discarding earlier unsaved changes.
- Settings.Store.SetLastKeyMode: starts from the corrected lazy load; as written, on rejected flash it first puts the defaults back, discarding earlier unsaved changes.
- Settings.Store.GetResumeEnabled: starts from the corrected lazy load; as written, on rejected flash it first puts the defaults back, discarding earlier unsaved changes.
- Settings.Store.SetResumeEnabled: starts from the corrected lazy load; as written, on rejected flash it first puts the defaults back, discarding earlier unsaved changes.
- Rpn.Calculator.Init: reads the settings through the corrected lazy load. As written, on rejected flash each getter re-runs `settings_init` first; at boot that yields the same default modes.
- Rpn.Calculator.LoadSettings: reads the settings through the corrected lazy load; as written, on rejected flash any unsaved setting change would be replaced by the defaults.

## Findings

| source | as written | input that shows it | evidently intended | confidence | as-written member | corrected member |
|---|---|---|---|---|---|---|
| settings.c:135-147 | when the flash blob is rejected, `settings_init` takes the defaults but leaves `g_have_loaded` false, so every accessor runs `settings_init` again and discards the RAM copy | erased flash; set the contrast to 30 after the first lazy load, then read it: it reads 40 and the change is no longer dirty | set `g_have_loaded` once the defaults are taken, so later accessors keep the RAM copy | not executed | Settings.LostSettingAsWritten | Settings.SettingKeptWhenCorrected |
