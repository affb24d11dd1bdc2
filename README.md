# Needle clock: calibration, interpolation and smooth motion

`clock.py` drives the needles of a clock (seconds, minutes, hours) through
three PWM channels of a PCA9685 board running at 60 Hz. This project
models its core in Dafny and proves properties of the model:

- **Interpolation** (`Interpolator`). `interpolate_pwm` sorts a dial's
  calibration keys and scans the adjacent pairs for the first one that
  brackets the reference value. It interpolates linearly on that pair and
  truncates with `int()`. When no pair brackets the value, it returns the
  duty cycle of the largest key. `Interpolate` is the specification function
  and `InterpolatePwm` is the loop with its early return, proved equal to it.
  The lemmas give:
  - the value at a key;
  - the bracket formula and its bounds;
  - the fallback to the largest key (also for values below the smallest key);
  - monotonicity, for tables whose duty cycles rise and for those whose duty cycles fall;
  - range preservation.
- **Smooth motion** (`MotionController`). `move_needle_smoothly` adds
  `(end - start) / 50` to an accumulator fifty times and writes `int()` of
  it each time. The channel is modelled as a log of the values written
  (`Hardware.Channel`). The method is proved to append exactly
  `EaseWrites(start, end)`, and that sequence is proved to:
  - have 50 entries;
  - be monotone;
  - stay between the two ends;
  - finish exactly on the target.
- **Calibration** (`CalibrationSession`). `calibrate_dials` and the nested
  `calibrate_dial` form a key-driven state machine. For each checkpoint
  (seconds and minutes 0, 10, …, 60; hours 0 … 12):
  - the working value is seeded from the loaded document, or 0, and written
    to the channel;
  - the arrow keys move it by 50 or 500, clamped to [0, 65535], and each
    escape sequence writes it again;
  - space stores it in the document;
  - Enter moves on and leaves the document unchanged.

  The keyboard is a scripted sequence of events (`Keyboard.KeySource`). The
  specification is a family of functions: `Adjust` (one checkpoint's key
  loop), `Checkpoint`, `DialSession` (one dial) and `RunDials` (the three
  dials in turn). The methods `AdjustCheckpoint`, `CalibrateCheckpoint`,
  `CalibrateDial`, `CalibrateNextDial` and `CalibrateDials` are proved to
  do exactly what these functions say, both to the document and to each
  channel's log. The lemmas show:
  - which keys a dial's table ends up with;
  - which entries are kept and which are stored;
  - where each checkpoint's seed comes from;
  - that every write stays a valid duty cycle;
  - how a session that stops early relates to one that completes.
- **The clock loop** (`ClockLoop`). One pass of `run_clock`:
  - compute the fractional second, minute and twelve-hour-face hour;
  - interpolate each dial;
  - ease each needle from the previous pass's target to the new one;
  - remember the new targets.

  `Clock` holds the `last_*_pwm` variables and `Tick` is one pass.

The reals of the model are exact. Python's floats are IEEE doubles, so the
model is an idealisation of the arithmetic in `interpolate_pwm`,
`move_needle_smoothly` and the time computation. `int()` is modelled as
truncation toward zero (`PyInt.Trunc`) for values of either sign.

## Model

| member | source | states |
|---|---|---|
| PyInt.Trunc | clock.py:145 | `int()` of a real: drops the fraction toward zero, staying within one of the argument and on the same side of zero |
| Hardware.Channel.SetDutyCycle | clock.py:80 | assigning `duty_cycle` appends that value to the channel's write log and changes nothing else |
| Keyboard.KeySource.Poll | clock.py:84 | a poll hands out the next key event and removes it from those pending |
| CalibrationStore.EmptyCalibration | clock.py:63 | without a file the document has exactly the three dials, each with an empty table |
| CalibrationStore.StartingData | clock.py:59-63 | the document a session starts from: the loaded one, or three empty tables when there is no file (its laws are `StartingDataShape`) |
| CalibrationStore.StartingDataShape | clock.py:59-63 | a session starts with the file's dials and tables, or with exactly the three dials, all empty, when there is no file; with no file or a file of valid duty cycles it starts valid |
| Interpolator.SortedKeys | clock.py:137 | `sorted(keys)` is strictly increasing and holds exactly the table's keys, each once |
| Interpolator.IncreasingUnique | clock.py:137 | two strictly increasing sequences with the same elements are equal, so the sorted order is unique |
| Interpolator.LargestKey | clock.py:146 | `keys[-1]` is a key of the table and no key is larger |
| Interpolator.Lerp | clock.py:145 | the straight line through the two anchors of a pair, in exact reals (its properties are `LerpEnds` and `LerpBetween`) |
| Interpolator.ScanFrom | clock.py:138-146 | the scan from pair i on: the first bracketing pair's truncated line, else the last key's duty cycle (its properties are `ScanReachesSegment` and `ScanFallsBack`) |
| Interpolator.Interpolate | clock.py:137-146 | what `interpolate_pwm` returns: the scan over the sorted keys from the first pair (its properties are the `Interpolate…` lemmas below) |
| Interpolator.ScanReachesSegment | clock.py:138-145 | whenever pair i brackets v, the scan from any pair up to i returns pair i's truncated line (an earlier bracketing pair meets it at their shared key with the same value) |
| Interpolator.ScanFallsBack | clock.py:146 | when no pair from i on brackets v, the scan returns the duty cycle of the last key |
| Interpolator.InterpolatePwm | clock.py:137-146 | the loop returns exactly `Interpolate(table, v)`: the first bracketing pair's truncated line, else the last key's duty cycle |
| Interpolator.LerpEnds | clock.py:145 | the interpolation line passes through both anchors of its pair |
| Interpolator.LerpBetween | clock.py:145 | between the two keys of a pair the line is monotone and stays between the two duty cycles |
| Interpolator.TruncLerpBetween | clock.py:145 | the truncated line stays between the two duty cycles of its pair |
| Interpolator.InterpolateOnSegment | clock.py:138-145 | on any adjacent pair that brackets v, the result is that pair's truncated line and lies between its two duty cycles |
| Interpolator.InterpolateAtKey | clock.py:137-146 | at a calibration key the result is exactly that key's duty cycle |
| Interpolator.InterpolateFallback | clock.py:146 | below the smallest key, above the largest, or with one key, the result is the duty cycle of the largest key |
| Interpolator.SomePairBrackets | clock.py:138-139 | every value between the smallest and the largest key is bracketed by some adjacent pair |
| Interpolator.InterpolateMonotone | clock.py:137-146 | inside the key range, with duty cycles that grow with the key, the result grows with the value |
| Interpolator.InterpolateAntitone | clock.py:137-146 | inside the key range, with duty cycles that fall as the key grows, the result falls as the value grows |
| Interpolator.InterpolateInRange | clock.py:137-146 | if every duty cycle of the table lies in [lo, hi], so does the result, for every value |
| Interpolator.ExampleTable | clock.py:137-146 | with anchors 0→1000, 30→2000, 60→3000 the sorted keys are [0, 30, 60], and 15 gives 1500, 45 gives 2500, and 60, 70 and −5 all give 3000 |
| MotionController.Accumulator | clock.py:159-163 | `current_pwm` after k steps of `(end − start)/50` each (its properties are `AccumulatorBetween` and `AccumulatorMonotone`) |
| MotionController.EaseWrite | clock.py:164 | the k-th value written: `int()` of the accumulator after k steps |
| MotionController.EaseWrites | clock.py:157-164 | the 50 values one move writes, the k-th being `EaseWrite(start, end, k)` (its properties are the `Ease…` lemmas below) |
| MotionController.AccumulatorMonotone | clock.py:159-163 | the accumulator moves in the direction of travel from step to step |
| MotionController.MoveNeedleSmoothly | clock.py:148-165 | the channel receives exactly `EaseWrites(start, end)`, appended after what it had received before |
| MotionController.AccumulatorBetween | clock.py:159-163 | after k ≤ 50 steps the accumulator lies between start and end |
| MotionController.EaseWriteMonotone | clock.py:161-164 | a later write is no lower (moving up) or no higher (moving down) than an earlier one |
| MotionController.EaseEndsAtTarget | clock.py:159-164 | the last write of a move is exactly the end value |
| MotionController.EaseStaysBetween | clock.py:159-164 | every write lies between start and end, so a move between valid duty cycles writes only valid ones |
| MotionController.EaseMonotone | clock.py:159-164 | the writes are non-decreasing when moving up and non-increasing when moving down |
| MotionController.EaseEvenSteps | clock.py:159-164 | when the distance is a multiple of 50, the k-th write is exactly start + k·(distance/50) |
| MotionController.ExampleEase | clock.py:159-164 | from 1000 to 2000 the writes are 1020, 1040, …, 2000 |
| CalibrationSession.ApplyArrow | clock.py:93-102 | left gives max(0, v−50), right min(65535, v+50), up min(65535, v+500), down max(0, v−500); any other sequence leaves v; a valid duty cycle stays valid |
| CalibrationSession.Adjust | clock.py:83-105 | the key loop of one checkpoint from working value v: it consumes events and ends undecided only when they run out (one step of it is `AdjustStep`) |
| CalibrationSession.AdjustStep | clock.py:84-105 | Enter ends the loop with a skip, space with a confirm, an escape sequence writes the adjusted value and goes on, any other event is ignored |
| CalibrationSession.AdjustShowsValue | clock.py:80-105 | when the loop stops, the working value is the last value written, or the seed if nothing was written |
| CalibrationSession.AdjustInRange | clock.py:94-105 | from a valid duty cycle, the working value and every value written stay valid |
| CalibrationSession.AdjustIgnores | clock.py:84-105 | no-key polls and plain keys other than Enter and space (the escape character always arrives as an escape sequence) change neither the value, the writes nor the decision |
| CalibrationSession.AdjustCheckpoint | clock.py:83-105 | the loop's value, decision, remaining events and channel writes are exactly those of `Adjust` |
| CalibrationSession.TableOf | clock.py:69 | `calibration_data.get(label, {})`: a dial's table, empty when the dial is missing (its law with `WithTable` is `TableOfWithTable`) |
| CalibrationSession.TableOfWithTable | clock.py:69-91 | reading a dial back after storing into it gives the new table (nothing for a missing dial), and every other dial reads as before |
| CalibrationSession.Seed | clock.py:69 | `get(str(step), 0)`: the checkpoint's recorded duty cycle, or 0 (`DialSessionSeeds` shows every visit starts from it) |
| CalibrationSession.WithTable | clock.py:91 | replacing a dial's table keeps the document's dials and every other dial's table |
| CalibrationSession.Checkpoint | clock.py:69-105 | a checkpoint completes iff it is decided and, when confirmed, the dial exists; its first write is the seed `get(str(step), 0)` |
| CalibrationSession.ExampleCheckpoint | clock.py:77-105 | at a checkpoint recorded at 1000, right, up and left show 1050, 1550 and 1500 on the channel, and space stores 1500 and moves on |
| CalibrationSession.CheckpointEffect | clock.py:89-105 | a completed confirm stores the working value under the step; otherwise the table is unchanged; valid duty cycles stay valid |
| CalibrationSession.CalibrateCheckpoint | clock.py:69-105 | one pass of the step loop changes the document, the events and the channel exactly as `Checkpoint` says |
| CalibrationSession.DialSession | clock.py:68-105 | a dial visits at most its steps, completes iff it visits all of them, and every visit is decided |
| CalibrationSession.DialSessionStep | clock.py:68-105 | a dial runs its first checkpoint and goes on with the remaining steps only if that checkpoint completed |
| CalibrationSession.ConfirmedStepsIn | clock.py:89-91 | a step counts as confirmed iff some visit at that step ended with space |
| CalibrationSession.DialSessionSeeds | clock.py:69-77 | with distinct steps, every visit starts from the loaded entry for its step, or 0 |
| CalibrationSession.DialSessionKeys | clock.py:68-92 | the table's keys afterwards are the old keys plus the confirmed steps; a dial missing from the document stores nothing |
| CalibrationSession.DialSessionKeeps | clock.py:86-88 | an existing entry whose step was not confirmed keeps its value |
| CalibrationSession.DialSessionStores | clock.py:89-91 | with distinct steps, a confirmed step holds the working value it was confirmed with |
| CalibrationSession.DialSessionInRange | clock.py:80-105 | from a table of valid duty cycles, every write and every stored value is valid |
| CalibrationSession.DialSessionAfterIsDialSession | clock.py:68-105 | running a dial with earlier writes and visits carried along only puts them in front of the dial's own |
| CalibrationSession.ReplacedIsWithTable | clock.py:91 | a document with the same dials, the other tables unchanged and this dial's new table is the document with that table replaced |
| CalibrationSession.CalibrateDial | clock.py:66-105 | `calibrate_dial` changes the document, the events and the channel exactly as `DialSession` says |
| CalibrationSession.DialOnDocument | clock.py:66-105 | the document after `calibrate_dial` is the old one with this dial's table replaced by the session's table |
| CalibrationSession.CalibrateNextDial | clock.py:108-110 | one `calibrate_dial` call either ends the session with its status or hands the document and remaining events to the next dial |
| CalibrationSession.RunDial | clock.py:66-105 | one `calibrate_dial` call on the document: the dial's session on its table, seeded from the document |
| CalibrationSession.RunDials | clock.py:108-110 | the dials calibrated one after the other, stopping at the first that does not complete, with at most one run per dial |
| CalibrationSession.RunDialsOutcome | clock.py:108-110 | every dial before the last one run completed, and the last one run gives the session's status |
| CalibrationSession.RunDialsComplete | clock.py:108-110 | the session completes iff every dial ran and completed |
| CalibrationSession.LabelsHas | clock.py:108-110 | every calibrated dial's label is among the labels of the session |
| CalibrationSession.RunDialsDocument | clock.py:108-110 | the session keeps the document's dials and never touches a dial it does not calibrate |
| CalibrationSession.RunDialsKeys | clock.py:108-110 | with distinct labels, each dial that ran ends with its old keys plus the steps confirmed on it |
| CalibrationSession.RunDialsInRange | clock.py:80-110 | from a document of valid duty cycles, the document stays valid and every channel write is valid |
| CalibrationSession.DialsDistinct | clock.py:108-110 | seconds, minutes and hours are three different dials |
| CalibrationSession.StepsDistinct | clock.py:55-56 | no checkpoint is listed twice for a dial |
| CalibrationSession.FreshSession | clock.py:59-110 | started from `StartingData` without a file, the document ends with the three dials, each dial that ran holding exactly its confirmed steps, all valid |
| CalibrationSession.CalibrateDials | clock.py:44-110 | the whole session gives the document, status, remaining events and each channel's writes of `RunDials` on the starting document |
| CalibrationSession.CalibrateThreeDials | clock.py:108-110 | three `calibrate_dial` calls on their own channels, each only after the ones before completed, give `RunDials`' document, status, remaining events and per-channel writes |
| CalibrationSession.RunWritesThen | clock.py:108-110 | after a completed dial, the following dials' writes are the rest of the session's writes, shifted by one dial |
| CalibrationSession.RunWritesSingle | clock.py:108-110 | a session that stops at its first dial has writes only for that dial |
| ClockLoop.HourBase | clock.py:184 | `hour % 12 or 12` lies in [1, 12], agrees with the hour modulo 12, and is the hour itself for 1 to 12 |
| ClockLoop.CurrentSecond | clock.py:182 | the second plus the microseconds as a fraction (its range is `TimesInRange`) |
| ClockLoop.CurrentMinute | clock.py:183 | the minute plus the fractional second over 60 |
| ClockLoop.CurrentHour | clock.py:184 | the twelve-hour-face hour `HourBase` plus the fractional minute over 60 |
| ClockLoop.Targets | clock.py:186-189 | the three dials' `Interpolate` at the fractional second, minute and hour (its properties are `TickInRange` and `TickEndsAtTargets`) |
| ClockLoop.TimesInRange | clock.py:182-184 | the fractional second and minute lie in [0, 60), each within one of its whole part, and the fractional hour lies in [1, 13) |
| ClockLoop.TickInRange | clock.py:186-194 | with a document of valid duty cycles, every target and every write of a pass is a valid duty cycle |
| ClockLoop.TickEndsAtTargets | clock.py:192-199 | each needle's last write in a pass is its new target, the value the next pass starts from |
| ClockLoop.DriveDial | clock.py:187-194 | a dial's target is `interpolate_pwm` of its table, and its channel receives the move from the previous target to it |
| ClockLoop.Clock.constructor | clock.py:175-177 | before the first pass every needle counts as standing at 0 |
| ClockLoop.Clock.Tick | clock.py:179-199 | a pass sets the remembered values to the three interpolated targets, and each channel receives the move from its old value to its new target |

## Left out

- The PCA9685 board, I2C and the PWM frequency (clock.py:1-26) are not modelled. A channel is a log of the values written to it. Whether the board library rejects out-of-range duty cycles is not modelled either. `TickInRange` and `RunDialsInRange` show that valid data never produce one.
- `is_key_pressed` (clock.py:29-41) is not modelled. Terminal modes, `select` with its timeout and single-character reads are replaced by a scripted sequence of `KeyEvent`s.
- A poll that times out is `NoKey`. A plain key is `Pressed` with any character but the escape character (`PlainKey`). An escape character together with the two characters `sys.stdin.read(2)` returns is one `Escape` event. A short read of fewer than two characters is not modelled.
- The endless wait for a key is not modelled. When the script runs out, the session ends with status `Stalled`.
- The `KeyError` that `calibration_data[label][str(step)]` raises on a dial missing from a loaded file is modelled as status `MissingDial`. It is not modelled as an exception.
- JSON reading and writing (clock.py:59-61, 112-115, 118-125) are not modelled. This covers `FileNotFoundError`, `sys.exit` and the file name. Loading is the `Loaded` parameter. Saving is the returned document and status: the file is written only when the status is `Complete`.
- The tables' keys are modelled as integers. In the file they are decimal strings: `str(step)` when stored and `int(k)` when interpolating. Keys written by hand that `int()` accepts but that do not round-trip through `str()` (such as "05") are not modelled.
- `datetime.now()` is not modelled. It is the `Now` parameter of `Tick`.
- `time.sleep` (the pauses of 0.4 ms between writes, 0.02 s over 50 steps, and of 0.02 s after each pass) and the `while True` of `run_clock` are not modelled. A pass is one `Tick`.
- Command-line dispatch (clock.py:205-208) and every `print` are not modelled.
- Floating point is not modelled: IEEE doubles are idealised as exact reals. With doubles, rounding can make an accumulated or interpolated value land just below a whole number, so `int()` can be one lower than in the model.
- `Clock.Tick`: each dial's interpolation and move are grouped in `DriveDial`. The source interpolates all three dials before moving any of them. Each channel receives the same writes either way, but the interleaving of writes across the three channels is not modelled.
- `CalibrateDials`: the loop body of `calibrate_dial` is factored into `CalibrateCheckpoint`, its key loop into `AdjustCheckpoint`, each of the three calls into `CalibrateNextDial`, and the three calls together into `CalibrateThreeDials`, stated for any three dials.
- ClockLoop.Clock.Tick: requires `Ready`: the three dials are present and none of their tables is empty. The source instead raises `KeyError` at `calibration_data["seconds"]` (clock.py:187-189) for a missing dial and `IndexError` at `keys[-1]` (clock.py:146) for an empty table; the model does not capture these crashes. A completed calibration without a file that skips every checkpoint of a dial leaves that dial's table empty (`FreshSession`), so such a document makes `run_clock` crash on its first pass.
- The loaded document's contents are not validated on load, as in the source. The range properties (`DialSessionInRange`, `RunDialsInRange`, `TickInRange`) require valid duty cycles in the loaded data.
