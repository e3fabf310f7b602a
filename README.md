# Phase-shifted motor waveform synthesiser

A Dafny model of the waveform synthesiser of the motor driver in
`sonicmotors.py`. `Motors.set` takes one phase fraction per driven pin
and builds one cyclic waveform for the pigpio waveform engine. The
waveform makes the GPIO pins 19, 20, 21 and 22 carry square waves of one
frequency. Pin 19 is the reference, with phase 0 and 50 % duty. Each
other pin is shifted by its phase.

`set` works in four steps, and the model follows them:

1. The period is `1e6 // freq` microseconds (`SonicMotors.PeriodOf`).
2. A rising and a falling transition are appended for each pin. The
   reference pin rises at 0 and falls at `period / 2`. Driven pin `i`
   rises at `int(phase_i * period)` and falls half a period later, modulo
   the period (`SonicMotors.GenerateTransitions`, `Schedule.TransitionList`).
3. The transitions are sorted on the tuple `(time_us, pin, level)`
   (`Schedule.Sort`, shown equal to every sorted permutation).
4. One pass merges the transitions that share a time into one wave point
   (`Pulses.MergeTransitions`). A wave point holds the OR of `1 << pin` over
   its rising pins, the same over its falling pins, and the delay to the
   next time. The last delay closes the cycle at the period.

The merging pass is proved equal to an independent reference definition,
`Pulses.Merge`. That definition cuts the sorted list into runs of equal
times (`Pulses.Groups`) and encodes each run. The properties of the
waveform are proved about that definition.

Modules: `Bitmask` (the masks, with OR and the bit test written out on
natural numbers), `Schedule` (transitions, their times and their order),
`Pulses` (wave points, the grouping and the merging pass), `SonicMotors`
(the `Motors` class, `Set`, and the properties of the synthesised
waveform) and `Scenarios` (two concrete waveforms).

Facts about the code that the model makes precise:
- The delays add up to exactly the period whenever no transition lies
  before 0 (`SonicMotors.WavePeriodClosure`).
- `set` accepts phases up to 1, as its docstring's "max speed is 1" says.
  A phase of 1 rises at the period itself and gives a last delay of 0
  (`SonicMotors.WaveDelays`).
- The masks use the GPIO numbers 19..22 as bit positions.

## Model

| member | source | states |
|---|---|---|
| `Bitmask.BitOnly` | sonicmotors.py:59-73 | the mask `1 << q` has bit `p` set exactly when `p == q` |
| `Bitmask.OrBits` | sonicmotors.py:59-61 | a bit of the OR of `a` and `b` is set exactly when it is set in `a` or in `b` |
| `Schedule.Trunc` | sonicmotors.py:46 | `int()` truncates toward zero: a non-negative number `x` gives `n <= x < n + 1`, a negative one `n - 1 < x <= n` |
| `Schedule.RiseTime` | sonicmotors.py:46 | the rise `int(phase * period)` is the product truncated toward zero, non-negative for a non-negative phase and at most 0 for a negative one |
| `Schedule.RiseTimeInPeriod` | sonicmotors.py:36-46 | a phase in [0, 1] gives a rising time `int(phase * period)` in [0, period], and below the period when the phase is below 1 |
| `Schedule.FallTime` | sonicmotors.py:48-49 | the fall, taken on half microseconds as the float expression does, is `(rise + period / 2) mod period` in whole microseconds and lies in [0, period) |
| `Schedule.TransitionList` | sonicmotors.py:41-49 | exactly `2 + 2 * (count - 1)` transitions are appended, the first two being the reference pin's rise at 0 and fall at `period / 2` |
| `Schedule.ReadsDrivenRisesOnly` | sonicmotors.py:44-46 | only the first `count - 1` phases are read; phases beyond them change nothing |
| `Schedule.EdgesOfPins` | sonicmotors.py:41-49 | every transition is an edge of one of the configured pins |
| `Schedule.TimesWithinPeriod` | sonicmotors.py:42-49 | with rises in [0, period], every transition time lies in [0, period] and every fall in [0, period) |
| `Schedule.TimesNonNegative` | sonicmotors.py:42-49 | with non-negative rises, no transition lies before the start of the period |
| `Schedule.PinEdges` | sonicmotors.py:42-49 | with distinct pins, each pin has exactly one rising time and one falling time, the reference pin's being 0 and `period / 2` |
| `Schedule.Sort` | sonicmotors.py:51 | the result is ordered on `(time_us, pin, level)` and is a permutation of the input |
| `Schedule.Precedes` | sonicmotors.py:51 | the tuple order of `sorted` puts time first: an earlier time precedes, a preceding transition is never later, and the order is reflexive |
| `Schedule.PrecedesTotal` | sonicmotors.py:51 | any two transitions are comparable on `(time_us, pin, level)` |
| `Schedule.PrecedesAntisymmetric` | sonicmotors.py:51 | two transitions that precede each other are equal, so the tuple order is a total order |
| `Schedule.SortedUnique` | sonicmotors.py:51 | two sorted permutations of the same transitions are equal, so `Sort` yields what `sorted` yields |
| `Schedule.SortedHasSortedTimes` | sonicmotors.py:51 | a list sorted on the tuples has non-decreasing times |
| `Pulses.MaskBit` | sonicmotors.py:57-73 | the mask of a run of equal-time transitions has bit `p` set exactly when the run holds `p`'s edge to that level |
| `Pulses.GroupsCount` | sonicmotors.py:56-75 | a time-sorted list cuts into exactly as many runs as it has distinct times |
| `Pulses.MergeCount` | sonicmotors.py:56-80 | the merge emits one wave point per distinct transition time |
| `Pulses.MergeOffset` | sonicmotors.py:53-80 | wave point `j` fires at the time of run `j` (the first time plus the earlier delays), and all delays together reach `end` |
| `Pulses.MergePulse` | sonicmotors.py:57-73 | wave point `j` fires at a transition time, and raises (lowers) exactly the pins with a rising (falling) transition at that time |
| `Pulses.MergeDelaysPositive` | sonicmotors.py:57-66 | on a time-sorted list every delay but the last is positive, so equal times never give a zero-delay wave point |
| `Pulses.MergeLastDelay` | sonicmotors.py:77-80 | the last delay is `end` minus the last transition time |
| `Pulses.MergeCovers` | sonicmotors.py:56-75 | every transition time has a wave point firing at it |
| `Pulses.OffsetsIncrease` | sonicmotors.py:57-66 | with positive inner delays the wave points fire at strictly increasing times |
| `Pulses.Step` | sonicmotors.py:57-75 | one iteration leaves a wave point open at the transition's time with the transition's pin set in the mask of its level, and emits the open wave point with the gap to the new time exactly when the time changes |
| `Pulses.Scan` | sonicmotors.py:56-75 | after the loop a wave point is open exactly when there was a transition, at the last transition's time, and at most one wave point per transition has been produced |
| `Pulses.ScanMerge` | sonicmotors.py:53-80 | the iterations of the merging loop followed by the final emit compute the reference grouping `Merge` |
| `Pulses.MergeTransitions` | sonicmotors.py:53-80 | the merging loop over `prev_time`, `up_mask` and `down_mask` returns the reference grouping `Merge(s, period)` |
| `SonicMotors.PeriodOf` | sonicmotors.py:39 | the period is the floor of `1e6 / freq`: `p * freq <= 1e6 < (p + 1) * freq` |
| `SonicMotors.Raised` | sonicmotors.py:44-49 | the loop raises `ZeroDivisionError` exactly when a pin is driven, a first phase exists and the period is 0, and `IndexError` exactly when too few phases are given and no zero division comes first |
| `SonicMotors.RaisesNothingIffSchedulable` | sonicmotors.py:44-49 | the transition loop raises nothing exactly when every driven pin has a phase and the period is positive if a pin is driven |
| `SonicMotors.GenerateTransitions` | sonicmotors.py:41-49 | the transition loop returns the `IndexError` or `ZeroDivisionError` the source raises first, or the appended transitions |
| `SonicMotors.SynthesizeSucceeds` | sonicmotors.py:39-49 | synthesis fails only for too few phases (`IndexError`) or a zero period with a driven pin (`ZeroDivisionError`), the missing first phase being reported first |
| `SonicMotors.Motors.constructor` | sonicmotors.py:25-29 | a driver keeps its frequency, 3000 Hz by default, and has sent no waveform yet |
| `SonicMotors.Motors.Set` | sonicmotors.py:33-96 | records the period and the phases, then sends the synthesised wave points, or returns the error raised and leaves the waveform as it was |
| `SonicMotors.SortedTransitions` | sonicmotors.py:51 | the sorted transitions are `2 * count` in number, sorted, hold the same transitions as the appended list, and merge into the synthesised wave points |
| `SonicMotors.FirstTimeIsZero` | sonicmotors.py:42-51 | with non-negative phases the earliest sorted transition is at time 0 |
| `SonicMotors.WaveCount` | sonicmotors.py:51-80 | the wave is never empty and has one wave point per distinct transition time |
| `SonicMotors.WavePeriodClosure` | sonicmotors.py:53-80 | with non-negative phases the delays add up to exactly the period |
| `SonicMotors.WaveDelays` | sonicmotors.py:57-80 | every delay but the last is positive; the last one is the period minus the latest transition time, and is non-negative for phases in [0, 1] |
| `SonicMotors.WaveTimes` | sonicmotors.py:51-80 | with non-negative phases, the wave points fire at strictly increasing times, each at a transition time, and every transition time has its wave point |
| `SonicMotors.WaveMasks` | sonicmotors.py:57-73 | with non-negative phases, wave point `j` raises (lowers) exactly the pins with a rising (falling) transition at its time, and only configured pins |
| `SonicMotors.WaveStartsWithReference` | sonicmotors.py:42-73 | with non-negative phases, the first wave point raises the reference pin |
| `SonicMotors.PinSwitchedOnce` | sonicmotors.py:42-73 | with distinct pins and non-negative phases, each pin is raised by exactly one wave point, the one at its rising time, and lowered by exactly one, the one at its falling time |
| `Scenarios.QuarterPhase` | sonicmotors.py:33-80 | on the pin list `[19, 20]` rather than the four pins of `Motors` (not a `Motors.Set` call): period 1000 with one pin at phase 0.25 gives four wave points 250 us apart: raise reference, raise pin, lower reference, lower pin |
| `Scenarios.CoincidentRises` | sonicmotors.py:57-61 | on the pin list `[19, 20, 21]` rather than the four pins of `Motors` (not a `Motors.Set` call): two pins with equal rising times are raised by one wave point carrying both bits, and the wave has one point per distinct time |

## Left out

- The pigpio calls are not modelled: `set_mode` in the constructor, `wave_clear`, `wave_add_generic`, `wave_create` and `wave_send_repeat` at the end of `set`, and `off` (`wave_tx_stop`). They are calls into the GPIO daemon. The waveform last sent is the field `Motors.wave`.
- The `print` diagnostics of each emitted wave point are left out; they are output only.
- Floating point is not modelled. The phases are exact reals, so the rounding of the float product `phase * period` before its truncation is not captured. The period is the exact integer `1000000 / freq`, which the float floor division gives for an integer frequency. The float `period / 2` and the float modulo are modelled exactly on half microseconds.
- Negative and non-integer frequencies are not modelled: the frequency is a natural number. A float `freq` would give a float period from `1e6 // freq` that the model does not represent. A zero frequency gives the `ZeroDivisionError` of `1e6 // 0`.
- Before the first `set`, the source has no `period_us` or `phases` attribute. The model starts them at 0 and the empty sequence.
- Masks are unbounded natural numbers, as Python's integers are. The 32-bit width of pigpio's masks does not matter for pins 19 to 22.
- `SonicMotors.WavePeriodClosure`: stated for non-negative phases only. A phase with `phase * period <= -1` puts a rise before 0, and the delays then add up to the period minus that time. `Pulses.MergeOffset` states that general case.
- `SonicMotors.FirstTimeIsZero`: stated for non-negative phases only; a phase with `phase * period <= -1` puts a rise before 0.
- `SonicMotors.WaveTimes`, `SonicMotors.WaveMasks`, `SonicMotors.WaveStartsWithReference` and `SonicMotors.PinSwitchedOnce` are stated for non-negative phases, as every caller of `set` in the repository passes.
- `wiggler_cv.py` is not part of this model. It covers camera capture, marker detection, the thread handoff, video streaming and configuration loading, which are I/O and concurrency.
- `markers.py` is not part of this model. Its marker layout uses floating-point trigonometry, and its pose fit calls a library least-squares solver.
- `test1.py`, `wigglebot.py` and the tests are not part of this model. They are hardware and camera driver scripts, and the tests make no assertions about the synthesiser.
