# infinitree LED driver — a Dafny model

infinitree is a CircuitPython program for a small board that drives four PWM
LEDs on a Christmas-tree decoration. It plays scenes of animations in a loop.
Each animation maps a global frame number onto its own period and writes a
brightness to the LEDs it owns. A one-line state file on the board's flash
survives power cycles and gives a single button (the reset button) an on/off
meaning: a run that is cut short puts the board to sleep at the next
power-on, and the power-on after that wakes it again. While a USB host is
connected the flash is read-only to the board. Nothing is then written and
the power-on check never halts; the timed shutdown at the end of a run still
blanks the LEDs and stops the program.

This project models `code.py`'s core:

- the LED channel (`Led.on/off/set`);
- the frame-to-phase mapping of `Animation.exec` and `set_all`;
- the three render variants whose behaviour is exact: `Blink`, `Static` and `RandomGlitch`;
- the clock arithmetic (`elapsed`, `frame_number`);
- the scene rotation of `App.update_animation_set`;
- the persisted activation protocol (`init_state_file`, `get_last_state`,
  `set_state`, `halt`, and the start-up branch of `run`).

Intensities, durations and phases are exact reals. Python's `int()`
(truncation toward zero, `Numeric.Trunc`) and its float `%` (the remainder
takes the divisor's sign, `Numeric.FloorMod`) are written out in module
`Numeric`; `math.floor` is Dafny's built-in `.Floor` on reals.

Modules, one file each:

| module | file | models |
|---|---|---|
| `Numeric` | numeric.dfy | `int()`, float `%`, `Option`/`Result` |
| `Leds` | led.dfy | class `Led` and its duty-cycle clamp |
| `Phases` | phases.dfy | `frame_count` and `exec`'s phase |
| `Glitch` | glitch.dfy | `RandomGlitch` construction and interpolation |
| `Animations` | animation.dfy | render variants, class `Animation` |
| `Clock` | clock.dfy | `elapsed`, `frame_number` |
| `Scenes` | scenes.dfy | scene rotation |
| `Activation` | activation.dfy | the state file's protocol, as values |
| `Application` | app.dfy | class `App` and the program's top level |

Some behaviours of the code as written are proved as they are:

- The very first power-on without USB creates the state file holding ACTIVE. It reads that back and goes straight to sleep (`Activation.FirstBootSleeps`).
- The scene check looks only at whole seconds. Two checks inside one switch second both advance the scene (`Scenes.TwoChecksInOneSwitchSecond`).
- Scene 1 pairs two blinkers half a second apart. Both are dark on the first frame of every second (`Animations.HalfPeriodBlinkersAlternate`).
- A state file holding anything but the two tokens makes every boot run (`Activation.UnrecognisedFileAlwaysRuns`).

## Model

| member | source | states |
|---|---|---|
| Numeric.Trunc | code.py:56-57 | Python's `int()` on a float: the integer between 0 and `x` that is less than one away from `x` |
| Numeric.FloorMod | code.py:82-83 | Python's `x % n`: the remainder has the divisor's sign, is smaller than the divisor in magnitude, and `r / n` lies in `[0, 1)` |
| Numeric.FloorModPeriodic | code.py:82-83 | adding whole multiples of the divisor does not change the remainder |
| Numeric.FloorModMatchesIntMod | code.py:82-83 | on whole numbers with a positive divisor, the float remainder is the integer remainder |
| Leds.DutyFor | code.py:54-58 | the duty cycle `set` writes never exceeds the channel's ceiling; any `pct >= 1` gives exactly the ceiling; for `pct` in `[0, 1]` it is the ceiling times `pct`, truncated |
| Leds.Led.constructor | code.py:44-46 | a channel starts at duty cycle 0 with its given ceiling |
| Leds.Led.On | code.py:48-49 | `on` sets the ceiling |
| Leds.Led.Off | code.py:51-52 | `off` sets 0 |
| Leds.Led.Set | code.py:54-58 | `set` writes the clamped duty cycle; never above the ceiling |
| Phases.FrameCount | code.py:79 | `frame_count` is nonnegative for nonnegative inputs and at least 1 once duration × rate reaches 1 |
| Phases.Phase | code.py:81-87 | the phase `exec` passes to `render`: `0 <= completed < 1`, `frame_in_animation == completed * frame_count`, and inside `[0, frame_count)` for a positive count |
| Phases.PhasePeriodic | code.py:81-87 | `exec(f)` and `exec(f + k * frame_count)` pass `render` the same arguments |
| Phases.FirstPeriodIsIdentity | code.py:82-83 | without an offset, frames of the first period map to themselves |
| Phases.WholeOffsetWholeFrame | code.py:82-83 | an offset of whole frames keeps `frame_in_animation` whole |
| Glitch.ShapeFor | code.py:117-132 | on success: at least one segment, `frames_per_glitch * segments == frame_count`, the glitch duration is the default `duration / 10` when 0 was passed, and the segment count is `int(duration / glitch_duration)` |
| Glitch.ExactQuotient | code.py:132 | `math.floor(frame_count / len)` is the exact quotient once the division check passed |
| Glitch.DefaultHasTenSegments | code.py:119-132 | with the default glitch duration there are ten segments, and construction succeeds exactly when `frame_count` is a multiple of 10 |
| Glitch.SceneGlitchesBuild | code.py:195-243 | the candle and the default flickers of the scene table build at 25 frames a second, with ten segments each |
| Glitch.RaisesExactlyWhenIndivisible | code.py:126-130 | with at least one segment, `ValueError` is raised exactly when the segment count does not divide `frame_count` |
| Glitch.NewRandomGlitch | code.py:117-132 | the constructor fails exactly as `ShapeFor` does; on success it holds one level per segment, the i-th being the i-th random draw |
| Glitch.GlitchLevel | code.py:134-145 | the flicker level lies between the level of its segment and that of the next one, and equals its segment's level on the segment's first frame |
| Glitch.SegmentBounds | code.py:136-143 | inside the period the segment index is a valid index, `0 <= steps < frames_per_glitch`, the segment after index `i` is `i + 1`, except that the last one wraps to segment 0, and whole positions give whole steps |
| Glitch.SegmentOfPhase | code.py:136-138 | every phase `exec` produces falls in one of the segments |
| Glitch.SegmentStartsAtItsLevel | code.py:141-145 | the first frame of segment i shows level i |
| Glitch.LevelInUnitRange | code.py:127-145 | levels drawn from `[0, 1]` give a brightness in `[0, 1]` |
| Animations.RenderValue | code.py:134-168 | what `render` hands to `set_all`: nothing exactly when a static hold is already set; a static hold writes its `pct`; a flicker writes a level between its segment's two levels |
| Animations.BlinkDarkThenLit | code.py:152-156 | a blink without an offset is dark for the first half of every period, the midpoint included, and lit for the second half |
| Animations.HalfPeriodBlinkersAlternate | code.py:206-213 | scene 1's two blinkers, half a second apart at 25 frames a second, show exactly one lit LED group on every frame except the first of each second, where both are dark |
| Animations.StaticWritesOnce | code.py:165-168 | over any run of frames a static hold writes `pct` on its first render only, and never afterwards |
| Animations.ReplayIsTimeIndexed | code.py:81-87 | for the other variants each write depends on its own frame only, not on what was rendered before |
| Animations.ReplayPeriodic | code.py:81-87 | hence their writes repeat with the period |
| Animations.Animation.constructor | code.py:62-79 | the animation keeps its parameters, `frame_count` is `int(duration * frame_rate)` and a static hold starts unset |
| Animations.Animation.SetAll | code.py:92-95 | every owned LED is set to `pct * scale_max`; no other LED changes; every owned LED stays within its ceiling |
| Animations.Animation.Render | code.py:134-168 | writes `RenderValue` to every owned LED, or leaves them all untouched, and sets the static flag as `render` does |
| Animations.Animation.Exec | code.py:81-87 | renders the phase of the frame; a zero `frame_count` is reported instead of raising |
| Animations.NewGlitchAnimation | code.py:116-132 | fails with exactly the constructor's error when the shape is invalid; otherwise a fresh, valid, unset animation with the given LEDs, duration, frame rate, offset and scale, whose flicker has the shape's glitch duration and frames per glitch and whose i-th level is the i-th draw |
| Clock.Elapsed | code.py:283-285 | seconds since the start, nonnegative once the clock has passed the start |
| Clock.FrameNumber | code.py:287-289 | the whole frames since the start: `frame <= frame_rate * elapsed < frame + 1` |
| Clock.FrameNumberMonotone | code.py:287-289 | the frame number never goes backwards |
| Clock.OneSecondIsFrameRateFrames | code.py:287-289 | each second adds exactly `frame_rate` frames |
| Scenes.RotateScene | code.py:268-275 | nothing changes in the first two seconds; the intro is left for scene 1 at the first check after them; the index stays in the table and never returns to 0 once it has left |
| Scenes.SwitchSecond | code.py:272 | `int(elapsed % switch_every) == 0` exactly when the whole seconds elapsed are a multiple of `switch_every` |
| Scenes.RotatesOnSwitchSeconds | code.py:268-275 | past the intro the scene changes exactly on switch seconds, to the next scene, wrapping from the last to 1 |
| Scenes.RotateAll | code.py:268-275 | any run of checks keeps the index inside the table |
| Scenes.IntroNeverReturns | code.py:272-275 | once left, the intro never comes back |
| Scenes.IntroEndsAfterTwoSeconds | code.py:269-275 | any check after two seconds leaves the intro for good |
| Scenes.TwoChecksInOneSwitchSecond | code.py:272 | checks at 15.2 s and 15.7 s both advance the scene, from 1 to 3 |
| Activation.Strip | code.py:308 | `strip()` returns a slice of the text with only whitespace before and after it, that neither starts nor ends with whitespace, and the text itself when it already did not |
| Activation.StripNewline | code.py:308 | a token written with a trailing newline reads back as the token |
| Activation.LastState | code.py:304-310 | UNKNOWN without a file, otherwise a slice of its content; a file holding a token reads back as that token |
| Activation.Persist | code.py:318-327 | with USB nothing is written; otherwise the file then holds the state |
| Activation.WrittenStateReadsBack | code.py:304-327 | a state without surrounding whitespace that `set_state` writes is what `get_last_state` reads back; with USB the previous state is read |
| Activation.BootStorage | code.py:312-316 | without USB a missing file is created holding ACTIVE; an existing file is left alone |
| Activation.Startup | code.py:329-342 | it halts exactly when the file says ACTIVE and there is no USB, and halting stores SLEEP; a stored SLEEP wakes and stores ACTIVE; anything else runs with the file untouched; with USB the file never changes |
| Activation.PowerOn | code.py:367-368 | from power-on the board sleeps exactly when there is no USB and the file is missing or says ACTIVE |
| Activation.Shutdown | code.py:295-302 | the timed shutdown stores SLEEP unless USB is connected |
| Activation.FirstBootSleeps | code.py:335-337 | the first power-on without USB and without a file halts and stores SLEEP |
| Activation.UsbPowerOnRunsWithoutWriting | code.py:318-320 | with USB, the power-on check always runs and never changes the file |
| Activation.SleepWakes | code.py:341-342 | a stored SLEEP always runs and, without USB, stores ACTIVE |
| Activation.InterruptedRunStopsNextBoot | code.py:334-342 | a woken run cut short makes the next power-on halt |
| Activation.CompletedRunWakesNextBoot | code.py:351 | a run that reaches its timed shutdown makes the next power-on run |
| Activation.BootsAlternate | code.py:329-342 | without USB, with a missing file or a token in it, halting and running power-ons alternate |
| Activation.UnrecognisedFileAlwaysRuns | code.py:335-342 | a file holding neither token makes every power-on run, untouched |
| Application.App.constructor | code.py:172-189 | the file is prepared as `BootStorage` says, four distinct fresh LEDs are registered with the source's ceilings, all are off, and the intro scene is selected |
| Application.App.RegisterLed | code.py:253-256 | appends a fresh LED at duty cycle 0 with the given ceiling |
| Application.App.Blank | code.py:258-260 | every registered LED is off afterwards |
| Application.App.SetState | code.py:318-327 | the file becomes `Persist` of the state |
| Application.App.InitStateFile | code.py:312-316 | a missing file gets ACTIVE; an existing one is untouched |
| Application.App.Halt | code.py:295-302 | stores SLEEP (unless USB), every LED is off, and the run ends halted |
| Application.App.Run | code.py:329-353 | the outcome and the file are as `Startup` says; a halt leaves every LED off; otherwise the start time is the clock reading and no LED changes |
| Application.App.UpdateAnimationSet | code.py:268-275 | the scene index moves as `RotateScene` says for the elapsed time and stays in the table |
| Application.StartDevice | code.py:367-371 | from power-on the outcome and the file are as `PowerOn` says, all LEDs are dark, and a run starts on the intro scene at the clock reading |

## Left out

- `Sine` and `FlashAndDecay` rendering (`math.sin`, `math.pow(math.e, …)`): transcendental floating point. The phase computation that feeds them is modelled, since it is the same `exec`.
- `draw_frame` and the scene table `self.animations`: the table holds `Sine` and `FlashAndDecay` animations. The model keeps only the table's length (`Scenes.SceneCount`) and the configurations proved in `Glitch.SceneGlitchesBuild` and `Animations.HalfPeriodBlinkersAlternate`. The model builds the application at any frame rate; at rates other than the 25 the program uses, building the table can raise `ValueError` (at 23 frames a second the candle gets 9 segments for 46 frames), and those construction errors are not modelled.
- `random.uniform(0, 1)`: the i-th draw is the parameter `uniform(i)`.
- Floating-point rounding: all arithmetic is exact. For example `(1 / 25) * 5` is exactly 0.2 here.
- Hardware: PWM pins and frequency, `AnalogIn`, the CPU temperature and `print_power`'s voltage formula, which only prints.
- Leds.Led.Set: a negative `pct` stores a negative duty cycle. The PWM peripheral rejects such a value with an error, which is not modelled.
- The `asynccp` scheduler and its cadences. This includes the timed `halt` after `run_for` minutes, which appears only as `Activation.Shutdown`. The program's final `time.sleep(float("inf"))` is represented by the `Halted` outcome.
- Exceptions: `HaltException` is the `Halted` outcome. A zero `frame_count` in `exec` is the `FrameCountZero` outcome. `RandomGlitch`'s `ZeroDivisionError` and `ValueError` are the `ConfigError` values.
- Storage: the remount calls, `open`, `os.stat` and errors while writing are not modelled. The state file is an `Option<string>`. A file that cannot be read counts as missing, as `get_last_state` treats every `OSError` alike. `init_state_file` probes with `os.stat` instead, so for a file that exists but cannot be read the source writes nothing and runs with UNKNOWN, where the model writes ACTIVE and halts.
- `is_usb_connected`'s remount probe is a boolean parameter. It is assumed constant during one run.
- Application.App.UpdateAnimationSet: the source reads the clock twice (for the two-second guard and for the modulo check). The model uses one reading for both.
- `run`'s three calls to `get_last_state` are one function of the file. The file changes between them only through `halt`, which ends the run.
- Banner, log lines and the set of class names collected for the rotation log message.
- `App.switch_every` and `len(self.animations)` are the constants `Scenes.SwitchEvery` (15) and `Scenes.SceneCount` (6).
- An `Animation` takes its LEDs as a sequence. The source's single-LED argument is the one-element sequence.
